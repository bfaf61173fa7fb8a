/** The LR(1) parsing table (`LRTable` in backend/src/comp/table.py).

    Every state of the automaton gets an ACTION row and a GOTO row, filled from its items in the
    order the closure produced them. `_add_action` keeps the first action written to a cell; any
    later write to the same cell, even an identical one, is recorded as a conflict instead, and
    a later conflict on the same cell replaces the earlier record. The source keeps the
    conflicts in a dict keyed by state, created on the first conflict of that state; here each
    row carries its own conflict map, and a state "has conflicts" when that map is non-empty. */
module Table {
  import opened Wrappers
  import opened Strings
  import opened Grammar
  import opened Items
  import opened Afd
  import Afn

  /** The prefix that marks the augmented rule `S' -> X`. */
  const AcceptPrefix: String := "S' ->"

  datatype ActionKind = Shift | Reduce | Accept

  /** An ACTION entry `(accion, valor)`: the target state of a shift, the rule number of a
      reduce, and 0 for accept. */
  datatype Action = Action(kind: ActionKind, value: int)

  datatype ConflictKind = ShiftReduce | ReduceReduce | UnknownConflict

  /** A conflict record: the action kept in the table and the one that clashed with it. */
  datatype Conflict = Conflict(kind: ConflictKind, action1: Action, action2: Action)

  /** The ACTION row, GOTO row and conflict records of one state. */
  datatype Row = Row(action: map<String, Action>, goto: map<String, int>, conflicts: map<String, Conflict>)

  const EmptyRow: Row := Row(map[], map[], map[])

  /** `action_table`, `goto_table` and `conflicts` (row `k` belongs to state `k`), with the
      terminal and nonterminal symbols of the grammar. */
  datatype LrTable = LrTable(rows: seq<Row>, terminals: set<String>, nonterminals: set<String>)

  /** The representation invariant of an automaton: one transition map per state, each pointing
      at a numbered state. */
  ghost predicate Consistent(d: Afd) {
    && |d.transitions| == |d.states|
    && forall i, x | 0 <= i < |d.transitions| && x in d.transitions[i] :: d.transitions[i][x] < |d.states|
  }

  /** The automaton `BuildAfd` returns is consistent. */
  lemma BuiltConsistent(d: Afd)
    requires |d.transitions| == |d.states|
    requires forall i | 0 <= i < |d.states| :: TransitionsOf(d.states, d.states[i], d.transitions[i])
    ensures Consistent(d)
  {
    forall i, x | 0 <= i < |d.transitions| && x in d.transitions[i] ensures d.transitions[i][x] < |d.states| {
      assert TransitionsOf(d.states, d.states[i], d.transitions[i]);
    }
  }

  // ---------------------------------------------------------------- terminals

  /** `_get_terminales`: the grammar's terminals plus the end marker. */
  function TableTerminals(g: Grammar): (r: set<String>)
    ensures Afn.EndMarker in r
    ensures forall t | t in Terminals(g) :: t in r
    ensures forall t | t in r && t != Afn.EndMarker :: IsTerminal(g, t) && t != Epsilon && t != EpsilonWord
  {
    forall t | t in Terminals(g) ensures IsTerminal(g, t) && t != Epsilon && t != EpsilonWord {
      var j :| 0 <= j < |g.rules| && TerminalInRule(g, g.rules[j], t);
    }
    Terminals(g) + {Afn.EndMarker}
  }

  /** `get_simbolos_no_terminales`: the heads of the dictionary. */
  function Nonterminals(g: Grammar): (r: set<String>)
    ensures forall x :: x in r <==> !IsTerminal(g, x)
  {
    g.dict.Keys
  }

  // ---------------------------------------------------------------- one item

  /** `_get_regla_number`: the first index of `r` in the rule list, or -1. */
  function RuleNumber(rules: seq<String>, r: String): (n: int)
    ensures -1 <= n < |rules|
    ensures n == -1 <==> r !in rules
    ensures n >= 0 ==> rules[n] == r && r !in rules[..n]
  {
    if rules == [] then -1
    else if rules[0] == r then 0
    else
      var n := RuleNumber(rules[1..], r);
      assert forall i | 0 <= i < |rules[1..]| :: rules[1..][i] == rules[i + 1];
      if n == -1 then -1
      else
        assert rules[..n + 1] == [rules[0]] + rules[1..][..n];
        n + 1
  }

  /** What one item of state `k` asks of the row: an action on a terminal, a goto entry, or nothing. */
  datatype Effect = NoEffect | Act(terminal: String, action: Action) | SetGoto(symbol: String, target: int)

  /** `_handle_reduce_action` and `_handle_shift_action` for one item of state `k`. */
  function ItemEffect(g: Grammar, d: Afd, k: nat, it: Item): (e: Effect)
    requires Consistent(d) && k < |d.states|
    ensures e.Act? && e.action.kind == Accept <==>
              IsReducible(it) && StartsWith(it.rule, AcceptPrefix) && it.la == Afn.EndMarker
    ensures e.Act? && e.action.kind == Accept ==> e.terminal == Afn.EndMarker && e.action.value == 0
    ensures e.Act? && e.action.kind == Reduce <==> IsReducible(it) && !StartsWith(it.rule, AcceptPrefix)
    ensures e.Act? && e.action.kind == Reduce ==> e.terminal == it.la && e.action.value == RuleNumber(g.rules, it.rule)
    ensures e.Act? && e.action.kind == Shift ==>
              && NextSymbol(it) == Some(e.terminal) && IsTerminal(g, e.terminal)
              && e.terminal in d.transitions[k]
              && e.action.value == StateNumber(d, Id(d.states[d.transitions[k][e.terminal]]))
    ensures e.SetGoto? ==>
              && NextSymbol(it) == Some(e.symbol) && !IsTerminal(g, e.symbol)
              && e.symbol in d.transitions[k]
              && e.target == StateNumber(d, Id(d.states[d.transitions[k][e.symbol]]))
    ensures !IsReducible(it) && NextSymbol(it).value in d.transitions[k] ==> !e.NoEffect?
  {
    if IsReducible(it) then
      if StartsWith(it.rule, AcceptPrefix) then
        if it.la == Afn.EndMarker then Act(Afn.EndMarker, Action(Accept, 0)) else NoEffect
      else Act(it.la, Action(Reduce, RuleNumber(g.rules, it.rule)))
    else
      var x := NextSymbol(it).value;
      if x == "" || x !in d.transitions[k] then NoEffect
      else
        var target := StateNumber(d, Id(d.states[d.transitions[k][x]]));
        if IsTerminal(g, x) then Act(x, Action(Shift, target)) else SetGoto(x, target)
  }

  // ---------------------------------------------------------------- _add_action

  /** `_determine_conflict_type`. */
  function ConflictKindOf(a1: Action, a2: Action): (c: ConflictKind) {
    var kinds := {a1.kind, a2.kind};
    if Shift in kinds && Reduce in kinds then ShiftReduce
    else if kinds == {Reduce} then ReduceReduce
    else UnknownConflict
  }

  /** The conflict kind depends only on the two kinds: shift against reduce (either way round),
      reduce against reduce, and everything else unknown. */
  lemma ConflictKinds(a1: Action, a2: Action)
    ensures ConflictKindOf(a1, a2) == ShiftReduce <==>
              (a1.kind == Shift && a2.kind == Reduce) || (a1.kind == Reduce && a2.kind == Shift)
    ensures ConflictKindOf(a1, a2) == ReduceReduce <==> a1.kind == Reduce && a2.kind == Reduce
    ensures ConflictKindOf(a1, a2) == UnknownConflict <==>
              a1.kind == a2.kind != Reduce || a1.kind == Accept || a2.kind == Accept
  {
    var kinds := {a1.kind, a2.kind};
    if a1.kind == Reduce && a2.kind == Reduce {
      assert kinds == {Reduce};
    }
    if kinds == {Reduce} {
      assert a1.kind in kinds && a2.kind in kinds;
    }
  }

  /** `_add_action` and `_record_conflict`: the first action written to a cell stays; a later
      write to an occupied cell records a conflict against the stored action. */
  function AddAction(row: Row, t: String, a: Action): (r: Row)
    ensures r.goto == row.goto
    ensures t in r.action && r.action[t] == (if t in row.action then row.action[t] else a)
    ensures forall u | u in row.action :: u in r.action && r.action[u] == row.action[u]
    ensures forall u | u != t :: (u in r.action <==> u in row.action) && (u in r.conflicts <==> u in row.conflicts)
    ensures forall u | u != t && u in r.conflicts :: r.conflicts[u] == row.conflicts[u]
    ensures t in r.conflicts <==> t in row.action || t in row.conflicts
    ensures t in row.action ==> r.conflicts[t] == Conflict(ConflictKindOf(row.action[t], a), row.action[t], a)
    ensures t !in row.action && t in row.conflicts ==> r.conflicts[t] == row.conflicts[t]
  {
    if t in row.action then
      var existing := row.action[t];
      row.(conflicts := row.conflicts[t := Conflict(ConflictKindOf(existing, a), existing, a)])
    else
      row.(action := row.action[t := a])
  }

  function ApplyEffect(row: Row, e: Effect): Row {
    match e
    case NoEffect => row
    case Act(t, a) => AddAction(row, t, a)
    case SetGoto(x, n) => row.(goto := row.goto[x := n])
  }

  /** The effects of the items of state `k`, in order. */
  function Effects(g: Grammar, d: Afd, k: nat, items: seq<Item>): (es: seq<Effect>)
    requires Consistent(d) && k < |d.states|
    ensures |es| == |items| && forall i | 0 <= i < |items| :: es[i] == ItemEffect(g, d, k, items[i])
  {
    seq(|items|, i requires 0 <= i < |items| => ItemEffect(g, d, k, items[i]))
  }

  /** The row after the effects, applied in order to empty rows. */
  function Fill(es: seq<Effect>): Row {
    if es == [] then EmptyRow else ApplyEffect(Fill(es[..|es| - 1]), es[|es| - 1])
  }

  /** `_fill_state_entries`: the row of state `k`. */
  function FillRow(g: Grammar, d: Afd, k: nat, items: seq<Item>): Row
    requires Consistent(d) && k < |d.states|
  {
    Fill(Effects(g, d, k, items))
  }

  // ---------------------------------------------------------------- reference definition

  /** The actions the effects attempt to write at terminal `t`, in order. */
  function Attempts(es: seq<Effect>, t: String): seq<Action> {
    if es == [] then []
    else
      var e := es[|es| - 1];
      Attempts(es[..|es| - 1], t) + (if e.Act? && e.terminal == t then [e.action] else [])
  }

  function Last<T>(xs: seq<T>): T
    requires xs != []
  {
    xs[|xs| - 1]
  }

  /** The goto entries the effects attempt to write at nonterminal `x`, in order. */
  function GotoAttempts(es: seq<Effect>, x: String): seq<int> {
    if es == [] then []
    else
      var e := es[|es| - 1];
      GotoAttempts(es[..|es| - 1], x) + (if e.SetGoto? && e.symbol == x then [e.target] else [])
  }

  /** The ACTION cell at `t` holds the first attempted action, and a conflict is recorded exactly
      when there was a second attempt, naming the first and the last. */
  lemma {:induction false} FillActions(es: seq<Effect>, t: String)
    ensures var row, at := Fill(es), Attempts(es, t);
      && (t in row.action <==> at != [])
      && (t in row.action ==> row.action[t] == at[0])
      && (t in row.conflicts <==> |at| >= 2)
      && (t in row.conflicts ==> row.conflicts[t] == Conflict(ConflictKindOf(at[0], Last(at)), at[0], Last(at)))
  {
    if es != [] {
      FillActions(es[..|es| - 1], t);
    }
  }

  /** The GOTO cell at `x` holds the last attempted goto. */
  lemma {:induction false} FillGotos(es: seq<Effect>, x: String)
    ensures var row, at := Fill(es), GotoAttempts(es, x);
      && (x in row.goto <==> at != [])
      && (x in row.goto ==> row.goto[x] == Last(at))
  {
    if es != [] {
      FillGotos(es[..|es| - 1], x);
    }
  }

  /** An action is attempted at `t` exactly when some effect acts with it at `t`. */
  lemma {:induction false} AttemptsMembers(es: seq<Effect>, t: String, a: Action)
    ensures a in Attempts(es, t) <==> exists i | 0 <= i < |es| :: es[i] == Act(t, a)
  {
    if es != [] {
      var init := es[..|es| - 1];
      AttemptsMembers(init, t, a);
      if exists i | 0 <= i < |es| :: es[i] == Act(t, a) {
        var i :| 0 <= i < |es| && es[i] == Act(t, a);
        if i < |init| {
          assert init[i] == es[i];
        }
      }
      if a in Attempts(init, t) {
        var i :| 0 <= i < |init| && init[i] == Act(t, a);
        assert es[i] == init[i];
      }
    }
  }

  /** Every effect that acts at `t` acts with `a`. */
  ghost predicate OnlyAttempt(es: seq<Effect>, t: String, a: Action) {
    forall m | 0 <= m < |es| :: es[m].Act? && es[m].terminal == t ==> es[m].action == a
  }

  /** When every effect at `t` is `a`, the attempts are copies of `a`. */
  lemma {:induction false} AttemptsAll(es: seq<Effect>, t: String, a: Action)
    requires OnlyAttempt(es, t, a)
    ensures forall m | 0 <= m < |Attempts(es, t)| :: Attempts(es, t)[m] == a
  {
    if es != [] {
      var init := es[..|es| - 1];
      assert OnlyAttempt(init, t, a) by {
        forall m | 0 <= m < |init| ensures init[m] == es[m] {
        }
      }
      AttemptsAll(init, t, a);
    }
  }

  /** Two effects that act at `t` give at least two attempts. */
  lemma {:induction false} AttemptsCount(es: seq<Effect>, t: String, i: nat, j: nat)
    requires i < j < |es|
    requires es[i].Act? && es[i].terminal == t && es[j].Act? && es[j].terminal == t
    ensures |Attempts(es, t)| >= 2
  {
    var init := es[..|es| - 1];
    if j < |es| - 1 {
      assert init[i] == es[i] && init[j] == es[j];
      AttemptsCount(init, t, i, j);
    } else {
      assert init[i] == es[i];
      AttemptsMembers(init, t, es[i].action);
    }
  }

  /** Two identical shifts at `t`, and nothing else at `t`, leave a conflict of unknown kind. */
  lemma DuplicateShiftFill(es: seq<Effect>, i: nat, j: nat, t: String, a: Action)
    requires i < j < |es| && a.kind == Shift
    requires es[i] == Act(t, a) && es[j] == Act(t, a) && OnlyAttempt(es, t, a)
    ensures t in Fill(es).conflicts && Fill(es).conflicts[t] == Conflict(UnknownConflict, a, a)
  {
    AttemptsAll(es, t, a);
    AttemptsCount(es, t, i, j);
    FillActions(es, t);
  }

  // ---------------------------------------------------------------- the table

  /** `LRTable(afd)`: one filled row per state. */
  function BuildTable(g: Grammar, d: Afd): (tb: LrTable)
    requires Consistent(d)
    ensures |tb.rows| == |d.states|
    ensures tb.terminals == TableTerminals(g) && tb.nonterminals == Nonterminals(g)
    ensures forall k | 0 <= k < |d.states| :: tb.rows[k] == FillRow(g, d, k, d.states[k])
  {
    LrTable(seq(|d.states|, k requires 0 <= k < |d.states| => FillRow(g, d, k, d.states[k])),
            TableTerminals(g), Nonterminals(g))
  }

  /** `get_action`: the ACTION entry, or None for an unknown state or an empty cell. */
  function GetAction(tb: LrTable, s: int, t: String): (r: Option<Action>)
    ensures r.Some? <==> 0 <= s < |tb.rows| && t in tb.rows[s].action
    ensures r.Some? ==> r.value == tb.rows[s].action[t]
  {
    if 0 <= s < |tb.rows| && t in tb.rows[s].action then Some(tb.rows[s].action[t]) else None
  }

  /** `get_goto`: the GOTO entry, or None. */
  function GetGoto(tb: LrTable, s: int, x: String): (r: Option<int>)
    ensures r.Some? <==> 0 <= s < |tb.rows| && x in tb.rows[s].goto
    ensures r.Some? ==> r.value == tb.rows[s].goto[x]
  {
    if 0 <= s < |tb.rows| && x in tb.rows[s].goto then Some(tb.rows[s].goto[x]) else None
  }

  /** The states whose rows recorded a conflict. */
  function ConflictingStates(rows: seq<Row>): set<nat> {
    set k | 0 <= k < |rows| && rows[k].conflicts != map[]
  }

  /** `len(conflicts)`: the number of states with a conflict, not the number of cells. */
  function ConflictCount(tb: LrTable): (n: nat)
    ensures n == |ConflictingStates(tb.rows)|
    ensures n <= |tb.rows|
    ensures n > 0 <==> exists k | 0 <= k < |tb.rows| :: tb.rows[k].conflicts != map[]
  {
    CountConflicting(tb.rows)
  }

  /** `has_conflicts`: `len(conflicts) > 0`, that is, some state recorded a conflict. */
  function HasConflicts(tb: LrTable): (r: bool)
    ensures r <==> exists k | 0 <= k < |tb.rows| :: tb.rows[k].conflicts != map[]
  {
    ConflictCount(tb) > 0
  }

  function CountConflicting(rows: seq<Row>): (n: nat)
    ensures n == |ConflictingStates(rows)|
    ensures n <= |rows|
    ensures n > 0 <==> exists k | 0 <= k < |rows| :: rows[k].conflicts != map[]
  {
    if rows == [] then 0
    else
      var last := |rows| - 1;
      var init := rows[..last];
      assert forall k | 0 <= k < |init| :: init[k] == rows[k];
      var extra: set<nat> := if rows[last].conflicts != map[] then {last} else {};
      assert ConflictingStates(rows) == ConflictingStates(init) + extra;
      assert last !in ConflictingStates(init);
      CountConflicting(init) + if rows[last].conflicts != map[] then 1 else 0
  }

  /** One state with two conflicting cells counts once; two states with a conflict count
      twice. */
  lemma ConflictCountExample(c: Conflict)
    ensures var both := Row(map[], map[], map["+" := c, "id" := c]);
      ConflictCount(LrTable([both, EmptyRow], {}, {})) == 1
    ensures var one := Row(map[], map[], map["id" := c]);
      ConflictCount(LrTable([one, EmptyRow, one], {}, {})) == 2
  {
    var both := Row(map[], map[], map["+" := c, "id" := c]);
    assert "id" in both.conflicts;
    assert ConflictingStates([both, EmptyRow]) == {0};
    var one := Row(map[], map[], map["id" := c]);
    assert "id" in one.conflicts;
    assert ConflictingStates([one, EmptyRow, one]) == {0, 2};
  }

  // ---------------------------------------------------------------- properties

  /** `get_action` on the built table gives the first action any item of the state attempted. */
  lemma ActionIsFirstAttempt(g: Grammar, d: Afd, k: nat, t: String)
    requires Consistent(d) && k < |d.states|
    ensures var at := Attempts(Effects(g, d, k, d.states[k]), t);
      GetAction(BuildTable(g, d), k, t) == if at == [] then None else Some(at[0])
  {
    FillActions(Effects(g, d, k, d.states[k]), t);
  }

  /** On an automaton with pairwise different item sets, a shift goes to the state its
      transition names, and that state holds the advanced item. */
  lemma ShiftTarget(g: Grammar, d: Afd, k: nat, it: Item, t: String, a: Action)
    requires Consistent(d) && k < |d.states|
    requires forall i, j | 0 <= i < j < |d.states| :: Id(d.states[i]) != Id(d.states[j])
    requires TransitionsOf(d.states, d.states[k], d.transitions[k])
    requires it in d.states[k] && ItemEffect(g, d, k, it) == Act(t, a) && a.kind == Shift
    ensures a.value == d.transitions[k][t]
    ensures AdvanceDot(it).value in d.states[a.value]
  {
    var target := d.transitions[k][t];
    StateNumberOfState(d, target);
    var i :| 0 <= i < |d.states[k]| && d.states[k][i] == it;
    var adv := AdvanceDot(it).value;
    assert adv in Kernel(d.states[k], t);
    assert Id(Kernel(d.states[k], t)) <= Id(d.states[target]);
    assert adv in Id(d.states[target]);
  }

  /** Two items of a state that attempt the same shift on `t` (one state's `[A -> x . t y, l1]`
      and `[A -> x . t y, l2]`, say), with no other action on `t`, leave a conflict of unknown
      kind on `t` in the built table. */
  lemma DuplicateShiftConflict(g: Grammar, d: Afd, k: nat, i: nat, j: nat, t: String, a: Action)
    requires Consistent(d) && k < |d.states|
    requires i < j < |d.states[k]| && a.kind == Shift
    requires ItemEffect(g, d, k, d.states[k][i]) == Act(t, a) && ItemEffect(g, d, k, d.states[k][j]) == Act(t, a)
    requires OnlyAttempt(Effects(g, d, k, d.states[k]), t, a)
    ensures var row := BuildTable(g, d).rows[k];
      t in row.conflicts && row.conflicts[t] == Conflict(UnknownConflict, a, a)
  {
    DuplicateShiftFill(Effects(g, d, k, d.states[k]), i, j, t, a);
  }

  /** Writing the same shift twice into an empty cell: the source records a conflict of unknown
      kind against itself, the corrected policy records nothing. */
  lemma DuplicateShiftExample()
    ensures var a := Action(Shift, 3);
      var row := AddAction(AddAction(EmptyRow, "id", a), "id", a);
      "id" in row.conflicts && row.conflicts["id"] == Conflict(UnknownConflict, a, a)
    ensures var a := Action(Shift, 3);
      AddActionCorrected(AddActionCorrected(EmptyRow, "id", a), "id", a).conflicts == map[]
  {
    ConflictKinds(Action(Shift, 3), Action(Shift, 3));
  }

  // ---------------------------------------------------------------- corrected policy

  /** `_add_action` as evidently intended: writing the action a cell already holds is not a
      conflict. */
  function AddActionCorrected(row: Row, t: String, a: Action): (r: Row)
    ensures r.action == AddAction(row, t, a).action
    ensures t in row.action && row.action[t] == a ==> r == row
    ensures !(t in row.action && row.action[t] == a) ==> r == AddAction(row, t, a)
  {
    if t in row.action && row.action[t] == a then row else AddAction(row, t, a)
  }

  function ApplyEffectCorrected(row: Row, e: Effect): Row {
    match e
    case NoEffect => row
    case Act(t, a) => AddActionCorrected(row, t, a)
    case SetGoto(x, n) => row.(goto := row.goto[x := n])
  }

  function FillCorrected(es: seq<Effect>): Row {
    if es == [] then EmptyRow else ApplyEffectCorrected(FillCorrected(es[..|es| - 1]), es[|es| - 1])
  }

  /** The corrected `_add_action` fills the same ACTION and GOTO rows. */
  lemma {:induction false} FillCorrectedRows(es: seq<Effect>)
    ensures FillCorrected(es).action == Fill(es).action
    ensures FillCorrected(es).goto == Fill(es).goto
  {
    if es != [] {
      FillCorrectedRows(es[..|es| - 1]);
    }
  }

  /** With the corrected `_add_action`, a cell is in conflict exactly when two different actions
      were attempted there. */
  lemma {:induction false} FillCorrectedConflicts(es: seq<Effect>, t: String)
    ensures var at := Attempts(es, t);
      t in FillCorrected(es).conflicts <==> exists m | 0 <= m < |at| :: at[m] != at[0]
  {
    if es != [] {
      var init := es[..|es| - 1];
      FillCorrectedConflicts(init, t);
      FillCorrectedRows(init);
      FillActions(init, t);
      var at0 := Attempts(init, t);
      var at := Attempts(es, t);
      var e := es[|es| - 1];
      if e.Act? && e.terminal == t {
        assert at == at0 + [e.action];
        var row0 := FillCorrected(init);
        assert FillCorrected(es) == AddActionCorrected(row0, t, e.action);
        if at0 != [] {
          assert t in row0.action && row0.action[t] == at0[0];
          assert t in FillCorrected(es).conflicts <==> t in row0.conflicts || e.action != at0[0];
          assert at[0] == at0[0] && at[|at0|] == e.action;
          assert (exists m | 0 <= m < |at| :: at[m] != at[0]) <==>
                 (exists m | 0 <= m < |at0| :: at0[m] != at0[0]) || e.action != at0[0] by {
            if exists m | 0 <= m < |at| :: at[m] != at[0] {
              var m :| 0 <= m < |at| && at[m] != at[0];
              if m < |at0| {
                assert at0[m] != at0[0];
              }
            }
            if exists m | 0 <= m < |at0| :: at0[m] != at0[0] {
              var m :| 0 <= m < |at0| && at0[m] != at0[0];
              assert at[m] != at[0];
            }
          }
        } else {
          assert forall m | 0 <= m < |at| :: at[m] == at[0];
        }
      } else {
        assert at == at0;
      }
    }
  }

  /** `LRTable(afd)` with the corrected `_add_action`. */
  function BuildTableCorrected(g: Grammar, d: Afd): (tb: LrTable)
    requires Consistent(d)
    ensures |tb.rows| == |d.states|
    ensures forall k | 0 <= k < |d.states| :: tb.rows[k].action == BuildTable(g, d).rows[k].action
    ensures forall k | 0 <= k < |d.states| :: tb.rows[k].goto == BuildTable(g, d).rows[k].goto
    ensures forall k | 0 <= k < |d.states| :: tb.rows[k] == FillCorrected(Effects(g, d, k, d.states[k]))
  {
    forall k | 0 <= k < |d.states|
      ensures FillCorrected(Effects(g, d, k, d.states[k])).action == FillRow(g, d, k, d.states[k]).action
      ensures FillCorrected(Effects(g, d, k, d.states[k])).goto == FillRow(g, d, k, d.states[k]).goto
    {
      FillCorrectedRows(Effects(g, d, k, d.states[k]));
    }
    LrTable(seq(|d.states|, k requires 0 <= k < |d.states| => FillCorrected(Effects(g, d, k, d.states[k]))),
            TableTerminals(g), Nonterminals(g))
  }

  /** With the corrected policy, duplicate shifts on `t` and nothing else leave no conflict on `t`. */
  lemma DuplicateShiftNoConflict(g: Grammar, d: Afd, k: nat, t: String, a: Action)
    requires Consistent(d) && k < |d.states|
    requires OnlyAttempt(Effects(g, d, k, d.states[k]), t, a)
    ensures t !in BuildTableCorrected(g, d).rows[k].conflicts
  {
    var es := Effects(g, d, k, d.states[k]);
    AttemptsAll(es, t, a);
    FillCorrectedConflicts(es, t);
    var at := Attempts(es, t);
    if at != [] {
      assert at[0] == a;
      assert forall m | 0 <= m < |at| :: at[m] == at[0];
    }
  }
}
