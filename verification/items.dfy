/** LR(1) items (`LR1Item` in backend/src/comp/item.py).

    An item is identified by the triple `(regla, dot_pos, lookahead)`; the `parent`,
    `transition`, `transition_val` and `transition_e` fields only serve the drawings and are
    not part of an item's identity, so the datatype is exactly the triple and its equality is
    the source's `__eq__`. The registry `estados` (a dict keyed by item id) is a set of items. */
module Items {
  import opened Wrappers
  import opened Strings
  import opened Grammar
  import opened FirstSets

  datatype Item = Item(rule: String, dot: nat, la: String)

  /** `current`: the text before the first `" -> "`. */
  function Head(it: Item): String {
    RuleHead(it.rule)
  }

  /** `next`: the body symbols; `dot_pos_mx` is its length. */
  function Body(it: Item): seq<String> {
    RuleBody(it.rule)
  }

  /** `is_reducible`. */
  predicate IsReducible(it: Item) {
    it.dot >= |Body(it)|
  }

  /** `get_next_symbol`: the symbol after the dot, if any. */
  function NextSymbol(it: Item): (r: Option<String>)
    ensures r.None? <==> IsReducible(it)
    ensures r.Some? ==> it.dot < |Body(it)| && r.value == Body(it)[it.dot]
  {
    if it.dot < |Body(it)| then Some(Body(it)[it.dot]) else None
  }

  /** `get_beta_alpha`: the symbols after the next symbol, and the lookahead. */
  function BetaAlpha(it: Item): (r: (seq<String>, String))
    ensures r.1 == it.la
    ensures !IsReducible(it) ==> Body(it) == Body(it)[..it.dot] + [Body(it)[it.dot]] + r.0
    ensures IsReducible(it) ==> r.0 == []
  {
    var body := Body(it);
    if it.dot + 1 < |body| then
      assert body == body[..it.dot] + [body[it.dot]] + body[it.dot + 1..];
      (body[it.dot + 1..], it.la)
    else ([], it.la)
  }

  /** `beta + [alpha]`, the sequence whose FIRST set gives the lookaheads of derived items. */
  function LookaheadContext(it: Item): seq<String> {
    BetaAlpha(it).0 + [it.la]
  }

  /** `advance_dot`: the same rule and lookahead with the dot one step on, unless reducible. */
  function AdvanceDot(it: Item): (r: Option<Item>)
    ensures r.Some? <==> !IsReducible(it)
    ensures r.Some? ==> r.value.rule == it.rule && r.value.la == it.la && r.value.dot == it.dot + 1
  {
    if it.dot < |Body(it)| then Some(Item(it.rule, it.dot + 1, it.la)) else None
  }

  /** Advancing is injective: distinct non-reducible items advance to distinct items. */
  lemma AdvanceInjective(a: Item, b: Item)
    requires !IsReducible(a) && !IsReducible(b)
    ensures AdvanceDot(a) == AdvanceDot(b) <==> a == b
  {
  }

  // ---------------------------------------------------------------- __str__

  /** The production list of `__str__`: a `"."` word before symbol `dot`, or at the end when
      `dot` is the body length. */
  function Dotted(body: seq<String>, dot: int): (r: seq<String>)
    ensures 0 <= dot <= |body| ==> r == body[..dot] + ["."] + body[dot..]
    ensures dot < 0 || dot > |body| ==> r == body
    decreases |body|
  {
    var mark := if dot == 0 then ["."] else [];
    if body == [] then mark
    else
      var rest := Dotted(body[1..], dot - 1);
      assert 0 < dot <= |body| ==> body[..dot] == [body[0]] + body[1..][..dot - 1];
      mark + [body[0]] + rest
  }

  /** `__str__`: `[head -> dotted body, lookahead]`. */
  function ItemText(it: Item): String {
    "[" + Head(it) + Arrow + Join(Dotted(Body(it), it.dot), " ") + ", " + it.la + "]"
  }

  /** Every item the construction creates (dot within the body) prints with its dot placed
      right before the next symbol, or at the end for a reducible item. */
  lemma ItemTextDot(it: Item)
    requires it.dot <= |Body(it)|
    ensures Dotted(Body(it), it.dot)[it.dot] == "."
    ensures NextSymbol(it).Some? ==> Dotted(Body(it), it.dot)[it.dot + 1] == NextSymbol(it).value
    ensures IsReducible(it) ==> Dotted(Body(it), it.dot) == Body(it) + ["."]
  {
  }

  // ---------------------------------------------------------------- transitions

  /** `next_transition`: the advanced item, returned only when it was not yet registered; the
      registry gains the advanced item. */
  function NextTransition(it: Item, reg: set<Item>): (r: (Option<Item>, set<Item>))
    ensures IsReducible(it) ==> r == (None, reg)
    ensures !IsReducible(it) ==> r.1 == reg + {AdvanceDot(it).value}
    ensures r.0.Some? <==> !IsReducible(it) && AdvanceDot(it).value !in reg
    ensures r.0.Some? ==> r.0 == AdvanceDot(it)
  {
    match AdvanceDot(it)
    case None => (None, reg)
    case Some(next) => if next !in reg then (Some(next), reg + {next}) else (None, reg)
  }

  /** The candidate items `(p, 0, b)`, productions outermost, in loop order. */
  function Candidates(prods: seq<String>, las: seq<String>): (r: seq<Item>)
    ensures forall x :: x in r <==> exists i, j | 0 <= i < |prods| && 0 <= j < |las| :: x == Item(prods[i], 0, las[j])
    decreases |prods|
  {
    if prods == [] then []
    else
      var here := seq(|las|, j requires 0 <= j < |las| => Item(prods[0], 0, las[j]));
      var rest := Candidates(prods[1..], las);
      forall x | x in rest
        ensures exists i, j | 0 <= i < |prods| && 0 <= j < |las| :: x == Item(prods[i], 0, las[j])
      {
        var i, j :| 0 <= i < |prods[1..]| && 0 <= j < |las| && x == Item(prods[1..][i], 0, las[j]);
        assert prods[1..][i] == prods[i + 1];
      }
      forall x | (exists i, j | 0 <= i < |prods| && 0 <= j < |las| :: x == Item(prods[i], 0, las[j]))
        ensures x in here + rest
      {
        var i, j :| 0 <= i < |prods| && 0 <= j < |las| && x == Item(prods[i], 0, las[j]);
        if i == 0 {
          assert here[j] == x;
        } else {
          assert prods[1..][i - 1] == prods[i];
        }
      }
      here + rest
  }

  predicate Distinct(xs: seq<Item>) {
    forall i, j | 0 <= i < j < |xs| :: xs[i] != xs[j]
  }

  /** Append, in order, the items of `xs` not already present: the membership test against the
      registry or the visited set followed by `append`. */
  function AppendNew(acc: seq<Item>, xs: seq<Item>): (r: seq<Item>)
    ensures acc <= r
    ensures forall x :: x in r <==> x in acc || x in xs
    ensures forall i | |acc| <= i < |r| :: r[i] !in r[..i]
    ensures Distinct(acc) ==> Distinct(r)
    decreases |xs|
  {
    if xs == [] then acc
    else if xs[0] in acc then AppendNew(acc, xs[1..])
    else
      var r := AppendNew(acc + [xs[0]], xs[1..]);
      assert r[|acc|] == xs[0] && r[..|acc|] == acc;
      r
  }

  /** Result of `next_transition_e`: the ε-targets (empty for `None`), the registry after
      registering the new ones, and the FIRST state after `calculate_first`. */
  datatype Expansion = Expansion(targets: seq<Item>, registry: set<Item>, st: FirstState)

  /** The nonterminal after the dot, when there is one: the case `next_transition_e` and
      `_closure` expand (`if next_symbol and not grammar.is_terminal(next_symbol)`). */
  function ExpandedSymbol(g: Grammar, it: Item): (r: Option<String>)
    ensures r.Some? <==> !IsReducible(it) && NextSymbol(it).value != "" && !IsTerminal(g, NextSymbol(it).value)
    ensures r.Some? ==> r == NextSymbol(it)
  {
    match NextSymbol(it)
    case None => None
    case Some(b) => if b != "" && !IsTerminal(g, b) then Some(b) else None
  }

  /** `xs` holds exactly the items `(p, 0, b)` with `p` in `prods` and `b` in `las`. */
  ghost predicate DerivedItems(xs: seq<Item>, prods: seq<String>, las: seq<String>) {
    forall x :: x in xs <==> exists i, j | 0 <= i < |prods| && 0 <= j < |las| :: x == Item(prods[i], 0, las[j])
  }

  lemma DerivedCandidates(prods: seq<String>, las: seq<String>)
    ensures DerivedItems(AppendNew([], Candidates(prods, las)), prods, las)
  {
  }

  /** `next_transition_e`: for an item expanding on `B`, the items `(p, 0, b)` for each
      production `p` of `B` and each `b` in FIRST(β a), each once; they are registered. */
  function NextTransitionE(g: Grammar, st: FirstState, it: Item, reg: set<Item>): (r: Expansion)
    ensures ExpandedSymbol(g, it).None? ==> r == Expansion([], reg, st)
    ensures ExpandedSymbol(g, it).Some? ==>
      && r.st == CalculateFirst(g, st, LookaheadContext(it)).st
      && DerivedItems(r.targets, Productions(g, ExpandedSymbol(g, it).value), CalculateFirst(g, st, LookaheadContext(it)).first)
    ensures r.registry == reg + (set x | x in r.targets)
    ensures Distinct(r.targets)
  {
    match ExpandedSymbol(g, it)
    case None => Expansion([], reg, st)
    case Some(b) =>
      var f := CalculateFirst(g, st, LookaheadContext(it));
      var targets := AppendNew([], Candidates(Productions(g, b), f.first));
      DerivedCandidates(Productions(g, b), f.first);
      assert Distinct([]);
      Expansion(targets, reg + (set x | x in targets), f.st)
  }

  /** FIRST(β a) of `it` is already settled in `st`: computing it again changes nothing. */
  ghost predicate Settled(g: Grammar, st: FirstState, it: Item) {
    CalculateFirst(g, st, LookaheadContext(it)).st == st
  }

  // ---------------------------------------------------------------- the item universe

  /** Rules items can carry: the dictionary's productions and the rules of the seed items. */
  ghost function RulesOf(g: Grammar, seeds: set<Item>): set<String> {
    AllProductions(g) + set s | s in seeds :: s.rule
  }

  /** Symbols occurring in the bodies of `rules`. */
  ghost function SymbolsOf(rules: set<String>): set<String> {
    set r, x | r in rules && x in RuleBody(r) :: x
  }

  /** Lookaheads items can carry: body symbols, the empty marker and the seeds' lookaheads. */
  ghost function LookaheadsOf(g: Grammar, seeds: set<Item>): set<String> {
    SymbolsOf(RulesOf(g, seeds)) + {Epsilon} + set s | s in seeds :: s.la
  }

  /** The finite set of items reachable from `seeds` by advancing and expanding. */
  ghost function Universe(g: Grammar, seeds: set<Item>): set<Item> {
    set r: String, d: nat, la: String | r in RulesOf(g, seeds) && d <= |RuleBody(r)| && la in LookaheadsOf(g, seeds) :: Item(r, d, la)
  }

  lemma InUniverse(g: Grammar, seeds: set<Item>, it: Item)
    requires it.rule in RulesOf(g, seeds) && it.dot <= |Body(it)| && it.la in LookaheadsOf(g, seeds)
    ensures it in Universe(g, seeds)
  {
    assert it == Item(it.rule, it.dot, it.la);
  }

  /** Seeds whose dot lies within the body belong to their own universe. */
  lemma SeedsInUniverse(g: Grammar, seeds: set<Item>)
    requires forall s | s in seeds :: s.dot <= |Body(s)|
    ensures seeds <= Universe(g, seeds)
  {
    forall s | s in seeds ensures s in Universe(g, seeds) {
      InUniverse(g, seeds, s);
    }
  }

  /** Advancing stays in the universe. */
  lemma AdvanceInUniverse(g: Grammar, seeds: set<Item>, it: Item)
    requires it in Universe(g, seeds) && !IsReducible(it)
    ensures AdvanceDot(it).value in Universe(g, seeds)
  {
    InUniverse(g, seeds, AdvanceDot(it).value);
  }

  /** Expanding on a nonterminal stays in the universe: the derived items carry a listed
      production and a lookahead from a sound FIRST set of the item's context. */
  lemma ExpansionInUniverse(g: Grammar, seeds: set<Item>, st: FirstState, it: Item, b: String, p: String, la: String)
    requires it in Universe(g, seeds) && ExpandedSymbol(g, it) == Some(b) && CacheSound(g, st)
    requires p in Productions(g, b) && la in CalculateFirst(g, st, LookaheadContext(it)).first
    ensures Item(p, 0, la) in Universe(g, seeds)
  {
    assert p in AllProductions(g) by {
      assert b in g.dict && p in g.dict[b];
    }
    var ctx := LookaheadContext(it);
    assert SoundFirst(g, CalculateFirst(g, st, ctx).first, ctx);
    if la != Epsilon && la !in Vocabulary(g) {
      assert la in ctx;
      ContextInLookaheads(g, seeds, it, la);
    } else if la in Vocabulary(g) {
      var q, x :| q in AllProductions(g) && x in RuleBody(q) && x == la;
      assert la in SymbolsOf(RulesOf(g, seeds));
    }
    InUniverse(g, seeds, Item(p, 0, la));
  }

  /** The symbols of the context FIRST(β a) is computed from are lookaheads of the universe. */
  lemma ContextInLookaheads(g: Grammar, seeds: set<Item>, it: Item, la: String)
    requires it in Universe(g, seeds) && !IsReducible(it) && la in LookaheadContext(it)
    ensures la in LookaheadsOf(g, seeds)
  {
    UniverseMember(g, seeds, it);
    if la in BetaAlpha(it).0 {
      assert la in Body(it);
      assert la in SymbolsOf(RulesOf(g, seeds));
    } else {
      assert la == it.la;
    }
  }

  /** The members of the universe are exactly the items it is built from. */
  lemma UniverseMember(g: Grammar, seeds: set<Item>, it: Item)
    requires it in Universe(g, seeds)
    ensures it.rule in RulesOf(g, seeds) && it.dot <= |Body(it)| && it.la in LookaheadsOf(g, seeds)
  {
  }

  /** A universe of items drawn from another universe lies inside it. */
  lemma UniverseMono(g: Grammar, seeds: set<Item>, big: set<Item>)
    requires seeds <= Universe(g, big)
    ensures Universe(g, seeds) <= Universe(g, big)
  {
    assert RulesOf(g, seeds) <= RulesOf(g, big) by {
      forall s | s in seeds ensures s.rule in RulesOf(g, big) {
        assert s in Universe(g, big);
      }
    }
    assert SymbolsOf(RulesOf(g, seeds)) <= SymbolsOf(RulesOf(g, big));
    assert LookaheadsOf(g, seeds) <= LookaheadsOf(g, big) by {
      forall s | s in seeds ensures s.la in LookaheadsOf(g, big) {
        assert s in Universe(g, big);
      }
    }
    forall it | it in Universe(g, seeds) ensures it in Universe(g, big) {
      InUniverse(g, big, it);
    }
  }
}
