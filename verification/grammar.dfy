/** The grammar text: rule lines, the augmented start rule and the head-to-rules dictionary
    (backend/src/comp/grammar.py). FIRST sets live in module FirstSets. */
module Grammar {
  import opened Wrappers
  import opened Strings

  /** The separator between a rule's head and its body. */
  const Arrow: String := " -> "
  /** The empty-string marker, and its spelled-out alternative. */
  const Epsilon: String := "ε"
  const EpsilonWord: String := "epsilon"
  /** Head of the augmented start rule. */
  const AugmentedHead: String := "S'"

  /** `reglas` (augmented rule list), `diccionario` (head to rules) and `start_symbol`. */
  datatype Grammar = Grammar(rules: seq<String>, dict: map<String, seq<String>>, start: Option<String>)

  /** No whitespace at either end. */
  predicate Stripped(s: String) {
    s == [] || (!IsSpace(s[0]) && !IsSpace(s[|s| - 1]))
  }

  /** What `obtener_reglas` can return as one rule: a non-blank, stripped, single line. */
  predicate IsRuleLine(s: String) {
    s != [] && Stripped(s) && '\n' !in s
  }

  // ---------------------------------------------------------------- obtener_reglas

  /** The stripped non-blank lines among `lines`, in order. */
  function StrippedNonBlank(lines: seq<String>): (r: seq<String>)
    requires forall k | 0 <= k < |lines| :: '\n' !in lines[k]
    ensures |r| <= |lines|
    ensures forall k | 0 <= k < |r| :: IsRuleLine(r[k])
  {
    if lines == [] then []
    else
      var t := Strip(lines[0]);
      var rest := StrippedNonBlank(lines[1..]);
      if t != "" then
        assert '\n' !in t by {
          var i, j :| 0 <= i <= j <= |lines[0]| && t == lines[0][i..j];
        }
        [t] + rest
      else rest
  }

  /** `r` is the stripped lines `lines[idx[0]]`, `lines[idx[1]]`, … for increasing indices
      `idx`, and every line left out is blank. */
  predicate KeepsLines(lines: seq<String>, r: seq<String>, idx: seq<nat>) {
    && |idx| == |r|
    && (forall i, j | 0 <= i < j < |idx| :: idx[i] < idx[j])
    && (forall i | 0 <= i < |idx| :: idx[i] < |lines| && r[i] == Strip(lines[idx[i]]))
    && (forall j | 0 <= j < |lines| && j !in idx :: AllSpace(lines[j]))
  }

  /** The strip-and-filter step keeps the non-blank lines, stripped, in order. */
  lemma {:induction false} StrippedNonBlankKeeps(lines: seq<String>)
    requires forall k | 0 <= k < |lines| :: '\n' !in lines[k]
    ensures exists idx :: KeepsLines(lines, StrippedNonBlank(lines), idx)
  {
    if lines == [] {
      assert KeepsLines(lines, StrippedNonBlank(lines), []);
    } else {
      StrippedNonBlankKeeps(lines[1..]);
      var rest := StrippedNonBlank(lines[1..]);
      var idx :| KeepsLines(lines[1..], rest, idx);
      var t := Strip(lines[0]);
      if t != "" {
        KeepFirst(lines, rest, idx);
        assert StrippedNonBlank(lines) == [t] + rest;
        assert KeepsLines(lines, StrippedNonBlank(lines), [0] + Shift(idx));
      } else {
        BlankOfStrip(lines[0]);
        DropFirst(lines, rest, idx);
        assert StrippedNonBlank(lines) == rest;
        assert KeepsLines(lines, StrippedNonBlank(lines), Shift(idx));
      }
    }
  }

  /** A kept first line goes in front, with the other indices moved up by one. */
  lemma KeepFirst(lines: seq<String>, rest: seq<String>, idx: seq<nat>)
    requires lines != [] && KeepsLines(lines[1..], rest, idx)
    ensures KeepsLines(lines, [Strip(lines[0])] + rest, [0] + Shift(idx))
  {
    var shifted := Shift(idx);
    var idx2 := [0] + shifted;
    var r := [Strip(lines[0])] + rest;
    ShiftedKeeps(lines, rest, idx);
    assert idx2[1..] == shifted && r[1..] == rest;
    forall j | 0 <= j < |lines| && j !in idx2 ensures AllSpace(lines[j]) {
      assert j != 0 && j !in shifted;
    }
  }

  /** A dropped blank first line moves the indices up by one. */
  lemma DropFirst(lines: seq<String>, rest: seq<String>, idx: seq<nat>)
    requires lines != [] && KeepsLines(lines[1..], rest, idx) && AllSpace(lines[0])
    ensures KeepsLines(lines, rest, Shift(idx))
  {
    ShiftedKeeps(lines, rest, idx);
  }

  function Shift(idx: seq<nat>): (r: seq<nat>)
    ensures |r| == |idx| && forall i | 0 <= i < |idx| :: r[i] == idx[i] + 1
  {
    seq(|idx|, i requires 0 <= i < |idx| => idx[i] + 1)
  }

  lemma ShiftedKeeps(lines: seq<String>, rest: seq<String>, idx: seq<nat>)
    requires lines != [] && KeepsLines(lines[1..], rest, idx)
    ensures var shifted := Shift(idx);
      && 0 !in shifted
      && (forall i | 0 <= i < |shifted| :: 0 < shifted[i] < |lines| && rest[i] == Strip(lines[shifted[i]]))
      && (forall i, j | 0 <= i < j < |shifted| :: shifted[i] < shifted[j])
      && (forall j | 1 <= j < |lines| && j !in shifted :: AllSpace(lines[j]))
  {
    var shifted := Shift(idx);
    forall j | 1 <= j < |lines| && j !in shifted ensures AllSpace(lines[j]) {
      if j - 1 in idx {
        var i :| 0 <= i < |idx| && idx[i] == j - 1;
        assert shifted[i] == j;
      }
      assert lines[1..][j - 1] == lines[j];
    }
  }

  /** `obtener_reglas`: split the grammar text at newlines, strip each line, drop blank ones.
      The rules are the non-blank lines of the text, stripped, in order. */
  function ObtainRules(content: String): (r: seq<String>)
    ensures forall k | 0 <= k < |r| :: IsRuleLine(r[k])
    ensures r == [] <==> AllSpace(content)
    ensures exists idx :: KeepsLines(SplitOn(content, "\n"), r, idx)
  {
    var lines := SplitOn(content, "\n");
    forall k | 0 <= k < |lines| ensures '\n' !in lines[k] {
      NewlineFree(lines[k]);
    }
    StrippedNonBlankKeeps(lines);
    var r := StrippedNonBlank(lines);
    if AllSpace(content) then
      BlankLines(content, lines);
      r
    else
      NonBlankLine(content, lines);
      r
  }

  /** Text that is not blank has a line that is not blank, and that line survives. */
  lemma NonBlankLine(content: String, lines: seq<String>)
    requires !AllSpace(content)
    requires lines == SplitOn(content, "\n")
    requires forall k | 0 <= k < |lines| :: '\n' !in lines[k]
    ensures StrippedNonBlank(lines) != []
  {
    if forall k | 0 <= k < |lines| :: AllSpace(lines[k]) {
      JoinAllSpace(lines, "\n");
      assert false;
    }
    var k :| 0 <= k < |lines| && !AllSpace(lines[k]);
    NonBlankSurvives(lines, k);
  }

  /** Blank parts joined by a blank separator give blank text. */
  lemma {:induction false} JoinAllSpace(parts: seq<String>, sep: String)
    requires AllSpace(sep) && forall k | 0 <= k < |parts| :: AllSpace(parts[k])
    ensures AllSpace(Join(parts, sep))
    decreases |parts|
  {
    if |parts| > 1 {
      JoinAllSpace(parts[1..], sep);
      var tail := Join(parts[1..], sep);
      var s := Join(parts, sep);
      assert s == parts[0] + sep + tail;
      forall i | 0 <= i < |s| ensures IsSpace(s[i]) {
        if i < |parts[0]| {
          assert s[i] == parts[0][i];
        } else if i < |parts[0]| + |sep| {
          assert s[i] == sep[i - |parts[0]|];
        } else {
          assert s[i] == tail[i - |parts[0]| - |sep|];
        }
      }
    }
  }

  /** A line that is not blank leaves a rule. */
  lemma {:induction false} NonBlankSurvives(lines: seq<String>, k: nat)
    requires forall j | 0 <= j < |lines| :: '\n' !in lines[j]
    requires k < |lines| && !AllSpace(lines[k])
    ensures StrippedNonBlank(lines) != []
    decreases k
  {
    if k == 0 {
      if Strip(lines[0]) == [] {
        BlankOfStrip(lines[0]);
      }
    } else {
      NonBlankSurvives(lines[1..], k - 1);
    }
  }

  lemma NewlineFree(s: String)
    requires !Contains(s, "\n")
    ensures '\n' !in s
  {
    if '\n' in s {
      var i :| 0 <= i < |s| && s[i] == '\n';
      assert s[i..i + 1] == "\n";
      assert OccursAt(s, "\n", i);
    }
  }

  lemma BlankLines(content: String, lines: seq<String>)
    requires AllSpace(content)
    requires lines == SplitOn(content, "\n")
    requires forall k | 0 <= k < |lines| :: '\n' !in lines[k]
    ensures StrippedNonBlank(lines) == []
  {
    forall k | 0 <= k < |lines| ensures AllSpace(lines[k]) {
      JoinPartInside(lines, "\n", k);
    }
    BlankStrippedNonBlank(lines);
  }

  lemma {:induction false} BlankStrippedNonBlank(lines: seq<String>)
    requires forall k | 0 <= k < |lines| :: '\n' !in lines[k] && AllSpace(lines[k])
    ensures StrippedNonBlank(lines) == []
    decreases |lines|
  {
    if lines != [] {
      StripOfBlank(lines[0]);
      BlankStrippedNonBlank(lines[1..]);
    }
  }

  /** Every character of a part of a join is a character of the joined string. */
  lemma {:induction false} JoinPartInside(parts: seq<String>, sep: String, k: nat)
    requires k < |parts|
    requires AllSpace(Join(parts, sep))
    ensures AllSpace(parts[k])
    decreases |parts|
  {
    if |parts| > 1 {
      var s := Join(parts, sep);
      assert s == parts[0] + sep + Join(parts[1..], sep);
      if k == 0 {
        forall i | 0 <= i < |parts[0]| ensures IsSpace(parts[0][i]) { assert s[i] == parts[0][i]; }
      } else {
        var tail := Join(parts[1..], sep);
        forall i | 0 <= i < |tail| ensures IsSpace(tail[i]) {
          assert s[|parts[0]| + |sep| + i] == tail[i];
        }
        JoinPartInside(parts[1..], sep, k - 1);
      }
    }
  }

  lemma StripOfBlank(s: String)
    requires AllSpace(s)
    ensures Strip(s) == []
  {
    assert LeadingSpace(s) == |s|;
  }

  lemma BlankOfStrip(s: String)
    requires Strip(s) == []
    ensures AllSpace(s)
  {
    var i := LeadingSpace(s);
    var t := s[i..];
    assert TrailingSpace(t) == |t|;
    assert t[|t| - |t|..] == t;
    assert i == |s|;
    assert s[..i] == s;
  }

  lemma StripOfStripped(s: String)
    requires s != [] && Stripped(s)
    ensures Strip(s) == s
  {
    assert LeadingSpace(s) == 0;
    assert TrailingSpace(s) == 0;
  }

  /** Rule lines joined with newlines are read back unchanged by `obtener_reglas`. */
  lemma ObtainRulesOfJoin(rs: seq<String>)
    requires forall k | 0 <= k < |rs| :: IsRuleLine(rs[k])
    ensures ObtainRules(Join(rs, "\n")) == rs
  {
    if rs == [] {
      assert SplitOn("", "\n") == [""] by {
        assert FindFrom("", "\n", 0).None?;
      }
      assert Strip("") == "";
    } else {
      SplitOfJoin(rs, '\n');
      var lines := SplitOn(Join(rs, "\n"), "\n");
      assert lines == rs;
      assert forall k | 0 <= k < |rs| :: '\n' !in rs[k] by {
        forall k | 0 <= k < |rs| ensures '\n' !in rs[k] { assert IsRuleLine(rs[k]); }
      }
      StrippedNonBlankOfRules(rs);
    }
  }

  lemma {:induction false} StrippedNonBlankOfRules(rs: seq<String>)
    requires forall k | 0 <= k < |rs| :: IsRuleLine(rs[k])
    requires forall k | 0 <= k < |rs| :: '\n' !in rs[k]
    ensures StrippedNonBlank(rs) == rs
    decreases |rs|
  {
    if rs != [] {
      StripOfStripped(rs[0]);
      StrippedNonBlankOfRules(rs[1..]);
      assert rs == [rs[0]] + rs[1..];
    }
  }

  // ---------------------------------------------------------------- extender_reglas

  /** The augmented start rule `S' -> X`. */
  function AugmentedRule(x: String): String {
    AugmentedHead + Arrow + x
  }

  /** `extender_reglas`: on a non-empty list, prepend `S' -> X` where `X` is the first rule's
      text before its first `" -> "`, and report `X` as the start symbol. */
  function ExtendRules(rules: seq<String>): (r: (seq<String>, Option<String>))
    ensures rules == [] ==> r == ([], None)
    ensures rules != [] ==>
      && r.1.Some?
      && r.0 == [AugmentedRule(r.1.value)] + rules
      && !Contains(r.1.value, Arrow)
      && (rules[0] == r.1.value || StartsWith(rules[0], r.1.value + Arrow))
      && NoOccurrenceIn(rules[0], Arrow, 0, |r.1.value|)
  {
    if rules == [] then (rules, None)
    else
      var parts := SplitOn(rules[0], Arrow);
      var x := parts[0];
      assert |parts| > 1 ==> StartsWith(rules[0], x + Arrow) by {
        if |parts| > 1 {
          assert rules[0] == x + Arrow + Join(parts[1..], Arrow);
          assert rules[0][..|x + Arrow|] == x + Arrow;
        }
      }
      ([AugmentedRule(x)] + rules, Some(x))
  }

  // ---------------------------------------------------------------- rule parts

  /** Text before the first `" -> "` (the whole rule if there is none): `LR1Item.current`. */
  function RuleHead(rule: String): String {
    SplitOn(rule, Arrow)[0]
  }

  /** `LR1Item.next`: the whitespace split of the text between the first and second `" -> "`,
      or `[]` when the rule has no separator. */
  function RuleBody(rule: String): seq<String> {
    var parts := SplitOn(rule, Arrow);
    if |parts| > 1 then Words(parts[1]) else []
  }

  /** The rule splits into exactly two parts on `" -> "`. */
  predicate IsProduction(rule: String) {
    |SplitOn(rule, Arrow)| == 2
  }

  /** A production's two halves are the head and the body text, neither containing `" -> "`. */
  lemma ProductionShape(rule: String)
    requires IsProduction(rule)
    ensures exists t :: rule == RuleHead(rule) + Arrow + t && !Contains(t, Arrow) && RuleBody(rule) == Words(t)
    ensures !Contains(RuleHead(rule), Arrow)
  {
    var parts := SplitOn(rule, Arrow);
    assert parts[1..] == [parts[1]];
    assert rule == parts[0] + Arrow + parts[1];
  }

  /** `rule` is a production whose head is `k`. */
  predicate HasHead(rule: String, k: String) {
    IsProduction(rule) && RuleHead(rule) == k
  }

  // ---------------------------------------------------------------- _build_dictionary

  /** Reference: the productions among `rules` whose head is `k`, in rule order. */
  function ProductionsOf(rules: seq<String>, k: String): seq<String>
  {
    if rules == [] then []
    else
      var last := rules[|rules| - 1];
      ProductionsOf(rules[..|rules| - 1], k) + (if HasHead(last, k) then [last] else [])
  }

  /** `d` is the dictionary `_build_dictionary` should build from `rules`. */
  ghost predicate IsDictionaryOf(rules: seq<String>, d: map<String, seq<String>>) {
    && (forall k :: k in d <==> exists j | 0 <= j < |rules| :: HasHead(rules[j], k))
    && (forall k | k in d :: d[k] == ProductionsOf(rules, k))
  }

  ghost predicate WellFormed(g: Grammar) {
    IsDictionaryOf(g.rules, g.dict)
  }

  /** Reference construction of the dictionary, one rule at a time. */
  function DictionaryOf(rules: seq<String>): map<String, seq<String>>
  {
    if rules == [] then map[]
    else
      var d := DictionaryOf(rules[..|rules| - 1]);
      var last := rules[|rules| - 1];
      if IsProduction(last) then
        var head := RuleHead(last);
        d[head := (if head in d then d[head] else []) + [last]]
      else d
  }

  /** The one-rule-at-a-time construction lists, under each head, exactly that head's
      productions in rule order, and has no other keys. */
  lemma DictionaryOfIsDictionary(rules: seq<String>)
    ensures IsDictionaryOf(rules, DictionaryOf(rules))
  {
    DictionaryKeys(rules);
    DictionaryValues(rules);
  }

  lemma DictionaryKeys(rules: seq<String>)
    ensures forall k :: k in DictionaryOf(rules) <==> exists j | 0 <= j < |rules| :: HasHead(rules[j], k)
  {
    forall k ensures k in DictionaryOf(rules) <==> exists j | 0 <= j < |rules| :: HasHead(rules[j], k) {
      DictionaryKey(rules, k);
    }
  }

  lemma {:induction false} DictionaryKey(rules: seq<String>, k: String)
    ensures k in DictionaryOf(rules) <==> exists j | 0 <= j < |rules| :: HasHead(rules[j], k)
    decreases |rules|
  {
    if rules != [] {
      var n := |rules| - 1;
      var prefix := rules[..n];
      DictionaryKey(prefix, k);
      assert rules[..|rules| - 1] == prefix;
      assert k in DictionaryOf(rules) <==> k in DictionaryOf(prefix) || HasHead(rules[n], k);
      if k in DictionaryOf(prefix) {
        var j :| 0 <= j < n && HasHead(prefix[j], k);
        assert prefix[j] == rules[j];
      }
      if exists j | 0 <= j < |rules| :: HasHead(rules[j], k) {
        var j :| 0 <= j < |rules| && HasHead(rules[j], k);
        if j < n {
          assert prefix[j] == rules[j];
        }
      }
    }
  }

  lemma {:induction false} DictionaryValues(rules: seq<String>)
    ensures forall k | k in DictionaryOf(rules) :: DictionaryOf(rules)[k] == ProductionsOf(rules, k)
    decreases |rules|
  {
    if rules != [] {
      var n := |rules| - 1;
      var prefix := rules[..n];
      DictionaryValues(prefix);
      DictionaryKeys(prefix);
      var d := DictionaryOf(prefix);
      var d' := DictionaryOf(rules);
      forall k | k in d' ensures d'[k] == ProductionsOf(rules, k) {
        if k !in d {
          forall j | 0 <= j < n ensures !HasHead(prefix[j], k) {}
          NoProductionsOf(prefix, k);
        }
      }
    }
  }

  /** `_build_dictionary`: group the productions (rules with exactly one `" -> "`) by head. */
  method BuildDictionary(rules: seq<String>) returns (d: map<String, seq<String>>)
    ensures IsDictionaryOf(rules, d)
  {
    d := map[];
    var i := 0;
    while i < |rules|
      invariant 0 <= i <= |rules|
      invariant d == DictionaryOf(rules[..i])
    {
      var rule := rules[i];
      assert rules[..i + 1][..i] == rules[..i];
      if IsProduction(rule) {
        var head := RuleHead(rule);
        d := d[head := (if head in d then d[head] else []) + [rule]];
      }
      i := i + 1;
    }
    assert rules[..i] == rules;
    DictionaryOfIsDictionary(rules);
  }

  lemma {:induction false} NoProductionsOf(rules: seq<String>, k: String)
    requires forall j | 0 <= j < |rules| :: !HasHead(rules[j], k)
    ensures ProductionsOf(rules, k) == []
    decreases |rules|
  {
    if rules != [] {
      NoProductionsOf(rules[..|rules| - 1], k);
    }
  }

  /** `Grammar(gic_content)`: read, augment and index the rules. */
  method ParseGrammar(content: String) returns (g: Grammar)
    ensures WellFormed(g)
    ensures (g.rules, g.start) == ExtendRules(ObtainRules(content))
    ensures g.start.None? <==> AllSpace(content)
    ensures g.rules == [] <==> ObtainRules(content) == []
    ensures g.rules != [] ==> g.start.Some? && g.rules == [AugmentedRule(g.start.value)] + ObtainRules(content)
  {
    var lines := ObtainRules(content);
    var extended := ExtendRules(lines);
    var d := BuildDictionary(extended.0);
    g := Grammar(extended.0, d, extended.1);
  }

  // ---------------------------------------------------------------- queries

  /** `get_producciones`: the rules listed under `sym`, or `[]`. */
  function Productions(g: Grammar, sym: String): (r: seq<String>)
    ensures WellFormed(g) ==> r == ProductionsOf(g.rules, sym)
  {
    if sym in g.dict then g.dict[sym]
    else
      assert WellFormed(g) ==> ProductionsOf(g.rules, sym) == [] by {
        if WellFormed(g) {
          NoProductionsOf(g.rules, sym);
        }
      }
      []
  }

  /** `is_terminal`: anything that is not a dictionary key, so unknown symbols are terminals. */
  predicate IsTerminal(g: Grammar, x: String) {
    x !in g.dict
  }

  /** In a well-formed grammar, `x` is a terminal exactly when no production has head `x`. */
  lemma TerminalIffNoHead(g: Grammar, x: String)
    requires WellFormed(g)
    ensures IsTerminal(g, x) <==> forall j | 0 <= j < |g.rules| :: !HasHead(g.rules[j], x)
  {
  }

  /** The augmented head is a nonterminal of every grammar read from non-blank text, that is
      of every grammar `ParseGrammar` returns for such text. */
  lemma AugmentedHeadIsNonterminal(g: Grammar, content: String)
    requires WellFormed(g) && (g.rules, g.start) == ExtendRules(ObtainRules(content))
    requires !AllSpace(content)
    ensures !IsTerminal(g, AugmentedHead)
  {
    var r := g.rules[0];
    var x := g.start.value;
    assert r == AugmentedHead + Arrow + x;
    AugmentedSplit(x);
    assert HasHead(g.rules[0], AugmentedHead);
  }

  lemma AugmentedSplit(x: String)
    requires !Contains(x, Arrow)
    ensures SplitOn(AugmentedRule(x), Arrow) == [AugmentedHead, x]
  {
    var s := AugmentedRule(x);
    assert OccursAt(s, Arrow, 2) by { assert s[2..6] == Arrow; }
    assert !OccursAt(s, Arrow, 0) by { assert s[0] == 'S'; }
    assert !OccursAt(s, Arrow, 1) by { assert s[1] == '\''; }
    assert FindFrom(s, Arrow, 0) == Some(2);
    assert s[..2] == AugmentedHead;
    assert s[6..] == x;
    forall j | 0 <= j <= |x| - |Arrow| ensures !OccursAt(x, Arrow, j) {
    }
    assert FindFrom(x, Arrow, 0).None?;
  }

  /** `t` is a terminal written in the body of the production `rule`, other than the empty
      markers. */
  predicate TerminalInRule(g: Grammar, rule: String, t: String) {
    IsProduction(rule) && t in RuleBody(rule) && IsTerminal(g, t) && t != Epsilon && t != EpsilonWord
  }

  /** Symbols that can be terminals: body symbols of productions, minus the empty markers. */
  function TerminalsOf(g: Grammar, rules: seq<String>): (r: set<String>)
    ensures forall t :: t in r <==> exists j | 0 <= j < |rules| :: TerminalInRule(g, rules[j], t)
  {
    if rules == [] then {}
    else
      var here := set t | t in RuleBody(rules[0]) && TerminalInRule(g, rules[0], t);
      var rest := TerminalsOf(g, rules[1..]);
      assert forall t :: t in here + rest <==> exists j | 0 <= j < |rules| :: TerminalInRule(g, rules[j], t) by {
        forall t ensures t in here + rest <==> exists j | 0 <= j < |rules| :: TerminalInRule(g, rules[j], t) {
          if t in rest {
            var j :| 0 <= j < |rules[1..]| && TerminalInRule(g, rules[1..][j], t);
            assert TerminalInRule(g, rules[j + 1], t);
          }
          if j :| 0 <= j < |rules| && TerminalInRule(g, rules[j], t) {
            if j > 0 {
              assert rules[1..][j - 1] == rules[j];
            }
          }
        }
      }
      here + rest
  }

  /** `get_simbolos_terminales`. */
  function Terminals(g: Grammar): set<String> {
    TerminalsOf(g, g.rules)
  }
}
