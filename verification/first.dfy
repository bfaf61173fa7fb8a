/** FIRST sets (`calculate_first` and `_first_of_nonterminal` in backend/src/comp/grammar.py).

    The source memoises FIRST of each nonterminal in `_first_cache` and guards recursion with
    the in-progress set `_computing_first`; a nonterminal reached again while it is being
    computed contributes nothing. Both live on the grammar object and persist across calls, so
    results depend on the order of calls: the model threads them as an explicit `FirstState`.
    Python sets are modelled as duplicate-free sequences in insertion order. */
module FirstSets {
  import opened Wrappers
  import opened Strings
  import opened Grammar

  /** `_first_cache` and `_computing_first`. */
  datatype FirstState = FirstState(cache: map<String, seq<String>>, computing: set<String>)

  /** A FIRST set together with the state after computing it. */
  datatype FirstOut = FirstOut(first: seq<String>, st: FirstState)

  /** The state of a freshly built grammar: nothing cached, nothing in progress. */
  const Fresh: FirstState := FirstState(map[], {})

  predicate NoDup(xs: seq<String>) {
    forall i, j | 0 <= i < j < |xs| :: xs[i] != xs[j]
  }

  /** `set.add` on an insertion-ordered set. */
  function Add(acc: seq<String>, x: String): (r: seq<String>)
    ensures acc <= r && x in r
    ensures forall y :: y in r <==> y in acc || y == x
    ensures NoDup(acc) ==> NoDup(r)
  {
    if x in acc then acc else acc + [x]
  }

  /** `acc.update(xs - {'ε'})`. */
  function AddAllButEpsilon(acc: seq<String>, xs: seq<String>): (r: seq<String>)
    ensures acc <= r
    ensures forall y :: y in r <==> y in acc || (y in xs && y != Epsilon)
    ensures NoDup(acc) ==> NoDup(r)
    decreases |xs|
  {
    if xs == [] then acc
    else AddAllButEpsilon(if xs[0] == Epsilon then acc else Add(acc, xs[0]), xs[1..])
  }

  /** Entries already cached are kept, with their values. */
  ghost predicate CacheGrows(c1: map<String, seq<String>>, c2: map<String, seq<String>>) {
    forall k | k in c1 :: k in c2 && c2[k] == c1[k]
  }

  /** Every rule listed in the dictionary. */
  ghost function AllProductions(g: Grammar): set<String> {
    set k, p | k in g.dict && p in g.dict[k] :: p
  }

  /** Every symbol occurring in the body of a listed rule. */
  ghost function Vocabulary(g: Grammar): set<String> {
    set p, x | p in AllProductions(g) && x in RuleBody(p) :: x
  }

  /** Every element is the empty marker or a terminal taken from the grammar's bodies or `extra`. */
  ghost predicate SoundFirst(g: Grammar, xs: seq<String>, extra: seq<String>) {
    forall x | x in xs :: x == Epsilon || (IsTerminal(g, x) && (x in Vocabulary(g) || x in extra))
  }

  /** Every cached FIRST set is duplicate-free and sound. */
  ghost predicate CacheSound(g: Grammar, st: FirstState) {
    forall k | k in st.cache :: NoDup(st.cache[k]) && SoundFirst(g, st.cache[k], [])
  }

  ghost predicate FromDictionary(g: Grammar, prods: seq<String>) {
    forall i | 0 <= i < |prods| :: prods[i] in AllProductions(g)
  }

  /** `x` is a nonterminal whose cached FIRST set contains the empty marker. */
  ghost predicate CachedNullable(g: Grammar, st: FirstState, x: String) {
    x in g.dict && x in st.cache && Epsilon in st.cache[x]
  }

  /** `_first_of_nonterminal`. */
  function FirstOfNonterminal(g: Grammar, st: FirstState, nt: String): (r: FirstOut)
    ensures r.st.computing == st.computing
    ensures CacheGrows(st.cache, r.st.cache)
    ensures nt in st.cache ==> r == FirstOut(st.cache[nt], st)
    ensures nt !in st.cache && nt in st.computing ==> r == FirstOut([], st)
    ensures nt !in st.computing ==> nt in r.st.cache && r.st.cache[nt] == r.first
    ensures CacheSound(g, st) ==> CacheSound(g, r.st) && NoDup(r.first) && SoundFirst(g, r.first, [])
    decreases |g.dict.Keys - st.computing|, 0, 0
  {
    if nt in st.cache then FirstOut(st.cache[nt], st)
    else if nt in st.computing then FirstOut([], st)
    else if nt !in g.dict then FirstOut([], FirstState(st.cache[nt := []], st.computing))
    else
      var inProgress := FirstState(st.cache, st.computing + {nt});
      assert |g.dict.Keys - inProgress.computing| < |g.dict.Keys - st.computing| by {
        assert nt in g.dict.Keys - st.computing;
        assert g.dict.Keys - inProgress.computing == (g.dict.Keys - st.computing) - {nt};
      }
      assert FromDictionary(g, g.dict[nt]) by {
        forall i | 0 <= i < |g.dict[nt]| ensures g.dict[nt][i] in AllProductions(g) {
          var p := g.dict[nt][i];
          assert nt in g.dict && p in g.dict[nt];
        }
      }
      var inner := FirstOfProductions(g, inProgress, g.dict[nt], []);
      FirstOut(inner.first, FirstState(inner.st.cache[nt := inner.first], inner.st.computing - {nt}))
  }

  /** The production loop of `_first_of_nonterminal`: empty bodies (`[]`, `['ε']`, `['epsilon']`)
      add the empty marker, other bodies add the FIRST of their symbol sequence. */
  function FirstOfProductions(g: Grammar, st: FirstState, prods: seq<String>, acc: seq<String>): (r: FirstOut)
    ensures r.st.computing == st.computing
    ensures CacheGrows(st.cache, r.st.cache)
    ensures acc <= r.first
    ensures CacheSound(g, st) && FromDictionary(g, prods) && NoDup(acc) ==>
      CacheSound(g, r.st) && NoDup(r.first) && SoundFirst(g, r.first[|acc|..], [])
    decreases |g.dict.Keys - st.computing|, 2, |prods|
  {
    if prods == [] then FirstOut(acc, st)
    else if !IsProduction(prods[0]) then
      FirstOfProductions(g, st, prods[1..], acc)
    else
      var body := RuleBody(prods[0]);
      if IsEmptyBody(body) then
        FirstOfProductions(g, st, prods[1..], Add(acc, Epsilon))
      else
        var r1 := FirstOfSequence(g, st, body, acc);
        FirstOfProductions(g, r1.st, prods[1..], r1.first)
  }

  /** The symbol loop shared by `calculate_first` and `_first_of_nonterminal`: a terminal adds
      itself and stops; a nonterminal adds its FIRST minus the empty marker and stops unless that
      FIRST contains the empty marker; running off the end adds the empty marker. */
  function FirstOfSequence(g: Grammar, st: FirstState, syms: seq<String>, acc: seq<String>): (r: FirstOut)
    ensures r.st.computing == st.computing
    ensures CacheGrows(st.cache, r.st.cache)
    ensures acc <= r.first
    ensures CacheSound(g, st) && NoDup(acc) ==>
      CacheSound(g, r.st) && NoDup(r.first) && SoundFirst(g, r.first[|acc|..], syms)
    ensures Epsilon in r.first && Epsilon !in acc && Epsilon !in syms ==>
      forall i | 0 <= i < |syms| :: CachedNullable(g, r.st, syms[i])
    ensures (forall i | 0 <= i < |syms| :: CachedNullable(g, st, syms[i])) ==> Epsilon in r.first
    decreases |g.dict.Keys - st.computing|, 1, |syms|
  {
    if syms == [] then FirstOut(Add(acc, Epsilon), st)
    else if IsTerminal(g, syms[0]) then FirstOut(Add(acc, syms[0]), st)
    else
      var r1 := FirstOfNonterminal(g, st, syms[0]);
      var acc1 := AddAllButEpsilon(acc, r1.first);
      if Epsilon !in r1.first then FirstOut(acc1, r1.st)
      else
        var r := FirstOfSequence(g, r1.st, syms[1..], acc1);
        assert CacheSound(g, st) && NoDup(acc) ==> SoundFirst(g, r.first[|acc|..], syms) by {
          if CacheSound(g, st) && NoDup(acc) {
            SpliceSound(g, acc, acc1, r1.first, r.first, syms);
          }
        }
        assert Epsilon in r.first && Epsilon !in acc && Epsilon !in syms ==>
                 forall i | 0 <= i < |syms| :: CachedNullable(g, r.st, syms[i]) by {
          if Epsilon in r.first && Epsilon !in acc && Epsilon !in syms {
            assert Epsilon !in acc1;
            assert CachedNullable(g, r1.st, syms[0]);
            forall i | 1 <= i < |syms| ensures CachedNullable(g, r.st, syms[i]) {
              assert syms[i] == syms[1..][i - 1];
            }
          }
        }
        r
  }

  /** The FIRST elements a sequence adds after `acc` come from its first symbol's FIRST (less
      the empty marker) or from what the rest of the sequence adds. */
  lemma SpliceSound(g: Grammar, acc: seq<String>, acc1: seq<String>, f1: seq<String>, first: seq<String>, syms: seq<String>)
    requires syms != []
    requires acc <= acc1 <= first && NoDup(first)
    requires forall y :: y in acc1 <==> y in acc || (y in f1 && y != Epsilon)
    requires SoundFirst(g, f1, []) && SoundFirst(g, first[|acc1|..], syms[1..])
    ensures SoundFirst(g, first[|acc|..], syms)
  {
    forall x | x in first[|acc|..] ensures x == Epsilon || (IsTerminal(g, x) && (x in Vocabulary(g) || x in syms)) {
      var k' :| 0 <= k' < |first| - |acc| && first[|acc|..][k'] == x;
      var k := |acc| + k';
      assert first[k] == x;
      if k < |acc1| {
        assert acc1[k] == x;
        assert x !in acc by {
          forall m | 0 <= m < |acc| ensures acc[m] != x {
            assert first[m] == acc[m];
          }
        }
      } else {
        assert first[|acc1|..][k - |acc1|] == x;
        if x in syms[1..] {
          var j :| 0 <= j < |syms[1..]| && syms[1..][j] == x;
          assert syms[j + 1] == x;
        }
      }
    }
  }

  /** `calculate_first`: FIRST of a symbol sequence. */
  function CalculateFirst(g: Grammar, st: FirstState, syms: seq<String>): (r: FirstOut)
    ensures r.st.computing == st.computing
    ensures CacheGrows(st.cache, r.st.cache)
    ensures syms == [] ==> r == FirstOut([Epsilon], st)
    ensures syms != [] && IsTerminal(g, syms[0]) ==> r == FirstOut([syms[0]], st)
    ensures CacheSound(g, st) ==> CacheSound(g, r.st) && NoDup(r.first) && SoundFirst(g, r.first, syms)
    ensures Epsilon in r.first && Epsilon !in syms ==> forall i | 0 <= i < |syms| :: CachedNullable(g, r.st, syms[i])
    ensures (forall i | 0 <= i < |syms| :: CachedNullable(g, st, syms[i])) ==> Epsilon in r.first
  {
    if syms == [] then FirstOut([Epsilon], st)
    else FirstOfSequence(g, st, syms, [])
  }

  /** An empty-marker body is an empty production. */
  predicate IsEmptyBody(body: seq<String>) {
    body == [] || body == [Epsilon] || body == [EpsilonWord]
  }

  /** One step of the production loop. */
  lemma ProductionsStep(g: Grammar, st: FirstState, prods: seq<String>, acc: seq<String>)
    requires prods != []
    ensures !IsProduction(prods[0]) ==>
      FirstOfProductions(g, st, prods, acc) == FirstOfProductions(g, st, prods[1..], acc)
    ensures IsProduction(prods[0]) && IsEmptyBody(RuleBody(prods[0])) ==>
      FirstOfProductions(g, st, prods, acc) == FirstOfProductions(g, st, prods[1..], Add(acc, Epsilon))
    ensures IsProduction(prods[0]) && !IsEmptyBody(RuleBody(prods[0])) ==>
      var r1 := FirstOfSequence(g, st, RuleBody(prods[0]), acc);
      FirstOfProductions(g, st, prods, acc) == FirstOfProductions(g, r1.st, prods[1..], r1.first)
  {
  }

  /** A production list with an empty production yields the empty marker. */
  lemma {:induction false} ProductionsWithEmptyBody(g: Grammar, st: FirstState, prods: seq<String>, acc: seq<String>, i: nat)
    requires i < |prods| && IsProduction(prods[i]) && IsEmptyBody(RuleBody(prods[i]))
    ensures Epsilon in FirstOfProductions(g, st, prods, acc).first
    decreases |prods|
  {
    ProductionsStep(g, st, prods, acc);
    if i == 0 {
      assert Add(acc, Epsilon) <= FirstOfProductions(g, st, prods[1..], Add(acc, Epsilon)).first;
    } else {
      assert prods[1..][i - 1] == prods[i];
      if !IsProduction(prods[0]) {
        ProductionsWithEmptyBody(g, st, prods[1..], acc, i - 1);
      } else if IsEmptyBody(RuleBody(prods[0])) {
        ProductionsWithEmptyBody(g, st, prods[1..], Add(acc, Epsilon), i - 1);
      } else {
        var r1 := FirstOfSequence(g, st, RuleBody(prods[0]), acc);
        ProductionsWithEmptyBody(g, r1.st, prods[1..], r1.first, i - 1);
      }
    }
  }

  /** A nullable nonterminal stays nullable as the cache grows. */
  lemma CachedNullableGrows(g: Grammar, st: FirstState, st2: FirstState, xs: seq<String>)
    requires CacheGrows(st.cache, st2.cache)
    requires forall j | 0 <= j < |xs| :: CachedNullable(g, st, xs[j])
    ensures forall j | 0 <= j < |xs| :: CachedNullable(g, st2, xs[j])
  {
  }

  /** A production list with a body of nullable nonterminals (nullable when the list is entered)
      yields the empty marker. */
  lemma {:induction false} ProductionsWithNullableBody(g: Grammar, st: FirstState, prods: seq<String>, acc: seq<String>, i: nat)
    requires i < |prods| && IsProduction(prods[i])
    requires forall j | 0 <= j < |RuleBody(prods[i])| :: CachedNullable(g, st, RuleBody(prods[i])[j])
    ensures Epsilon in FirstOfProductions(g, st, prods, acc).first
    decreases |prods|
  {
    var body := RuleBody(prods[i]);
    ProductionsStep(g, st, prods, acc);
    if i == 0 {
      if IsEmptyBody(body) {
        ProductionsWithEmptyBody(g, st, prods, acc, 0);
      } else {
        var r1 := FirstOfSequence(g, st, body, acc);
        assert Epsilon in r1.first && r1.first <= FirstOfProductions(g, r1.st, prods[1..], r1.first).first;
      }
    } else {
      assert prods[1..][i - 1] == prods[i];
      if !IsProduction(prods[0]) {
        ProductionsWithNullableBody(g, st, prods[1..], acc, i - 1);
      } else if IsEmptyBody(RuleBody(prods[0])) {
        ProductionsWithNullableBody(g, st, prods[1..], Add(acc, Epsilon), i - 1);
      } else {
        var r1 := FirstOfSequence(g, st, RuleBody(prods[0]), acc);
        CachedNullableGrows(g, st, r1.st, body);
        ProductionsWithNullableBody(g, r1.st, prods[1..], r1.first, i - 1);
      }
    }
  }

  /** FIRST of a nonterminal computed afresh contains the empty marker when one of its productions
      is empty or consists of nonterminals already known to be nullable. */
  lemma NonterminalNullable(g: Grammar, st: FirstState, nt: String, i: nat)
    requires nt !in st.cache && nt !in st.computing && nt in g.dict
    requires i < |g.dict[nt]| && IsProduction(g.dict[nt][i])
    requires IsEmptyBody(RuleBody(g.dict[nt][i])) ||
             forall j | 0 <= j < |RuleBody(g.dict[nt][i])| :: CachedNullable(g, st, RuleBody(g.dict[nt][i])[j])
    ensures Epsilon in FirstOfNonterminal(g, st, nt).first
  {
    var inProgress := FirstState(st.cache, st.computing + {nt});
    if IsEmptyBody(RuleBody(g.dict[nt][i])) {
      ProductionsWithEmptyBody(g, inProgress, g.dict[nt], [], i);
    } else {
      ProductionsWithNullableBody(g, inProgress, g.dict[nt], [], i);
    }
  }

  /** With nothing in progress, recomputing FIRST of a sequence against any cache that extends the
      one the first computation left behind gives the same set and leaves the cache unchanged. */
  lemma {:induction false} SequenceReplay(g: Grammar, st: FirstState, st2: FirstState, syms: seq<String>, acc: seq<String>)
    requires st.computing == {}
    requires CacheGrows(FirstOfSequence(g, st, syms, acc).st.cache, st2.cache)
    ensures FirstOfSequence(g, st2, syms, acc) == FirstOut(FirstOfSequence(g, st, syms, acc).first, st2)
    decreases |syms|
  {
    if syms != [] && !IsTerminal(g, syms[0]) {
      var r1 := FirstOfNonterminal(g, st, syms[0]);
      assert syms[0] in r1.st.cache && r1.st.cache[syms[0]] == r1.first;
      var acc1 := AddAllButEpsilon(acc, r1.first);
      if Epsilon in r1.first {
        SequenceReplay(g, r1.st, st2, syms[1..], acc1);
      }
    }
  }

  /** `calculate_first` against a consistently grown cache repeats its earlier answer. */
  lemma FirstReplay(g: Grammar, st: FirstState, st2: FirstState, syms: seq<String>)
    requires st.computing == {}
    requires CacheGrows(CalculateFirst(g, st, syms).st.cache, st2.cache)
    ensures CalculateFirst(g, st2, syms) == FirstOut(CalculateFirst(g, st, syms).first, st2)
  {
    if syms != [] {
      SequenceReplay(g, st, st2, syms, []);
    }
  }
}
