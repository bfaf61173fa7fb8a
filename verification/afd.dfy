/** The canonical collection of LR(1) item sets (`AFD` in backend/src/comp/afd.py).

    A state is the item list its closure produced; two states are the same state when their
    sets of items are equal (`AFDState.id`). The state cache `_state_cache` is a class-level
    dict in the source, cleared when each automaton is built; here it is a map local to one
    construction. The FIRST state keeps being threaded from the item graph into the closures. */
module Afd {
  import opened Wrappers
  import opened Strings
  import opened Grammar
  import opened FirstSets
  import opened Items
  import Afn

  /** `AFDState.id`: the set of items of a state. */
  function Id(items: seq<Item>): set<Item> {
    set x | x in items
  }

  /** `first - {'ε'}`, keeping the order of the rest. */
  function WithoutEpsilon(xs: seq<String>): (r: seq<String>)
    ensures forall x :: x in r <==> x in xs && x != Epsilon
  {
    if xs == [] then []
    else (if xs[0] == Epsilon then [] else [xs[0]]) + WithoutEpsilon(xs[1..])
  }

  // ---------------------------------------------------------------- _closure

  /** `x` is one of the items `_closure` derives from `it` against `st`: `(p, 0, b)` with `p` a
      production of the nonterminal after the dot and `b` a non-empty-marker member of
      FIRST(β a). */
  ghost predicate Derives(g: Grammar, st: FirstState, it: Item, x: Item) {
    && ExpandedSymbol(g, it).Some?
    && Settled(g, st, it)
    && x.dot == 0
    && x.rule in Productions(g, ExpandedSymbol(g, it).value)
    && x.la in CalculateFirst(g, st, LookaheadContext(it)).first
    && x.la != Epsilon
  }

  /** Everything `_closure` derives from `it` is in `res`. */
  ghost predicate ClosedAt(g: Grammar, st: FirstState, res: seq<Item>, it: Item) {
    ExpandedSymbol(g, it).Some? ==>
      && Settled(g, st, it)
      && forall p, b | p in Productions(g, ExpandedSymbol(g, it).value)
                    && b in CalculateFirst(g, st, LookaheadContext(it)).first && b != Epsilon :: Item(p, 0, b) in res
  }

  /** The first `k` items of `res` have everything they derive in `res`. */
  ghost predicate ClosedUpTo(g: Grammar, st: FirstState, res: seq<Item>, k: nat) {
    forall i | 0 <= i < k && i < |res| :: ClosedAt(g, st, res, res[i])
  }

  /** `res` is closed: every member has everything it derives in `res`. */
  ghost predicate Closed(g: Grammar, st: FirstState, res: seq<Item>) {
    ClosedUpTo(g, st, res, |res|)
  }

  /** Item `j` of `res` is derived from an earlier item. */
  ghost predicate DerivedAt(g: Grammar, st: FirstState, res: seq<Item>, j: nat)
    requires j < |res|
  {
    exists i | 0 <= i < j :: Derives(g, st, res[i], res[j])
  }

  /** Every item of `res` from position `n` on is derived from an earlier item. */
  ghost predicate DerivedAfter(g: Grammar, st: FirstState, res: seq<Item>, n: nat) {
    forall j | n <= j < |res| :: DerivedAt(g, st, res, j)
  }

  lemma DerivesGrows(g: Grammar, st: FirstState, st2: FirstState, it: Item, x: Item)
    requires st.computing == {} && CacheGrows(st.cache, st2.cache)
    requires Derives(g, st, it, x)
    ensures Derives(g, st2, it, x)
  {
    FirstReplay(g, st, st2, LookaheadContext(it));
  }

  lemma ClosedAtGrows(g: Grammar, st: FirstState, st2: FirstState, res: seq<Item>, res2: seq<Item>, it: Item)
    requires st.computing == {} && CacheGrows(st.cache, st2.cache) && res <= res2
    requires ClosedAt(g, st, res, it)
    ensures ClosedAt(g, st2, res2, it)
  {
    if ExpandedSymbol(g, it).Some? {
      FirstReplay(g, st, st2, LookaheadContext(it));
      forall p, b | p in Productions(g, ExpandedSymbol(g, it).value)
                 && b in CalculateFirst(g, st2, LookaheadContext(it)).first && b != Epsilon
        ensures Item(p, 0, b) in res2
      {
        assert Item(p, 0, b) in res;
      }
    }
  }

  /** Closedness of a prefix survives a growing cache and list. */
  lemma ClosedUpToGrows(g: Grammar, st: FirstState, st2: FirstState, res: seq<Item>, res2: seq<Item>, k: nat)
    requires st.computing == {} && CacheGrows(st.cache, st2.cache) && res <= res2 && k <= |res|
    requires ClosedUpTo(g, st, res, k)
    ensures ClosedUpTo(g, st2, res2, k)
  {
    forall i | 0 <= i < k ensures ClosedAt(g, st2, res2, res2[i]) {
      assert res2[i] == res[i];
      ClosedAtGrows(g, st, st2, res, res2, res[i]);
    }
  }

  /** Derivation of a suffix survives a growing cache. */
  lemma DerivedAfterGrows(g: Grammar, st: FirstState, st2: FirstState, res: seq<Item>, n: nat)
    requires st.computing == {} && CacheGrows(st.cache, st2.cache)
    requires DerivedAfter(g, st, res, n)
    ensures DerivedAfter(g, st2, res, n)
  {
    forall j | n <= j < |res| ensures DerivedAt(g, st2, res, j) {
      assert DerivedAt(g, st, res, j);
      var i :| 0 <= i < j && Derives(g, st, res[i], res[j]);
      DerivesGrows(g, st, st2, res[i], res[j]);
    }
  }

  /** Processing item `k` against `st`: the closure step of `_closure`'s loop body. Returns the
      extended list and the FIRST state after `calculate_first`. */
  function ClosureStep(g: Grammar, st: FirstState, res: seq<Item>, k: nat): (r: (seq<Item>, FirstState))
    requires k < |res|
    ensures res <= r.0
    ensures forall j | |res| <= j < |r.0| :: r.0[j] !in r.0[..j]
    ensures r.1.computing == st.computing && CacheGrows(st.cache, r.1.cache)
    ensures CacheSound(g, st) ==> CacheSound(g, r.1)
    ensures ExpandedSymbol(g, res[k]).None? ==> r == (res, st)
  {
    match ExpandedSymbol(g, res[k])
    case None => (res, st)
    case Some(b) =>
      var f := CalculateFirst(g, st, LookaheadContext(res[k]));
      var cands := Candidates(Productions(g, b), WithoutEpsilon(f.first));
      (AppendNew(res, cands), f.st)
  }

  /** After a step on an item expanding on `b`, everything the item derives is present. */
  lemma StepCloses(g: Grammar, st: FirstState, res: seq<Item>, it: Item, b: String)
    requires st.computing == {} && ExpandedSymbol(g, it) == Some(b)
    ensures ClosedAt(g, CalculateFirst(g, st, LookaheadContext(it)).st,
                     AppendNew(res, Candidates(Productions(g, b), WithoutEpsilon(CalculateFirst(g, st, LookaheadContext(it)).first))), it)
  {
    var ctx := LookaheadContext(it);
    var f := CalculateFirst(g, st, ctx);
    var prods := Productions(g, b);
    var las := WithoutEpsilon(f.first);
    var cands := Candidates(prods, las);
    var res2 := AppendNew(res, cands);
    FirstReplay(g, st, f.st, ctx);
    forall p, la | p in prods && la in f.first && la != Epsilon ensures Item(p, 0, la) in res2 {
      InCandidates(prods, las, p, la);
    }
  }

  lemma InCandidates(prods: seq<String>, las: seq<String>, p: String, la: String)
    requires p in prods && la in las
    ensures Item(p, 0, la) in Candidates(prods, las)
  {
    var i :| 0 <= i < |prods| && prods[i] == p;
    var j :| 0 <= j < |las| && las[j] == la;
    assert Item(prods[i], 0, las[j]) == Item(p, 0, la);
  }

  /** A candidate of a step on an item expanding on `b` is derived from it and lies in the
      universe. */
  lemma CandidateDerives(g: Grammar, seeds: set<Item>, st: FirstState, it: Item, b: String, x: Item)
    requires st.computing == {} && CacheSound(g, st)
    requires ExpandedSymbol(g, it) == Some(b) && it in Universe(g, seeds)
    requires x in Candidates(Productions(g, b), WithoutEpsilon(CalculateFirst(g, st, LookaheadContext(it)).first))
    ensures Derives(g, CalculateFirst(g, st, LookaheadContext(it)).st, it, x) && x in Universe(g, seeds)
  {
    var ctx := LookaheadContext(it);
    var f := CalculateFirst(g, st, ctx);
    var prods := Productions(g, b);
    var las := WithoutEpsilon(f.first);
    FirstReplay(g, st, f.st, ctx);
    var i, j :| 0 <= i < |prods| && 0 <= j < |las| && x == Item(prods[i], 0, las[j]);
    ExpansionInUniverse(g, seeds, st, it, b, prods[i], las[j]);
  }

  /** The items a step adds for an item expanding on `b` are derived from it and lie in the
      universe. */
  lemma StepDerives(g: Grammar, seeds: set<Item>, st: FirstState, res: seq<Item>, it: Item, b: String)
    requires st.computing == {} && CacheSound(g, st)
    requires ExpandedSymbol(g, it) == Some(b) && it in Universe(g, seeds)
    ensures var f := CalculateFirst(g, st, LookaheadContext(it));
      var res2 := AppendNew(res, Candidates(Productions(g, b), WithoutEpsilon(f.first)));
      forall j | |res| <= j < |res2| :: Derives(g, f.st, it, res2[j]) && res2[j] in Universe(g, seeds)
  {
    var f := CalculateFirst(g, st, LookaheadContext(it));
    var cands := Candidates(Productions(g, b), WithoutEpsilon(f.first));
    var res2 := AppendNew(res, cands);
    forall j | |res| <= j < |res2|
      ensures Derives(g, f.st, it, res2[j]) && res2[j] in Universe(g, seeds)
    {
      assert res2[j] !in res2[..j] && res <= res2[..j];
      CandidateDerives(g, seeds, st, it, b, res2[j]);
    }
  }

  /** Appending items derived from item `k` keeps every item past `n` derived. */
  lemma DerivedExtend(g: Grammar, st: FirstState, res: seq<Item>, res2: seq<Item>, k: nat, n: nat)
    requires res <= res2 && k < |res| && DerivedAfter(g, st, res, n)
    requires forall j | |res| <= j < |res2| :: Derives(g, st, res[k], res2[j])
    ensures DerivedAfter(g, st, res2, n)
  {
    forall j | n <= j < |res2| ensures DerivedAt(g, st, res2, j) {
      if j >= |res| {
        assert res2[k] == res[k];
        assert 0 <= k < j && Derives(g, st, res2[k], res2[j]);
      } else {
        assert DerivedAt(g, st, res, j);
        var i :| 0 <= i < j && Derives(g, st, res[i], res[j]);
        assert res2[i] == res[i] && res2[j] == res[j];
        assert 0 <= i < j && Derives(g, st, res2[i], res2[j]);
      }
    }
  }

  /** One closure step keeps the processed prefix closed (now including item `k`), derives every
      item it adds from item `k`, and stays inside the universe. */
  lemma ClosureStepFacts(g: Grammar, seeds: set<Item>, st: FirstState, res: seq<Item>, k: nat, n: nat,
                         res2: seq<Item>, st2: FirstState)
    requires st.computing == {} && CacheSound(g, st) && k < |res| && n <= |res|
    requires ClosedUpTo(g, st, res, k) && DerivedAfter(g, st, res, n)
    requires res[k] in Universe(g, seeds) || ExpandedSymbol(g, res[k]).None?
    requires (res2, st2) == ClosureStep(g, st, res, k)
    ensures ClosedUpTo(g, st2, res2, k + 1) && DerivedAfter(g, st2, res2, n)
    ensures forall j | |res| <= j < |res2| :: res2[j] in Universe(g, seeds)
  {
    var it := res[k];
    if ExpandedSymbol(g, it).None? {
      assert ClosedAt(g, st, res, it);
    } else {
      var b := ExpandedSymbol(g, it).value;
      var f := CalculateFirst(g, st, LookaheadContext(it));
      assert res2 == AppendNew(res, Candidates(Productions(g, b), WithoutEpsilon(f.first))) && st2 == f.st;
      StepCloses(g, st, res, it, b);
      StepDerives(g, seeds, st, res, it, b);
      ClosedUpToGrows(g, st, st2, res, res2, k);
      DerivedAfterGrows(g, st, st2, res, n);
      assert res2[k] == it;
      DerivedExtend(g, st2, res, res2, k, n);
    }
  }

  /** The loop invariant of `_closure` after `k` items of `res` are processed, starting from
      `items` and the FIRST state `st0`. */
  ghost predicate ClosureInv(g: Grammar, st0: FirstState, items: seq<Item>, u: set<Item>,
                             res: seq<Item>, st: FirstState, k: nat) {
    && k <= |res| && items <= res
    && CacheSound(g, st) && st.computing == {} && CacheGrows(st0.cache, st.cache)
    && (forall j | |items| <= j < |res| :: res[j] !in res[..j])
    && (forall j | |items| <= j < |res| :: res[j] in u)
    && ClosedUpTo(g, st, res, k) && DerivedAfter(g, st, res, |items|)
  }

  /** One turn of the loop of `_closure` keeps its invariant and either adds new items of the
      universe or leaves the list unchanged. */
  lemma ClosureTurn(g: Grammar, st0: FirstState, items: seq<Item>, res: seq<Item>, st: FirstState, k: nat,
                    res2: seq<Item>, st2: FirstState)
    requires ClosureInv(g, st0, items, Universe(g, Id(items)), res, st, k) && k < |res|
    requires (res2, st2) == ClosureStep(g, st, res, k)
    ensures ClosureInv(g, st0, items, Universe(g, Id(items)), res2, st2, k + 1)
    ensures Universe(g, Id(items)) - Id(res2) < Universe(g, Id(items)) - Id(res) || res2 == res
  {
    ghost var u := Universe(g, Id(items));
    if k < |items| && ExpandedSymbol(g, res[k]).Some? {
      assert res[k] == items[k];
      InUniverse(g, Id(items), res[k]);
    }
    ClosureStepFacts(g, Id(items), st, res, k, |items|, res2, st2);
    SuffixFresh(items, u, res, res2);
    ShrinksOrSame(u, res, res2);
  }

  /** The items past the input stay new and inside `u` when the list is extended by new items of
      `u`. */
  lemma SuffixFresh(items: seq<Item>, u: set<Item>, res: seq<Item>, res2: seq<Item>)
    requires items <= res <= res2
    requires forall j | |items| <= j < |res| :: res[j] !in res[..j]
    requires forall j | |items| <= j < |res| :: res[j] in u
    requires forall j | |res| <= j < |res2| :: res2[j] !in res2[..j]
    requires forall j | |res| <= j < |res2| :: res2[j] in u
    ensures forall j | |items| <= j < |res2| :: res2[j] !in res2[..j]
    ensures forall j | |items| <= j < |res2| :: res2[j] in u
  {
    forall j | |items| <= j < |res| ensures res2[j] !in res2[..j] && res2[j] in u {
      assert res2[..j] == res[..j] && res2[j] == res[j];
    }
  }

  /** Appending new items of `u` shrinks the part of `u` not yet in the list. */
  lemma ShrinksOrSame(u: set<Item>, res: seq<Item>, res2: seq<Item>)
    requires res <= res2
    requires forall j | |res| <= j < |res2| :: res2[j] !in res2[..j] && res2[j] in u
    ensures u - Id(res2) < u - Id(res) || res2 == res
  {
    if |res2| > |res| {
      assert res2[..|res|] == res;
      assert res2[|res|] in u - Id(res) && res2[|res|] !in u - Id(res2);
    } else {
      assert res2 == res;
    }
  }

  /** `_closure`: work through the list from the front (the queue `cola` is always the
      unprocessed suffix of the result), appending each derived item not yet present. The input
      items stay as a prefix; every added item is new, derived from an earlier one, and the
      result is closed against the FIRST state the closure leaves behind. */
  method Closure(g: Grammar, st: FirstState, items: seq<Item>) returns (res: seq<Item>, st': FirstState)
    requires CacheSound(g, st) && st.computing == {}
    ensures CacheSound(g, st') && st'.computing == {} && CacheGrows(st.cache, st'.cache)
    ensures items <= res
    ensures forall j | |items| <= j < |res| :: res[j] !in res[..j]
    ensures Closed(g, st', res)
    ensures DerivedAfter(g, st', res, |items|)
    ensures forall j | |items| <= j < |res| :: res[j] in Universe(g, Id(items))
  {
    res := items;
    st' := st;
    var k := 0;
    ghost var u := Universe(g, Id(items));
    while k < |res|
      invariant ClosureInv(g, st, items, u, res, st', k)
      decreases u - Id(res), |res| - k
    {
      var (res2, st2) := ClosureStep(g, st', res, k);
      ClosureTurn(g, st, items, res, st', k, res2, st2);
      res := res2;
      st' := st2;
      k := k + 1;
    }
  }

  // ---------------------------------------------------------------- _goto

  /** The advanced items of the members of `items` whose next symbol is `x`, in order. */
  function Kernel(items: seq<Item>, x: String): (r: seq<Item>)
    ensures forall y :: y in r <==> exists i | 0 <= i < |items| :: NextSymbol(items[i]) == Some(x) && y == AdvanceDot(items[i]).value
    decreases |items|
  {
    if items == [] then []
    else
      var rest := Kernel(items[1..], x);
      assert forall i | 0 <= i < |items[1..]| :: items[1..][i] == items[i + 1];
      if NextSymbol(items[0]) == Some(x) then [AdvanceDot(items[0]).value] + rest else rest
  }

  /** `_goto`: the closure of the kernel on `x`, or `[]` when no item has `x` after the dot. */
  method Goto(g: Grammar, st: FirstState, items: seq<Item>, x: String) returns (res: seq<Item>, st': FirstState)
    requires CacheSound(g, st) && st.computing == {}
    ensures CacheSound(g, st') && st'.computing == {} && CacheGrows(st.cache, st'.cache)
    ensures Kernel(items, x) == [] ==> res == [] && st' == st
    ensures Kernel(items, x) != [] ==>
      && Kernel(items, x) <= res
      && Closed(g, st', res)
      && DerivedAfter(g, st', res, |Kernel(items, x)|)
      && forall j | |Kernel(items, x)| <= j < |res| :: res[j] in Universe(g, Id(Kernel(items, x)))
  {
    var next := Kernel(items, x);
    if next != [] {
      res, st' := Closure(g, st, next);
    } else {
      res, st' := [], st;
    }
  }

  // ---------------------------------------------------------------- states

  /** `_make_state`: the number of the state cached under the same item set, or `next` for a new
      state, now cached. A state object is identified by its number in `estados`. */
  function MakeState(cache: map<set<Item>, nat>, items: seq<Item>, next: nat): (r: (nat, map<set<Item>, nat>))
    ensures Id(items) in cache ==> r == (cache[Id(items)], cache)
    ensures Id(items) !in cache ==> r.0 == next && r.1.Keys == cache.Keys + {Id(items)} && r.1[Id(items)] == next
    ensures forall k | k in cache :: k in r.1 && r.1[k] == cache[k]
  {
    var id := Id(items);
    if id in cache then (cache[id], cache) else (next, cache[id := next])
  }

  /** The symbols after the dot in `items`, each once, in order of first occurrence. */
  function NextSymbols(items: seq<Item>): (r: seq<String>)
    ensures forall x :: x in r <==> exists i | 0 <= i < |items| :: NextSymbol(items[i]) == Some(x)
    ensures NoDup(r)
  {
    NextSymbolsFrom([], items)
  }

  function NextSymbolsFrom(acc: seq<String>, items: seq<Item>): (r: seq<String>)
    requires NoDup(acc)
    ensures forall x :: x in r <==> x in acc || exists i | 0 <= i < |items| :: NextSymbol(items[i]) == Some(x)
    ensures NoDup(r)
    decreases |items|
  {
    if items == [] then acc
    else
      var acc2 := if NextSymbol(items[0]).Some? then Add(acc, NextSymbol(items[0]).value) else acc;
      var r := NextSymbolsFrom(acc2, items[1..]);
      assert forall x :: x in r <==> x in acc || exists i | 0 <= i < |items| :: NextSymbol(items[i]) == Some(x) by {
        forall x ensures x in r <==> x in acc || exists i | 0 <= i < |items| :: NextSymbol(items[i]) == Some(x) {
          if i :| 0 <= i < |items[1..]| && NextSymbol(items[1..][i]) == Some(x) {
            assert NextSymbol(items[i + 1]) == Some(x);
          }
          if i :| 0 < i < |items| && NextSymbol(items[i]) == Some(x) {
            assert NextSymbol(items[1..][i - 1]) == Some(x);
          }
        }
      }
      r
  }

  /** A symbol after the dot gives a non-empty kernel. */
  lemma KernelNonEmpty(items: seq<Item>, x: String)
    requires x in NextSymbols(items)
    ensures Kernel(items, x) != []
  {
    var i :| 0 <= i < |items| && NextSymbol(items[i]) == Some(x);
    assert AdvanceDot(items[i]).value in Kernel(items, x);
  }

  /** All subsets of `u`: a finite bound on the item sets a construction can produce. */
  ghost function PowerSet(u: set<Item>): (r: set<set<Item>>)
    ensures forall s | s <= u :: s in r
    decreases u
  {
    if u == {} then
      var r: set<set<Item>> := {{}};
      assert forall s | s <= u :: s in r by {
        forall s | s <= u ensures s in r {
          assert s == {};
        }
      }
      r
    else
      var x :| x in u;
      var p := PowerSet(u - {x});
      var r := p + set s | s in p :: s + {x};
      assert forall s | s <= u :: s in r by {
        forall s | s <= u ensures s in r {
          if x in s {
            assert s - {x} in p;
            assert s == (s - {x}) + {x};
          } else {
            assert s <= u - {x};
          }
        }
      }
      r
  }

  /** The item sets of the numbered states. */
  function IdsOf(states: seq<seq<Item>>): set<set<Item>> {
    set i | 0 <= i < |states| :: Id(states[i])
  }

  /** The numbering invariant: the cache maps the item set of each numbered state to its number
      (so no two states have the same item set) and holds nothing else. */
  ghost predicate Numbered(states: seq<seq<Item>>, cache: map<set<Item>, nat>) {
    && cache.Keys == IdsOf(states)
    && (forall i | 0 <= i < |states| :: cache[Id(states[i])] == i)
  }

  lemma NumberedDistinct(states: seq<seq<Item>>, cache: map<set<Item>, nat>)
    requires Numbered(states, cache)
    ensures forall i, j | 0 <= i < j < |states| :: Id(states[i]) != Id(states[j])
  {
  }

  ghost predicate AllClosed(g: Grammar, st: FirstState, states: seq<seq<Item>>) {
    forall i | 0 <= i < |states| :: Closed(g, st, states[i])
  }

  ghost predicate Bounded(states: seq<seq<Item>>, u: set<Item>) {
    forall i | 0 <= i < |states| :: Id(states[i]) <= u
  }

  /** The transitions `m` of a state with items `items`: exactly one per symbol after the dot,
      each to a numbered state that contains the kernel. */
  ghost predicate TransitionsOf(states: seq<seq<Item>>, items: seq<Item>, m: map<String, nat>) {
    && (forall x :: x in m <==> x in NextSymbols(items))
    && (forall x | x in m :: m[x] < |states| && Id(Kernel(items, x)) <= Id(states[m[x]]))
  }

  lemma AllClosedGrows(g: Grammar, st: FirstState, st2: FirstState, states: seq<seq<Item>>)
    requires st.computing == {} && CacheGrows(st.cache, st2.cache)
    requires AllClosed(g, st, states)
    ensures AllClosed(g, st2, states)
  {
    forall i | 0 <= i < |states| ensures Closed(g, st2, states[i]) {
      ClosedUpToGrows(g, st, st2, states[i], states[i], |states[i]|);
    }
  }

  lemma IdsOfGrows(states: seq<seq<Item>>, states2: seq<seq<Item>>)
    requires states <= states2
    ensures IdsOf(states) <= IdsOf(states2)
  {
    forall s | s in IdsOf(states) ensures s in IdsOf(states2) {
      var i :| 0 <= i < |states| && Id(states[i]) == s;
      assert states2[i] == states[i];
    }
  }

  /** The goto item set of a state inside universe `u` lies inside `u`. */
  lemma GotoInUniverse(g: Grammar, seeds: set<Item>, items: seq<Item>, x: String, res: seq<Item>)
    requires Id(items) <= Universe(g, seeds)
    requires Kernel(items, x) <= res
    requires forall j | |Kernel(items, x)| <= j < |res| :: res[j] in Universe(g, Id(Kernel(items, x)))
    ensures Id(res) <= Universe(g, seeds)
  {
    var kernel := Kernel(items, x);
    forall y | y in kernel ensures y in Universe(g, seeds) {
      var i :| 0 <= i < |items| && NextSymbol(items[i]) == Some(x) && y == AdvanceDot(items[i]).value;
      AdvanceInUniverse(g, seeds, items[i]);
    }
    UniverseMono(g, Id(kernel), seeds);
    forall y | y in res ensures y in Universe(g, seeds) {
      var j :| 0 <= j < |res| && res[j] == y;
      if j < |kernel| {
        assert y == kernel[j];
      }
    }
  }

  lemma NumberedAppend(states: seq<seq<Item>>, cache: map<set<Item>, nat>, items: seq<Item>)
    requires Numbered(states, cache) && Id(items) !in cache
    ensures Numbered(states + [items], cache[Id(items) := |states|])
  {
    var s2 := states + [items];
    assert IdsOf(s2) == IdsOf(states) + {Id(items)} by {
      forall z | z in IdsOf(s2) ensures z in IdsOf(states) + {Id(items)} {
        var i :| 0 <= i < |s2| && Id(s2[i]) == z;
        if i < |states| {
          assert s2[i] == states[i];
        }
      }
      forall z | z in IdsOf(states) ensures z in IdsOf(s2) {
        var i :| 0 <= i < |states| && Id(states[i]) == z;
        assert s2[i] == states[i];
      }
      assert s2[|states|] == items;
    }
    forall i | 0 <= i < |states| ensures cache[Id(items) := |states|][Id(s2[i])] == i {
      assert s2[i] == states[i];
      assert Id(states[i]) in IdsOf(states);
    }
  }

  /** State `i` is the target of a transition of an earlier processed state. */
  ghost predicate Discovered(trans: seq<map<String, nat>>, i: nat) {
    exists j | 0 <= j < i && j < |trans| :: i in trans[j].Values
  }

  /** The goto state of `items` on `x`, numbered `|states|` if its item set is new; `target` is the
      number of the state the transition points to. */
  method GotoState(g: Grammar, ghost seeds: set<Item>, states: seq<seq<Item>>, cache: map<set<Item>, nat>,
                   st: FirstState, items: seq<Item>, x: String)
    returns (states': seq<seq<Item>>, cache': map<set<Item>, nat>, st': FirstState, target: nat)
    requires CacheSound(g, st) && st.computing == {}
    requires Numbered(states, cache) && Bounded(states, Universe(g, seeds)) && AllClosed(g, st, states)
    requires Id(items) <= Universe(g, seeds) && x in NextSymbols(items)
    ensures CacheSound(g, st') && st'.computing == {} && CacheGrows(st.cache, st'.cache)
    ensures Numbered(states', cache') && Bounded(states', Universe(g, seeds)) && AllClosed(g, st', states')
    ensures target < |states'| && Id(Kernel(items, x)) <= Id(states'[target])
    ensures states' == states || (|states'| == |states| + 1 && states <= states' && target == |states|)
  {
    KernelNonEmpty(items, x);
    var gi, st2 := Goto(g, st, items, x);
    AllClosedGrows(g, st, st2, states);
    GotoInUniverse(g, seeds, items, x, gi);
    var (made, cache2) := MakeState(cache, gi, |states|);
    target := made;
    if Id(gi) !in cache {
      AppendState(g, st2, states, cache, gi, Universe(g, seeds));
      states' := states + [gi];
    } else {
      CachedState(states, cache, gi);
      states' := states;
    }
    cache' := cache2;
    st' := st2;
  }

  /** Numbering a new item set as the next state keeps the invariants of the states. */
  lemma AppendState(g: Grammar, st: FirstState, states: seq<seq<Item>>, cache: map<set<Item>, nat>, gi: seq<Item>,
                    u: set<Item>)
    requires Numbered(states, cache) && Bounded(states, u) && AllClosed(g, st, states)
    requires Id(gi) !in cache && Id(gi) <= u && Closed(g, st, gi)
    ensures Numbered(states + [gi], cache[Id(gi) := |states|])
    ensures Bounded(states + [gi], u) && AllClosed(g, st, states + [gi])
    ensures (states + [gi])[|states|] == gi
  {
    NumberedAppend(states, cache, gi);
    assert forall i | 0 <= i < |states| :: (states + [gi])[i] == states[i];
  }

  /** An item set already in the cache is the item set of the state it is numbered with. */
  lemma CachedState(states: seq<seq<Item>>, cache: map<set<Item>, nat>, gi: seq<Item>)
    requires Numbered(states, cache) && Id(gi) in cache
    ensures cache[Id(gi)] < |states| && Id(states[cache[Id(gi)]]) == Id(gi)
  {
    var i :| 0 <= i < |states| && Id(states[i]) == Id(gi);
  }

  /** The transitions on the symbols `done` so far, each into a numbered state containing the kernel. */
  ghost predicate PartialTransitions(states: seq<seq<Item>>, items: seq<Item>, m: map<String, nat>, done: seq<String>) {
    && (forall x :: x in m <==> x in done)
    && (forall x | x in m :: m[x] < |states| && Id(Kernel(items, x)) <= Id(states[m[x]]))
  }

  /** Every state numbered from `n` on is the target of a transition in `m`. */
  ghost predicate NewOnesReached(n: nat, states: seq<seq<Item>>, m: map<String, nat>) {
    forall i | n <= i < |states| :: i in m.Values
  }

  lemma ExtendTransitions(n: nat, before: seq<seq<Item>>, after: seq<seq<Item>>, items: seq<Item>,
                          m: map<String, nat>, done: seq<String>, x: String, target: nat)
    requires PartialTransitions(before, items, m, done) && NewOnesReached(n, before, m)
    requires x !in done && n <= |before|
    requires target < |after| && Id(Kernel(items, x)) <= Id(after[target])
    requires after == before || (|after| == |before| + 1 && before <= after && target == |before|)
    ensures PartialTransitions(after, items, m[x := target], done + [x])
    ensures NewOnesReached(n, after, m[x := target])
  {
    var m2 := m[x := target];
    forall y | y in m2 ensures m2[y] < |after| && Id(Kernel(items, y)) <= Id(after[m2[y]]) {
      if y != x {
        assert after[m[y]] == before[m[y]];
      }
    }
    forall i | n <= i < |after| ensures i in m2.Values {
      if i < |before| {
        assert i in m.Values;
        var y :| y in m && m[y] == i;
        assert m2[y] == i;
      } else {
        assert m2[x] == i;
      }
    }
  }

  lemma PrefixStep(xs: seq<String>, j: nat)
    requires j < |xs|
    ensures xs[..j + 1] == xs[..j] + [xs[j]]
  {
  }

  lemma NotEarlier(xs: seq<String>, j: nat)
    requires j < |xs| && forall a, b | 0 <= a < b < |xs| :: xs[a] != xs[b]
    ensures xs[j] !in xs[..j]
  {
  }

  /** The state invariant of `_build_states`: a sound FIRST state, a numbering with its cache,
      every state inside the universe `u` and closed. */
  ghost predicate Good(g: Grammar, u: set<Item>, st: FirstState, states: seq<seq<Item>>, cache: map<set<Item>, nat>) {
    && CacheSound(g, st) && st.computing == {}
    && Numbered(states, cache) && Bounded(states, u) && AllClosed(g, st, states)
  }

  /** One symbol of the loop of `_build_states`: record the transition of `items` on `x`. */
  method ExpandOn(g: Grammar, ghost seeds: set<Item>, ghost n: nat, states: seq<seq<Item>>, cache: map<set<Item>, nat>,
                  st: FirstState, items: seq<Item>, m: map<String, nat>, ghost done: seq<String>, x: String)
    returns (states': seq<seq<Item>>, cache': map<set<Item>, nat>, st': FirstState, m': map<String, nat>)
    requires Good(g, Universe(g, seeds), st, states, cache)
    requires Id(items) <= Universe(g, seeds) && x in NextSymbols(items) && x !in done && n <= |states|
    requires PartialTransitions(states, items, m, done) && NewOnesReached(n, states, m)
    ensures Good(g, Universe(g, seeds), st', states', cache') && CacheGrows(st.cache, st'.cache)
    ensures states <= states'
    ensures PartialTransitions(states', items, m', done + [x]) && NewOnesReached(n, states', m')
  {
    var target;
    states', cache', st', target := GotoState(g, seeds, states, cache, st, items, x);
    ExtendTransitions(n, states, states', items, m, done, x, target);
    m' := m[x := target];
  }

  /** One round of `_build_states`: the transitions of state `k` on each symbol after its dot,
      numbering every goto state whose item set was not seen before. */
  method ExpandState(g: Grammar, ghost seeds: set<Item>, states: seq<seq<Item>>, cache: map<set<Item>, nat>,
                     st: FirstState, k: nat)
    returns (states': seq<seq<Item>>, cache': map<set<Item>, nat>, st': FirstState, m: map<String, nat>)
    requires Good(g, Universe(g, seeds), st, states, cache) && k < |states|
    ensures Good(g, Universe(g, seeds), st', states', cache') && CacheGrows(st.cache, st'.cache)
    ensures states <= states'
    ensures TransitionsOf(states', states[k], m)
    ensures NewOnesReached(|states|, states', m)
  {
    var items := states[k];
    var syms := NextSymbols(items);
    states', cache', st', m := states, cache, st, map[];
    var j := 0;
    while j < |syms|
      invariant j <= |syms|
      invariant Good(g, Universe(g, seeds), st', states', cache') && CacheGrows(st.cache, st'.cache)
      invariant states <= states' && states'[k] == items
      invariant PartialTransitions(states', items, m, syms[..j]) && NewOnesReached(|states|, states', m)
    {
      NotEarlier(syms, j);
      states', cache', st', m := ExpandOn(g, seeds, |states|, states', cache', st', items, m, syms[..j], syms[j]);
      PrefixStep(syms, j);
      j := j + 1;
    }
    assert syms[..j] == syms;
  }

  /** The transitions of the states processed so far are recorded. */
  ghost predicate AllTransitions(states: seq<seq<Item>>, trans: seq<map<String, nat>>) {
    forall i | 0 <= i < |trans| && i < |states| :: TransitionsOf(states, states[i], trans[i])
  }

  /** Every state after the first was reached by a transition of an earlier processed state. */
  ghost predicate AllDiscovered(n: nat, trans: seq<map<String, nat>>) {
    forall i | 0 < i < n :: Discovered(trans, i)
  }

  lemma TransitionsOfGrows(states: seq<seq<Item>>, states2: seq<seq<Item>>, items: seq<Item>, m: map<String, nat>)
    requires states <= states2 && TransitionsOf(states, items, m)
    ensures TransitionsOf(states2, items, m)
  {
    forall x | x in m ensures Id(Kernel(items, x)) <= Id(states2[m[x]]) {
      assert states2[m[x]] == states[m[x]];
    }
  }

  lemma AllTransitionsStep(states: seq<seq<Item>>, trans: seq<map<String, nat>>, states2: seq<seq<Item>>, m: map<String, nat>)
    requires AllTransitions(states, trans) && |trans| < |states| && states <= states2
    requires TransitionsOf(states2, states[|trans|], m)
    ensures AllTransitions(states2, trans + [m])
  {
    var k := |trans|;
    var t2 := trans + [m];
    forall i | 0 <= i < |t2| && i < |states2| ensures TransitionsOf(states2, states2[i], t2[i]) {
      if i < k {
        assert TransitionsOf(states, states[i], trans[i]);
        TransitionsOfGrows(states, states2, states[i], trans[i]);
        assert states2[i] == states[i] && t2[i] == trans[i];
      } else {
        assert states2[k] == states[k] && t2[k] == m;
      }
    }
  }

  lemma AllDiscoveredStep(n: nat, trans: seq<map<String, nat>>, n2: nat, m: map<String, nat>)
    requires AllDiscovered(n, trans) && |trans| < n <= n2
    requires forall i | n <= i < n2 :: i in m.Values
    ensures AllDiscovered(n2, trans + [m])
  {
    var k := |trans|;
    var t2 := trans + [m];
    forall i | 0 < i < n2 ensures Discovered(t2, i) {
      if i < n {
        assert Discovered(trans, i);
        var j :| 0 <= j < i && j < |trans| && i in trans[j].Values;
        assert t2[j] == trans[j];
      } else {
        assert i in m.Values;
        assert t2[k] == m;
      }
    }
  }

  datatype Afd = Afd(states: seq<seq<Item>>, transitions: seq<map<String, nat>>)

  /** A numbering that grew has more item sets: the measure of the state loop. */
  lemma NumberedGrowth(states: seq<seq<Item>>, states2: seq<seq<Item>>, cache: map<set<Item>, nat>)
    requires states <= states2 && Numbered(states2, cache)
    ensures IdsOf(states) <= IdsOf(states2)
    ensures IdsOf(states2) == IdsOf(states) ==> states2 == states
  {
    IdsOfGrows(states, states2);
    if |states2| > |states| {
      var z := Id(states2[|states|]);
      assert cache[z] == |states|;
      forall i | 0 <= i < |states| ensures Id(states[i]) != z {
        assert states2[i] == states[i];
        assert cache[Id(states2[i])] == i;
      }
      assert z in IdsOf(states2) && z !in IdsOf(states);
    }
  }

  lemma IdsInPowerSet(states: seq<seq<Item>>, u: set<Item>)
    requires Bounded(states, u)
    ensures IdsOf(states) <= PowerSet(u)
  {
  }

  lemma SmallerRest(p: set<set<Item>>, a: set<set<Item>>, b: set<set<Item>>)
    requires a <= b && b <= p && a != b
    ensures p - b < p - a
  {
    var z :| z in b && z !in a;
    assert z in p - a && z !in p - b;
  }

  /** State 0 of `_build_afd`: the closure of the initial item, cached and numbered. */
  method InitialState(g: Grammar, st: FirstState, init: Item)
    returns (items0: seq<Item>, cache: map<set<Item>, nat>, st': FirstState)
    requires CacheSound(g, st) && st.computing == {}
    requires init.dot <= |Body(init)|
    ensures Good(g, Universe(g, {init}), st', [items0], cache) && CacheGrows(st.cache, st'.cache)
    ensures items0 != [] && items0[0] == init
  {
    ghost var u := Universe(g, {init});
    SeedsInUniverse(g, {init});
    items0, st' := Closure(g, st, [init]);
    assert Id([init]) == {init};
    var (_, c) := MakeState(map[], items0, 0);
    cache := c;
    assert Id(items0) <= u by {
      forall y | y in items0 ensures y in u {
        var j :| 0 <= j < |items0| && items0[j] == y;
        if j == 0 { assert y == init; }
      }
    }
    assert Numbered([], map[]) by {
      assert IdsOf([]) == {};
    }
    AppendState(g, st', [], map[], items0, u);
    assert [] + [items0] == [items0];
  }

  /** `_build_afd` and `_build_states`: number the closure of the initial item as state 0, then
      process states first-in first-out, numbering each goto state with a new item set. */
  method BuildAfd(g: Grammar, st: FirstState, a: Afn.Afn) returns (d: Afd, st': FirstState)
    requires CacheSound(g, st) && st.computing == {}
    requires a.initial.Some? ==> a.initial.value.dot <= |Body(a.initial.value)|
    ensures CacheSound(g, st') && st'.computing == {} && CacheGrows(st.cache, st'.cache)
    ensures a.initial.None? ==> d == Afd([], []) && st' == st
    ensures a.initial.Some? ==>
      && |d.states| > 0 && |d.transitions| == |d.states|
      && d.states[0] != [] && d.states[0][0] == a.initial.value
      && (forall i, j | 0 <= i < j < |d.states| :: Id(d.states[i]) != Id(d.states[j]))
      && Bounded(d.states, Universe(g, {a.initial.value}))
      && AllClosed(g, st', d.states)
      && (forall i | 0 <= i < |d.states| :: TransitionsOf(d.states, d.states[i], d.transitions[i]))
      && (forall i | 0 < i < |d.states| :: Discovered(d.transitions, i))
  {
    if a.initial.None? {
      return Afd([], []), st;
    }
    var init := a.initial.value;
    ghost var u := Universe(g, {init});
    var items0, cache, st1 := InitialState(g, st, init);
    var states := [items0];
    var trans: seq<map<String, nat>> := [];
    st' := st1;
    var k := 0;
    while k < |states|
      invariant k <= |states| && |trans| == k
      invariant |states| > 0 && states[0] == items0
      invariant Good(g, u, st', states, cache) && CacheGrows(st.cache, st'.cache)
      invariant AllTransitions(states, trans) && AllDiscovered(|states|, trans)
      decreases PowerSet(u) - IdsOf(states), |states| - k
    {
      var states2, cache2, st2, m := ExpandState(g, {init}, states, cache, st', k);
      StatesTurn(g, u, st2, states, trans, states2, cache2, m);
      states, cache, st' := states2, cache2, st2;
      trans := trans + [m];
      k := k + 1;
    }
    NumberedDistinct(states, cache);
    d := Afd(states, trans);
  }

  /** Expanding the next unprocessed state keeps the transitions and discovery invariants of
      `_build_states` and either numbers new item sets or leaves the states unchanged. */
  lemma StatesTurn(g: Grammar, u: set<Item>, st: FirstState, states: seq<seq<Item>>, trans: seq<map<String, nat>>,
                   states2: seq<seq<Item>>, cache2: map<set<Item>, nat>, m: map<String, nat>)
    requires AllTransitions(states, trans) && AllDiscovered(|states|, trans) && |trans| < |states|
    requires Good(g, u, st, states2, cache2) && states <= states2
    requires TransitionsOf(states2, states[|trans|], m) && NewOnesReached(|states|, states2, m)
    ensures AllTransitions(states2, trans + [m]) && AllDiscovered(|states2|, trans + [m])
    ensures PowerSet(u) - IdsOf(states2) < PowerSet(u) - IdsOf(states) || states2 == states
  {
    AllTransitionsStep(states, trans, states2, m);
    AllDiscoveredStep(|states|, trans, |states2|, m);
    NumberedGrowth(states, states2, cache2);
    IdsInPowerSet(states2, u);
    if IdsOf(states2) != IdsOf(states) {
      SmallerRest(PowerSet(u), IdsOf(states), IdsOf(states2));
    }
  }

  /** `get_state_number`: the number of the first state whose item set is `id`, or -1. */
  function StateNumber(d: Afd, id: set<Item>): (r: int)
    ensures -1 <= r < |d.states|
    ensures r == -1 <==> forall i | 0 <= i < |d.states| :: Id(d.states[i]) != id
    ensures r >= 0 ==> Id(d.states[r]) == id && forall i | 0 <= i < r :: Id(d.states[i]) != id
  {
    StateNumberFrom(d.states, id, 0)
  }

  function StateNumberFrom(states: seq<seq<Item>>, id: set<Item>, n: nat): (r: int)
    requires n <= |states|
    requires forall i | 0 <= i < n :: Id(states[i]) != id
    ensures -1 <= r < |states|
    ensures r == -1 <==> forall i | 0 <= i < |states| :: Id(states[i]) != id
    ensures r >= 0 ==> Id(states[r]) == id && forall i | 0 <= i < r :: Id(states[i]) != id
    decreases |states| - n
  {
    if n == |states| then -1
    else if Id(states[n]) == id then n
    else StateNumberFrom(states, id, n + 1)
  }

  /** With pairwise different item sets, looking up a state's item set gives back its number. */
  lemma StateNumberOfState(d: Afd, t: nat)
    requires t < |d.states|
    requires forall i, j | 0 <= i < j < |d.states| :: Id(d.states[i]) != Id(d.states[j])
    ensures StateNumber(d, Id(d.states[t])) == t
  {
  }

  /** `len(afd)`: the number of states. */
  function Size(d: Afd): nat {
    |d.states|
  }
}
