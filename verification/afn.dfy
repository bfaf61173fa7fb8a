/** The item graph (`AFN` in backend/src/comp/afn.py).

    Starting from `(rules[0], 0, '$')`, a depth-first search registers every item reachable by
    advancing the dot and by the ε-expansion of `next_transition_e`. The FIRST cache the
    expansions fill is threaded through the search in visiting order. The edge fields set on
    the item objects only feed the drawing and are left out; what the model keeps is the
    registry and the fact that it is closed under both kinds of edge. */
module Afn {
  import opened Wrappers
  import opened Strings
  import opened Grammar
  import opened FirstSets
  import opened Items

  /** `nodo_inicial` and the registry `estados`; `len(afn)` is `|registry|`. */
  datatype Afn = Afn(initial: Option<Item>, registry: set<Item>)

  /** The end marker used as the initial lookahead. */
  const EndMarker: String := "$"

  /** Both kinds of edge leaving `it` end in `reg`: the advanced item, and for an item expanding
      on `B` every `(p, 0, b)` with `p` a production of `B` and `b` in FIRST(β a). */
  ghost predicate EdgesIn(g: Grammar, st: FirstState, reg: set<Item>, it: Item) {
    && (!IsReducible(it) ==> AdvanceDot(it).value in reg)
    && (ExpandedSymbol(g, it).Some? ==>
          && Settled(g, st, it)
          && forall p, b | p in Productions(g, ExpandedSymbol(g, it).value)
                        && b in CalculateFirst(g, st, LookaheadContext(it)).first :: Item(p, 0, b) in reg)
  }

  /** Edges stay inside a growing registry as the FIRST cache grows. */
  lemma EdgesInGrows(g: Grammar, st: FirstState, st2: FirstState, reg: set<Item>, reg2: set<Item>, it: Item)
    requires st.computing == {} && CacheGrows(st.cache, st2.cache) && reg <= reg2
    requires EdgesIn(g, st, reg, it)
    ensures EdgesIn(g, st2, reg2, it)
  {
    if ExpandedSymbol(g, it).Some? {
      FirstReplay(g, st, st2, LookaheadContext(it));
    }
  }

  /** Lift `EdgesIn` for a whole set of items. */
  lemma AllEdgesInGrows(g: Grammar, st: FirstState, st2: FirstState, reg: set<Item>, reg2: set<Item>, vs: set<Item>)
    requires st.computing == {} && CacheGrows(st.cache, st2.cache) && reg <= reg2
    requires AllEdgesIn(g, st, reg, vs)
    ensures AllEdgesIn(g, st2, reg2, vs)
  {
    forall v | v in vs ensures EdgesIn(g, st2, reg2, v) {
      EdgesInGrows(g, st, st2, reg, reg2, v);
    }
  }

  /** Right after `next_transition_e`, the expanded item's edges are registered. */
  lemma ExpansionRegistered(g: Grammar, st: FirstState, it: Item, reg: set<Item>)
    requires st.computing == {}
    requires !IsReducible(it) ==> AdvanceDot(it).value in reg
    ensures EdgesIn(g, NextTransitionE(g, st, it, reg).st, NextTransitionE(g, st, it, reg).registry, it)
  {
    var e := NextTransitionE(g, st, it, reg);
    if ExpandedSymbol(g, it).Some? {
      var ctx := LookaheadContext(it);
      FirstReplay(g, st, e.st, ctx);
      var prods := Productions(g, ExpandedSymbol(g, it).value);
      var first := CalculateFirst(g, st, ctx).first;
      forall p, b | p in prods && b in first ensures Item(p, 0, b) in e.registry {
        var i :| 0 <= i < |prods| && prods[i] == p;
        var j :| 0 <= j < |first| && first[j] == b;
        assert Item(prods[i], 0, first[j]) in e.targets;
      }
    }
  }

  /** The ε-targets of an item of the universe lie in the universe. */
  lemma TargetsInUniverse(g: Grammar, seeds: set<Item>, st: FirstState, node: Item, reg: set<Item>)
    requires CacheSound(g, st) && node in Universe(g, seeds)
    ensures forall x | x in NextTransitionE(g, st, node, reg).targets :: x in Universe(g, seeds)
  {
    var e := NextTransitionE(g, st, node, reg);
    forall x | x in e.targets ensures x in Universe(g, seeds) {
      var b := ExpandedSymbol(g, node).value;
      var prods := Productions(g, b);
      var first := CalculateFirst(g, st, LookaheadContext(node)).first;
      var i, j :| 0 <= i < |prods| && 0 <= j < |first| && x == Item(prods[i], 0, first[j]);
      ExpansionInUniverse(g, seeds, st, node, b, prods[i], first[j]);
    }
  }

  /** Every item of `vs` has its edges in `reg`. */
  ghost predicate AllEdgesIn(g: Grammar, st: FirstState, reg: set<Item>, vs: set<Item>) {
    forall v | v in vs :: EdgesIn(g, st, reg, v)
  }

  /** The nested `dfs` of `_build_states`: visit `node` unless already visited, follow the
      dot-advance edge (only when it registered a new item), then every ε-edge. */
  method Dfs(g: Grammar, ghost seeds: set<Item>, node: Item, reg: set<Item>, visited: set<Item>, st: FirstState)
    returns (reg': set<Item>, visited': set<Item>, st': FirstState)
    requires CacheSound(g, st) && st.computing == {}
    requires node in reg && visited <= reg && reg <= Universe(g, seeds)
    ensures CacheSound(g, st') && st'.computing == {} && CacheGrows(st.cache, st'.cache)
    ensures reg <= reg' <= Universe(g, seeds)
    ensures visited + {node} <= visited' <= reg'
    ensures reg' - reg <= visited'
    ensures AllEdgesIn(g, st', reg', visited' - visited)
    decreases Universe(g, seeds) - visited, 0, 0
  {
    if node in visited {
      return reg, visited, st;
    }
    visited' := visited + {node};
    var (next, reg1) := NextTransition(node, reg);
    if !IsReducible(node) {
      AdvanceInUniverse(g, seeds, node);
    }
    reg' := reg1;
    st' := st;
    if next.Some? {
      reg', visited', st' := Dfs(g, seeds, next.value, reg', visited', st);
    }
    assert AllEdgesIn(g, st', reg', visited' - visited - {node});
    var e := NextTransitionE(g, st', node, reg');
    ExpansionRegistered(g, st', node, reg');
    AllEdgesInGrows(g, st', e.st, reg', e.registry, visited' - visited - {node});
    TargetsInUniverse(g, seeds, st', node, reg');
    assert AllEdgesIn(g, e.st, e.registry, visited' - visited);
    ghost var regMid := reg';
    reg', visited', st' := DfsAll(g, seeds, e.targets, e.registry, visited', e.st, visited);
    assert reg' - reg <= visited' by {
      assert reg' - reg <= (reg' - regMid) + (regMid - reg);
    }
  }

  /** The loop of `dfs` over the ε-targets, each searched in turn. */
  method DfsAll(g: Grammar, ghost seeds: set<Item>, targets: seq<Item>, reg: set<Item>, visited: set<Item>, st: FirstState,
                ghost outer: set<Item>)
    returns (reg': set<Item>, visited': set<Item>, st': FirstState)
    requires CacheSound(g, st) && st.computing == {}
    requires forall x | x in targets :: x in reg
    requires outer <= visited <= reg <= Universe(g, seeds)
    requires AllEdgesIn(g, st, reg, visited - outer)
    ensures CacheSound(g, st') && st'.computing == {} && CacheGrows(st.cache, st'.cache)
    ensures reg <= reg' <= Universe(g, seeds)
    ensures visited <= visited' <= reg'
    ensures forall x | x in targets :: x in visited'
    ensures reg' - reg <= visited'
    ensures AllEdgesIn(g, st', reg', visited' - outer)
    decreases Universe(g, seeds) - visited, 1, |targets|
  {
    if targets == [] {
      return reg, visited, st;
    }
    var reg1, visited1, st1 := Dfs(g, seeds, targets[0], reg, visited, st);
    AllEdgesInGrows(g, st, st1, reg, reg1, visited - outer);
    reg', visited', st' := DfsAll(g, seeds, targets[1..], reg1, visited1, st1, outer);
    assert reg' - reg <= visited' by {
      assert reg' - reg <= (reg' - reg1) + (reg1 - reg);
    }
  }

  /** `AFN(grammar)`: register the initial item `(rules[0], 0, '$')` and search from it. */
  method BuildAfn(g: Grammar, st: FirstState) returns (a: Afn, st': FirstState)
    requires CacheSound(g, st) && st.computing == {}
    ensures CacheSound(g, st') && st'.computing == {} && CacheGrows(st.cache, st'.cache)
    ensures g.rules == [] <==> a.initial.None?
    ensures g.rules == [] ==> a.registry == {} && st' == st
    ensures g.rules != [] ==> a.initial == Some(Item(g.rules[0], 0, EndMarker)) && a.initial.value in a.registry
    ensures a.initial.Some? ==> a.registry <= Universe(g, {a.initial.value})
    ensures AllEdgesIn(g, st', a.registry, a.registry)
  {
    if g.rules == [] {
      return Afn(None, {}), st;
    }
    var init := Item(g.rules[0], 0, EndMarker);
    SeedsInUniverse(g, {init});
    var reg, visited, st1 := Dfs(g, {init}, init, {init}, {}, st);
    a := Afn(Some(init), reg);
    st' := st1;
  }

  /** `len(afn)`: the number of registered items. */
  function Size(a: Afn): nat {
    |a.registry|
  }
}
