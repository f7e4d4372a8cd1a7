/**
  Sources, consumers and reference counts of VM caches (cache/mm_cache.cpp,
  mm_cache.h).  A cache is referenced by its areas, by its consumers and by
  whoever holds a reference; `holders` counts the last kind.  A source cache is
  older than its consumers, so ids go down along a chain.
*/
module CacheGraph {
  import opened Options

  type Id = nat

  datatype Node = Node(source: Option<Id>, consumers: set<Id>, areas: set<Id>, refs: int, holders: int, canMerge: bool)

  type Graph = map<Id, Node>

  // ---- invariant ----

  /** Sources and consumers point at each other, and always downwards. */
  ghost predicate LinksOk(g: Graph) { SourcesOk(g) && ConsumersOk(g) }

  ghost predicate SourcesOk(g: Graph) {
    forall c | c in g && g[c].source.Some? ::
      g[c].source.value in g && g[c].source.value < c && c in g[g[c].source.value].consumers
  }

  ghost predicate ConsumersOk(g: Graph) {
    forall c, d | c in g && d in g[c].consumers :: d in g && g[d].source == Some(c)
  }

  ghost predicate CountOk(n: Node) { n.holders >= 0 && n.refs == |n.areas| + |n.consumers| + n.holders }

  ghost predicate CountsOk(g: Graph) { forall c | c in g :: CountOk(g[c]) }

  ghost predicate Inv(g: Graph) { LinksOk(g) && CountsOk(g) }

  /** _IsMergeable: no areas, exactly one consumer, and of a kind that merges. */
  predicate Mergeable(n: Node) { n.areas == {} && n.canMerge && |n.consumers| == 1 }

  /** Unlock finds nothing to do: the cache is referenced, and not by its only consumer alone if it could merge. */
  predicate Settled(n: Node) { n.refs > 0 && !(n.refs == 1 && Mergeable(n)) }

  /** What keeps a cache settled that loses its areas: someone holds it, or it has consumers and is not to be merged. */
  predicate SettledWithoutAreas(n: Node) {
    n.holders > 0 || (n.consumers != {} && !(n.canMerge && |n.consumers| == 1))
  }

  /** Every cache but possibly those in `dying` is settled: nothing is left over, and chains are fully collapsed. */
  ghost predicate LiveBut(g: Graph, dying: set<Id>) { forall d | d in g && d !in dying :: Settled(g[d]) }

  ghost predicate Live(g: Graph) { LiveBut(g, {}) }

  // ---- the primitive changes ----

  /** AddConsumer. */
  function Linked(g: Graph, c: Id, d: Id): Graph
    requires c in g && d in g
  {
    g[c := g[c].(consumers := g[c].consumers + {d}, refs := g[c].refs + 1)][d := g[d].(source := Some(c))]
  }

  /** TransferAreas. */
  function Transferred(g: Graph, to: Id, from: Id): Graph
    requires to in g && from in g
  {
    var moved := g[from].areas;
    g[from := g[from].(areas := {}, refs := g[from].refs - |moved|)][to := g[to].(areas := moved,
      refs := g[to].refs + |moved|)]
  }

  /** _MergeWithOnlyConsumer on the links: consumer d gets c's source; the reference d had on c is the caller's. */
  function Bypassed(g: Graph, c: Id, d: Id): Graph
    requires c in g && d in g
  {
    var g1 := g[d := g[d].(source := g[c].source)][c := g[c].(consumers := {}, source := None,
      holders := g[c].holders + 1)];
    if g[c].source.Some? && g[c].source.value in g
    then
      var s := g[c].source.value;
      g1[s := g[s].(consumers := g[s].consumers - {c} + {d})]
    else g1
  }

  /** _RemoveConsumer on the links: c leaves its source s; the reference it had on s is the caller's. */
  function CutOff(g: Graph, s: Id, c: Id): Graph
    requires s in g && c in g
  {
    g[s := g[s].(consumers := g[s].consumers - {c}, holders := g[s].holders + 1)][c := g[c].(source := None)]
  }

  function Released(g: Graph, c: Id): Graph
    requires c in g
  {
    g[c := g[c].(refs := g[c].refs - 1, holders := g[c].holders - 1)]
  }

  lemma LinkedInv(g: Graph, c: Id, d: Id)
    requires Inv(g) && c in g && d in g && c < d && g[d].source.None?
    ensures Inv(Linked(g, c, d))
  {
    hide LinksOk, CountsOk, Linked;
    LinkedLinks(g, c, d);
    LinkedCounts(g, c, d);
  }

  lemma LinkedLinks(g: Graph, c: Id, d: Id)
    requires LinksOk(g) && c in g && d in g && c < d && g[d].source.None?
    ensures LinksOk(Linked(g, c, d)) && d !in g[c].consumers
  {
    var g2 := Linked(g, c, d);
    assert d !in g[c].consumers;
    forall x, y | x in g2 && y in g2[x].consumers ensures y in g2 && g2[y].source == Some(x) {
      if y != d { assert y in g[x].consumers; }
    }
  }

  lemma LinkedCounts(g: Graph, c: Id, d: Id)
    requires CountsOk(g) && c in g && d in g && c < d && d !in g[c].consumers
    ensures CountsOk(Linked(g, c, d))
  {
    assert CountOk(g[c]) && CountOk(g[d]);
  }

  lemma TransferredInv(g: Graph, to: Id, from: Id)
    requires Inv(g) && to in g && from in g && to != from && g[to].areas == {}
    ensures Inv(Transferred(g, to, from))
  {
  }

  lemma TransferredCount(g: Graph, to: Id, from: Id)
    requires Inv(g) && Live(g) && to in g && from in g && to != from && g[to].areas == {}
    ensures var g2 := Transferred(g, to, from);
      && g2[from].refs == |g[from].consumers| + g[from].holders >= 0
      && LiveBut(g2, {from})
      && (Live(g2) <==> SettledWithoutAreas(g[from]))
  {
    assert CountOk(g[from]) && CountOk(g[to]);
  }

  lemma BypassedSources(g: Graph, c: Id, d: Id)
    requires LinksOk(g) && c in g && d in g && g[c].consumers == {d} && g[d].source == Some(c) && c < d
    ensures SourcesOk(Bypassed(g, c, d))
  {
    var g2 := Bypassed(g, c, d);
    forall x | x in g2 && g2[x].source.Some?
      ensures g2[x].source.value in g2 && g2[x].source.value < x && x in g2[g2[x].source.value].consumers
    {
      assert g[x].source == Some(c) ==> x in g[c].consumers;
      assert x == d || (g2[x].source == g[x].source && g[x].source != Some(c));
    }
  }

  lemma BypassedConsumers(g: Graph, c: Id, d: Id)
    requires LinksOk(g) && c in g && d in g && g[c].consumers == {d} && g[d].source == Some(c) && c < d
    ensures ConsumersOk(Bypassed(g, c, d))
  {
    var g2 := Bypassed(g, c, d);
    forall x, y | x in g2 && y in g2[x].consumers ensures y in g2 && g2[y].source == Some(x) {
      if y == d {
        assert x == c || d !in g[x].consumers;
      } else {
        assert y in g[x].consumers && g[y].source == Some(x);
      }
    }
  }

  lemma BypassedLinks(g: Graph, c: Id, d: Id)
    requires LinksOk(g) && c in g && d in g && g[c].consumers == {d} && g[d].source == Some(c) && c < d
    ensures LinksOk(Bypassed(g, c, d))
  {
    BypassedSources(g, c, d);
    BypassedConsumers(g, c, d);
  }

  lemma OnlyConsumer(g: Graph, c: Id, d: Id)
    requires LinksOk(g) && c in g && g[c].consumers == {d}
    ensures d in g && d > c && g[d].source == Some(c)
    ensures g[c].source.Some? ==>
      && g[c].source.value in g && c in g[g[c].source.value].consumers
      && d !in g[g[c].source.value].consumers && g[c].source.value < c
  {
    assert d in g[c].consumers;
  }

  lemma BypassedCounts(g: Graph, c: Id, d: Id)
    requires CountsOk(g) && c in g && d in g && c != d && g[c].consumers == {d}
    requires g[c].source.Some? ==>
      && g[c].source.value in g && c in g[g[c].source.value].consumers
      && d !in g[g[c].source.value].consumers && g[c].source.value != c && g[c].source.value != d
    ensures CountsOk(Bypassed(g, c, d))
  {
    hide CountsOk;
    if g[c].source.Some? {
      var s := g[c].source.value;
      assert |g[s].consumers - {c}| == |g[s].consumers| - 1;
    }
    var g1 := Bypassed(g, c, d);
    forall x | x in g1 ensures CountOk(g1[x]) { CountAt(g, x); }
    CountsAll(g1);
  }

  lemma CountsAll(g: Graph)
    requires forall x | x in g :: CountOk(g[x])
    ensures CountsOk(g)
  {
  }

  lemma BypassedInv(g: Graph, c: Id, d: Id)
    requires Inv(g) && c in g && g[c].consumers == {d}
    ensures d in g && d > c && Inv(Bypassed(g, c, d))
  {
    hide LinksOk, CountsOk, Bypassed;
    OnlyConsumer(g, c, d);
    BypassedLinks(g, c, d);
    BypassedCounts(g, c, d);
  }

  lemma CutOffInv(g: Graph, s: Id, c: Id)
    requires Inv(g) && c in g && g[c].source == Some(s)
    ensures s in g && s < c && Inv(CutOff(g, s, c))
  {
    hide CountsOk, LinksOk, CutOff;
    CutOffLinks(g, s, c);
    CutOffCounts(g, s, c);
  }

  lemma CutOffLinks(g: Graph, s: Id, c: Id)
    requires LinksOk(g) && c in g && g[c].source == Some(s)
    ensures s in g && s < c && c in g[s].consumers && LinksOk(CutOff(g, s, c))
  {
  }

  lemma CutOffCounts(g: Graph, s: Id, c: Id)
    requires CountsOk(g) && s in g && c in g && s < c && c in g[s].consumers
    ensures CountsOk(CutOff(g, s, c))
  {
    assert CountOk(g[s]) && CountOk(g[c]);
    assert |g[s].consumers - {c}| == |g[s].consumers| - 1;
  }

  /** A cache with no references has neither areas nor consumers nor holders. */
  lemma NoRefs(n: Node)
    requires CountOk(n) && n.refs <= 0
    ensures n.areas == {} && n.consumers == {} && n.holders == 0 && n.refs == 0
  {
  }

  lemma RemovedInv(g: Graph, c: Id)
    requires Inv(g) && c in g && g[c].consumers == {} && g[c].source.None?
    ensures Inv(g - {c})
  {
  }

  // ---- what unlocking a cache may change ----

  /** Somebody uses the cache. */
  predicate Used(n: Node) { n.areas != {} || n.holders > 0 }

  /**
    From g to g2, working on cache c: no cache appears; every used one other
    than c stays, with its areas and holders; those above c all stay and at most
    get another source.
  */
  ghost predicate Settles(g: Graph, g2: Graph, c: Id) {
    && g2.Keys <= g.Keys
    && (forall d | d in g && d != c && Used(g[d]) :: d in g2)
    && (forall d | d in g2 && d != c :: SameUse(g2[d], g[d]))
    && (forall d | d in g && d > c :: d in g2 && g2[d].(source := None) == g[d].(source := None))
    && (forall d | d in g && d > c && g[d].source.None? :: g2[d].source.None?)
  }

  ghost predicate SameUse(n: Node, m: Node) { n.areas == m.areas && n.holders == m.holders && n.canMerge == m.canMerge }

  class Caches {
    var nodes: Graph

    constructor ()
      ensures nodes == map[] && Inv(nodes) && Live(nodes)
    {
      nodes := map[];
    }

    /** A new cache; its creator holds the first reference. */
    method Create(c: Id, canMerge: bool)
      requires Inv(nodes) && Live(nodes) && c !in nodes
      modifies this
      ensures Inv(nodes) && Live(nodes) && nodes == old(nodes)[c := Node(None, {}, {}, 1, 1, canMerge)]
    {
      nodes := nodes[c := Node(None, {}, {}, 1, 1, canMerge)];
    }

    method AcquireRef(c: Id)
      requires Inv(nodes) && Live(nodes) && c in nodes
      modifies this
      ensures Inv(nodes) && Live(nodes)
      ensures nodes ==
        old(nodes)[c := old(nodes)[c].(refs := old(nodes)[c].refs + 1, holders := old(nodes)[c].holders + 1)]
    {
      nodes := nodes[c := nodes[c].(refs := nodes[c].refs + 1, holders := nodes[c].holders + 1)];
    }

    /** An area takes over its creator's reference. */
    method InsertArea(c: Id, a: Id)
      requires Inv(nodes) && Live(nodes) && c in nodes && nodes[c].holders > 0 && a !in nodes[c].areas
      modifies this
      ensures Inv(nodes) && Live(nodes)
      ensures nodes ==
        old(nodes)[c := old(nodes)[c].(areas := old(nodes)[c].areas + {a}, holders := old(nodes)[c].holders - 1)]
    {
      nodes := nodes[c := nodes[c].(areas := nodes[c].areas + {a}, holders := nodes[c].holders - 1)];
    }

    /** The area is gone; its reference is the caller's to release. */
    method RemoveArea(c: Id, a: Id)
      requires Inv(nodes) && Live(nodes) && c in nodes && a in nodes[c].areas
      modifies this
      ensures Inv(nodes) && Live(nodes)
      ensures nodes ==
        old(nodes)[c := old(nodes)[c].(areas := old(nodes)[c].areas - {a}, holders := old(nodes)[c].holders + 1)]
    {
      assert |nodes[c].areas - {a}| == |nodes[c].areas| - 1;
      nodes := nodes[c := nodes[c].(areas := nodes[c].areas - {a}, holders := nodes[c].holders + 1)];
    }

    method AddConsumer(c: Id, d: Id)
      requires Inv(nodes) && Live(nodes) && c in nodes && d in nodes && c < d && nodes[d].source.None?
      modifies this
      ensures Inv(nodes) && Live(nodes) && nodes == Linked(old(nodes), c, d)
    {
      LinkedInv(nodes, c, d);
      nodes := Linked(nodes, c, d);
    }

    /**
      TransferAreas.  It deletes and merges nothing: afterwards the cache the
      areas left is settled exactly if someone, as its callers do, holds it, or
      if it has consumers and is not to be merged into the only one.
    */
    method TransferAreas(to: Id, from: Id)
      requires Inv(nodes) && Live(nodes) && to in nodes && from in nodes && to != from && nodes[to].areas == {}
      modifies this
      ensures Inv(nodes) && LiveBut(nodes, {from}) && nodes == Transferred(old(nodes), to, from)
      ensures Live(nodes) <==> SettledWithoutAreas(old(nodes)[from])
    {
      TransferredInv(nodes, to, from);
      TransferredCount(nodes, to, from);
      nodes := Transferred(nodes, to, from);
    }

    /** ReleaseRefAndUnlock.  `dying` are caches above that are being deleted. */
    method ReleaseRef(c: Id, ghost dying: set<Id>)
      requires Inv(nodes) && LiveBut(nodes, dying) && c in nodes && nodes[c].holders > 0 && Above(dying, nodes, c)
      modifies this
      ensures Inv(nodes) && LiveBut(nodes, dying) && Settles(old(nodes), nodes, c)
      ensures c in nodes ==> SameUse(nodes[c], old(nodes)[c].(holders := old(nodes)[c].holders - 1))
      ensures old(nodes)[c].areas != {} || old(nodes)[c].holders > 1 ==> c in nodes
      decreases c, 2
    {
      ReleasedInv(nodes, c, dying);
      ghost var g := nodes;
      nodes := Released(nodes, c);
      Unlock(c, dying);
      SettlesReleased(g, nodes, c);
    }

    /**
      Unlock: merge the cache into its only consumer if nobody else refers to
      it, and delete it if nobody does.  Afterwards no cache is left to be merged
      or deleted.
    */
    method Unlock(c: Id, ghost dying: set<Id>)
      requires Inv(nodes) && LiveBut(nodes, dying + {c}) && c in nodes && nodes[c].refs >= 0 && Above(dying, nodes, c)
      modifies this
      ensures Inv(nodes) && LiveBut(nodes, dying) && Settles(old(nodes), nodes, c)
      ensures c in nodes <==> Settled(old(nodes)[c])
      ensures c in nodes ==> nodes == old(nodes)
      decreases c, 1
    {
      ghost var g := nodes;
      if nodes[c].refs == 1 && Mergeable(nodes[c]) {
        SomeConsumer(nodes[c].consumers);
        var consumer :| consumer in nodes[c].consumers;
        ConsumerIs(nodes, c, consumer, dying);
        MergeWithOnlyConsumer(c, dying);
        // The consumer is unlocked next, which neither merges nor deletes it.
        assert consumer in nodes && Settled(nodes[consumer]);
        ghost var g1 := nodes;
        Delete(c, dying);
        SettlesTwice(g, g1, nodes, c);
      } else if nodes[c].refs == 0 {
        Delete(c, dying);
      }
    }

    /** _MergeWithOnlyConsumer: leaves the cache without references or links. */
    method MergeWithOnlyConsumer(c: Id, ghost dying: set<Id>)
      requires Inv(nodes) && LiveBut(nodes, dying + {c}) && c in nodes && nodes[c].refs == 1 && Mergeable(nodes[c])
      requires Above(dying, nodes, c)
      modifies this
      ensures Inv(nodes) && LiveBut(nodes, dying + {c}) && Settles(old(nodes), nodes, c)
      ensures c in nodes && nodes[c] == Node(None, {}, {}, 0, 0, old(nodes)[c].canMerge)
      decreases c, 0
    {
      hide Inv, LiveBut, Settles, Bypassed;
      SomeConsumer(nodes[c].consumers);
      var consumer :| consumer in nodes[c].consumers;
      var source := nodes[c].source;
      ghost var g := nodes;
      BypassReady(nodes, c, consumer, dying);
      nodes := Bypassed(nodes, c, consumer);
      ghost var g1 := nodes;
      if source.Some? {
        Unlock(source.value, dying);
        SettlesBypassed(g, nodes, c, consumer);
      } else {
        SettlesAlone(g, c, consumer);
      }
      ReleaseLast(g, nodes, c, dying);
      nodes := Released(nodes, c);
    }

    /** Delete: by then there are no areas and no consumers, so neither panic can happen. */
    method Delete(c: Id, ghost dying: set<Id>)
      requires Inv(nodes) && LiveBut(nodes, dying + {c}) && c in nodes && nodes[c].refs == 0 && Above(dying, nodes, c)
      modifies this
      ensures Inv(nodes) && LiveBut(nodes, dying) && Settles(old(nodes), nodes, c) && c !in nodes
      decreases c, 0
    {
      hide LinksOk, SourcesOk, ConsumersOk, Settles;
      NoRefs(nodes[c]);
      var source := nodes[c].source;
      ghost var g := nodes;
      if source.Some? {
        CutOffInv(nodes, source.value, c);
        nodes := CutOff(nodes, source.value, c);
        ReleaseRef(source.value, dying + {c});
        SettlesCut(g, nodes, c, source.value);
      } else {
        SettlesRemoved(nodes, c);
      }
      RemovedInv(nodes, c);
      nodes := nodes - {c};
    }
  }

  /** The caches being deleted are newer than c and have lost their source. */
  ghost predicate Above(dying: set<Id>, g: Graph, c: Id) {
    forall d | d in dying && d in g :: d > c && g[d].source.None?
  }

  /** A consumer is newer and not being deleted. */
  lemma ConsumerIs(g: Graph, c: Id, d: Id, dying: set<Id>)
    requires Inv(g) && c in g && d in g[c].consumers && Above(dying, g, c)
    ensures d in g && d > c && d !in dying
  {
  }

  lemma SomeConsumer(s: set<Id>)
    requires |s| == 1
    ensures exists d :: d in s && s == {d}
  {
    SomeMember(s);
    var d :| d in s;
    assert |s - {d}| == 0;
    assert s == {d};
  }

  lemma SomeMember(s: set<Id>)
    ensures s == {} || exists d :: d in s
  {
    if forall d :: d !in s { assert s == {}; }
  }

  lemma ReleasedInv(g: Graph, c: Id, dying: set<Id>)
    requires Inv(g) && LiveBut(g, dying) && c in g && g[c].holders > 0 && Above(dying, g, c)
    ensures Inv(Released(g, c)) && LiveBut(Released(g, c), dying + {c}) && Released(g, c)[c].refs >= 0
    ensures Above(dying, Released(g, c), c)
  {
    hide LinksOk;
    SameLinks(g, Released(g, c));
  }

  lemma SettlesReleased(g: Graph, g2: Graph, c: Id)
    requires c in g && CountOk(g[c]) && g[c].holders > 0 && Settles(Released(g, c), g2, c)
    requires (c in g2 ==> g2 == Released(g, c))
    requires c in g2 <==> Settled(Released(g, c)[c])
    ensures Settles(g, g2, c)
    ensures c in g2 ==> SameUse(g2[c], g[c].(holders := g[c].holders - 1))
    ensures g[c].areas != {} || g[c].holders > 1 ==> c in g2
  {
    assert Released(g, c)[c].consumers == g[c].consumers;
  }

  lemma SettlesTwice(g: Graph, g1: Graph, g2: Graph, c: Id)
    requires c in g && c in g1 && Settles(g, g1, c) && Settles(g1, g2, c) && g1[c].consumers == {}
    ensures Settles(g, g2, c)
  {
    forall d | d in g && d != c && Used(g[d]) ensures d in g2 {
      assert SameUse(g1[d], g[d]);
    }
  }

  lemma BypassReady(g: Graph, c: Id, d: Id, dying: set<Id>)
    requires Inv(g) && LiveBut(g, dying + {c}) && c in g && g[c].refs == 1 && Mergeable(g[c]) && d in g[c].consumers
    requires Above(dying, g, c)
    ensures g[c].consumers == {d} && d in g && d > c && Inv(Bypassed(g, c, d)) && LiveBut(Bypassed(g, c, d), dying)
    ensures c in Bypassed(g, c, d) && Bypassed(g, c, d)[c] == Node(None, {}, {}, 1, 1, g[c].canMerge)
    ensures g[c].source.Some? ==>
      var s := g[c].source.value;
      && s in Bypassed(g, c, d) && s < c && Bypassed(g, c, d)[s].refs >= 0 && CountOk(Bypassed(g, c, d)[s])
      && Above(dying, Bypassed(g, c, d), s) && LiveBut(Bypassed(g, c, d), dying + {s})
  {
    hide LinksOk, CountsOk, LiveBut;
    SomeConsumer(g[c].consumers);
    assert g[c].consumers == {d};
    BypassedInv(g, c, d);
    OnlyConsumer(g, c, d);
    BypassedLive(g, c, d, dying);
    CountAt(g, c);
    if g[c].source.Some? {
      var s := g[c].source.value;
      CountAt(Bypassed(g, c, d), s);
      LiveMore(Bypassed(g, c, d), dying, s);
    }
  }

  lemma LiveMore(g: Graph, dying: set<Id>, c: Id)
    requires LiveBut(g, dying)
    ensures LiveBut(g, dying + {c})
  {
  }

  lemma CountAt(g: Graph, c: Id)
    requires CountsOk(g) && c in g
    ensures CountOk(g[c])
  {
  }

  /** Its source has as many consumers as before, so it is as settled as before. */
  lemma BypassedLive(g: Graph, c: Id, d: Id, dying: set<Id>)
    requires Inv(g) && LiveBut(g, dying + {c}) && c in g && g[c].refs == 1 && Mergeable(g[c]) && g[c].consumers == {d}
    requires d in g && d > c
    ensures LiveBut(Bypassed(g, c, d), dying)
  {
    hide LinksOk;
    OnlyConsumer(g, c, d);
    if g[c].source.Some? {
      var s := g[c].source.value;
      assert |g[s].consumers - {c}| == |g[s].consumers| - 1;
      assert Mergeable(Bypassed(g, c, d)[s]) <==> Mergeable(g[s]);
    }
    assert !Mergeable(Bypassed(g, c, d)[c]);
  }

  /** After the consumer was moved to source s, and s was settled. */
  lemma SettlesBypassed(g: Graph, g2: Graph, c: Id, d: Id)
    requires Inv(g) && c in g && g[c].consumers == {d} && g[c].source.Some? && d in g && d > c
    requires Bypassed(g, c, d)[c].source.None? && g[c].source.value < c
    requires Settles(Bypassed(g, c, d), g2, g[c].source.value)
    requires var s, g1 := g[c].source.value, Bypassed(g, c, d);
      s in g1 && (s in g2 <==> Settled(g1[s])) && (s in g2 ==> g2 == g1)
        && CountOk(g1[s])
    ensures Settles(g, g2, c) && c in g2 && g2[c] == Bypassed(g, c, d)[c]
  {
    hide Inv, LinksOk, CountsOk, Bypassed;
    var s, g1 := g[c].source.value, Bypassed(g, c, d);
    BypassedNodes(g, c, d);
  }

  /** What bypassing c leaves as it was. */
  lemma BypassedNodes(g: Graph, c: Id, d: Id)
    requires Inv(g) && c in g && g[c].consumers == {d} && g[c].source.Some? && d in g && d > c
    ensures var s, g1 := g[c].source.value, Bypassed(g, c, d);
      && s in g && s != c && s != d && g1.Keys == g.Keys
      && (forall x | x in g && x != c && x != d && x != s :: g1[x] == g[x])
      && |g1[s].consumers| > 0 && SameUse(g1[s], g[s]) && g1[d].(source := None) == g[d].(source := None)
        && g[d].source.Some?
  {
    OnlyConsumer(g, c, d);
    assert d in Bypassed(g, c, d)[g[c].source.value].consumers;
  }

  lemma SettlesAlone(g: Graph, c: Id, d: Id)
    requires Inv(g) && c in g && g[c].consumers == {d} && g[c].source.None? && d in g && d > c
    ensures Settles(g, Bypassed(g, c, d), c)
  {
  }

  lemma ReleaseLast(g: Graph, g2: Graph, c: Id, dying: set<Id>)
    requires Inv(g2) && LiveBut(g2, dying) && Settles(g, g2, c) && c in g2
    requires g2[c] == Node(None, {}, {}, 1, 1, g2[c].canMerge)
    ensures Inv(Released(g2, c)) && LiveBut(Released(g2, c), dying + {c}) && Settles(g, Released(g2, c), c)
  {
    hide Settles, Inv;
    ReleaseLastInv(g2, c);
    ReleaseLastSettles(g, g2, c);
  }

  lemma ReleaseLastInv(g: Graph, c: Id)
    requires Inv(g) && c in g && g[c] == Node(None, {}, {}, 1, 1, g[c].canMerge)
    ensures Inv(Released(g, c))
  {
    hide LinksOk;
    SameLinks(g, Released(g, c));
  }

  lemma SameLinks(g: Graph, g2: Graph)
    requires LinksOk(g) && g.Keys == g2.Keys
    requires forall d | d in g :: g2[d].source == g[d].source && g2[d].consumers == g[d].consumers
    ensures LinksOk(g2)
  {
  }

  lemma ReleaseLastSettles(g: Graph, g2: Graph, c: Id)
    requires Settles(g, g2, c) && c in g2
    ensures Settles(g, Released(g2, c), c)
  {
  }

  lemma SettlesRemoved(g: Graph, c: Id)
    requires c in g
    ensures Settles(g, g - {c}, c)
  {
  }

  /** After c was cut off its source s, and the reference to s was released. */
  lemma SettlesCut(g: Graph, g2: Graph, c: Id, s: Id)
    requires Inv(g) && c in g && g[c].source == Some(s) && s in g && s < c && g[c].consumers == {}
    requires Settles(CutOff(g, s, c), g2, s)
    requires s in g2 ==> SameUse(g2[s], g[s])
    requires Used(g[s]) ==> s in g2
    ensures Settles(g, g2 - {c}, c) && c in g2 && g2[c] == g[c].(source := None)
  {
    var g1 := CutOff(g, s, c);
    assert c !in g1[s].consumers;
    assert forall x | x in g && x != c && x != s :: g1[x] == g[x];
  }
}
