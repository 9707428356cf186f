/** The graph after insertions and removals: what its live nodes keep, and which of them a search can find. */
module HnswComponents {
  import opened Common
  import opened Hnsw
  import opened HnswProofs
  import opened HnswTheorems
  import opened HnswRemovals

  // ---------------------------------------------------------------- the invariant of live nodes

  /** All links of layer l lead to the given ids. */
  ghost predicate TargetsIn(g: Graph, l: nat, ever: set<FabricId>) {
    forall x, y :: y in Links(g, x, l) ==> y in ever
  }

  /** Only ids in `ever` were inserted; the links of live nodes are in order; the entry point, while it
      is live, reaches the current level. */
  ghost predicate Tidy(s: Index, ever: set<FabricId>) {
    && s.nodes.Keys <= ever
    && (forall l: nat :: TargetsIn(s.nodes, l, ever))
    && LiveLinks(s.nodes)
    && match s.entryPoint
       case None => s.nodes == map[]
       case Some(e) => e in s.nodes ==> OnLayer(s.nodes, e, s.currentLevel)
  }

  lemma RemovalKeepsTidy(s: Index, ever: set<FabricId>, id: FabricId)
    requires Tidy(s, ever)
    ensures Tidy(s.(nodes := s.nodes - {id}), ever)
  {
    var g, g' := s.nodes, s.nodes - {id};
    assert forall x, l: nat :: Links(g', x, l) == if x == id then [] else Links(g, x, l);
    forall l: nat
      ensures LiveLinksWellFormed(g', l) && TargetsIn(g', l, ever)
    {
      assert LiveLinksWellFormed(g, l) && TargetsIn(g, l, ever);
    }
  }

  /** Neighbours chosen for a new node: distinct and on their layer. */
  ghost predicate Neighbours(g: Graph, chosen: seq<seq<FabricId>>) {
    forall l: nat :: l < |chosen| ==> NoDuplicates(chosen[l]) && forall y :: y in chosen[l] ==> OnLayer(g, y, l)
  }

  lemma ChosenAreNeighbours(s: Index, ever: set<FabricId>, metric: Metric, p: Params, v: Vector, level: nat,
                            start: FabricId, chosen: seq<seq<FabricId>>)
    requires Tidy(s, ever) && s.entryPoint.Some? && EntryLive(s)
    requires Descent(s.nodes, metric, v, s.entryPoint.value, s.currentLevel, level + 1, start)
    requires ChosenPerLayer(s, metric, p, v, start, level, chosen)
    ensures Neighbours(s.nodes, chosen)
  {
    hide Descent, Chosen, LiveLinksWellFormed;
    DescentStaysOnLayer(s.nodes, metric, v, s.entryPoint.value, s.currentLevel, level + 1, start);
    forall l: nat | l < |chosen|
      ensures NoDuplicates(chosen[l]) && forall y :: y in chosen[l] ==> OnLayer(s.nodes, y, l)
    {
      if l <= s.currentLevel {
        assert LiveLinksWellFormed(s.nodes, l);
        ChosenAreOnLayer(s.nodes, metric, p, v, start, l, chosen[l]);
      }
    }
  }

  /** g' is g with a new node that is linked both ways with its neighbours on layer l. */
  ghost predicate GainsLinks(g: Graph, g': Graph, id: FabricId, chosen: seq<seq<FabricId>>, l: nat) {
    && g'.Keys == g.Keys + {id}
    && (forall x :: OnLayer(g', x, l) <==> if x == id then l < |chosen| else OnLayer(g, x, l))
    && forall x :: Links(g', x, l) ==
                   if x == id then if l < |chosen| then chosen[l] else []
                   else Links(g, x, l) + (if l < |chosen| && x in chosen[l] then [id] else [])
  }

  lemma LinkedGains(g: Graph, ever: set<FabricId>, id: FabricId, v: Vector, chosen: seq<seq<FabricId>>, l: nat)
    requires g.Keys <= ever && id !in ever && Neighbours(g, chosen) && TargetsIn(g, l, ever)
    ensures GainsLinks(g, Linked(g, id, v, chosen), id, chosen, l)
  {
    var g' := Linked(g, id, v, chosen);
    assert LinkedFrom(g, id, chosen, 0).Keys == g.Keys;
    assert g'.Keys == g.Keys + {id};
    hide Linked, OnLayer, Links;
    forall x
      ensures OnLayer(g', x, l) <==> if x == id then l < |chosen| else OnLayer(g, x, l)
      ensures Links(g', x, l) ==
              if x == id then if l < |chosen| then chosen[l] else []
              else Links(g, x, l) + (if l < |chosen| && x in chosen[l] then [id] else [])
    {
      LinkedLinks(g, id, v, chosen, x, l);
    }
  }

  lemma GainsAt(g: Graph, g': Graph, id: FabricId, chosen: seq<seq<FabricId>>, l: nat, x: FabricId)
    requires GainsLinks(g, g', id, chosen, l)
    ensures x in g' <==> x in g || x == id
    ensures OnLayer(g', x, l) <==> if x == id then l < |chosen| else OnLayer(g, x, l)
    ensures x == id ==> Links(g', x, l) == if l < |chosen| then chosen[l] else []
    ensures x != id && l < |chosen| && x in chosen[l] ==> Links(g', x, l) == Links(g, x, l) + [id]
    ensures x != id && !(l < |chosen| && x in chosen[l]) ==> Links(g', x, l) == Links(g, x, l)
  {
  }

  lemma NeighbourLive(g: Graph, chosen: seq<seq<FabricId>>, l: nat, y: FabricId)
    requires Neighbours(g, chosen) && l < |chosen| && y in chosen[l]
    ensures OnLayer(g, y, l) && y in g
  {
  }

  lemma LiveLinkBack(g: Graph, l: nat, x: FabricId, y: FabricId)
    requires LiveLinksWellFormed(g, l) && y in Links(g, x, l)
    ensures y != x && x in g && (y in g ==> OnLayer(g, y, l) && x in Links(g, y, l))
  {
  }

  lemma DistinctAt(g: Graph, ever: set<FabricId>, chosen: seq<seq<FabricId>>, l: nat, x: FabricId)
    requires LiveLinksWellFormed(g, l) && TargetsIn(g, l, ever) && Neighbours(g, chosen)
    ensures x in g ==> NoDuplicates(Links(g, x, l))
    ensures l < |chosen| ==> NoDuplicates(chosen[l])
    ensures forall y :: y in Links(g, x, l) ==> y in ever
  {
  }

  /** One link of the new graph. */
  lemma GainedLink(g: Graph, g': Graph, ever: set<FabricId>, id: FabricId, chosen: seq<seq<FabricId>>, l: nat,
                   x: FabricId, y: FabricId)
    requires GainsLinks(g, g', id, chosen, l) && Neighbours(g, chosen)
    requires LiveLinksWellFormed(g, l) && TargetsIn(g, l, ever) && g.Keys <= ever && id !in ever
    requires y in Links(g', x, l)
    ensures y != x && x in g' && y in ever + {id} && (y in g' ==> OnLayer(g', y, l) && x in Links(g', y, l))
  {
    hide GainsLinks, Neighbours, LiveLinksWellFormed, TargetsIn, Links, OnLayer;
    GainsAt(g, g', id, chosen, l, x);
    GainsAt(g, g', id, chosen, l, y);
    DistinctAt(g, ever, chosen, l, x);
    if x == id {
      NeighbourLive(g, chosen, l, y);
    } else if y in Links(g, x, l) {
      LiveLinkBack(g, l, x, y);
    } else {
      NeighbourLive(g, chosen, l, x);
    }
  }

  lemma GainedDistinct(g: Graph, g': Graph, ever: set<FabricId>, id: FabricId, chosen: seq<seq<FabricId>>, l: nat,
                       x: FabricId)
    requires GainsLinks(g, g', id, chosen, l) && Neighbours(g, chosen)
    requires LiveLinksWellFormed(g, l) && TargetsIn(g, l, ever) && id !in ever && x in g'
    ensures NoDuplicates(Links(g', x, l))
  {
    hide GainsLinks, Neighbours, LiveLinksWellFormed, TargetsIn, Links, OnLayer;
    GainsAt(g, g', id, chosen, l, x);
    DistinctAt(g, ever, chosen, l, x);
    assert id !in Links(g, x, l);
  }

  lemma GainsKeepLive(g: Graph, g': Graph, ever: set<FabricId>, id: FabricId, chosen: seq<seq<FabricId>>, l: nat)
    requires GainsLinks(g, g', id, chosen, l) && Neighbours(g, chosen)
    requires LiveLinksWellFormed(g, l) && TargetsIn(g, l, ever) && g.Keys <= ever && id !in ever
    ensures LiveLinksWellFormed(g', l) && TargetsIn(g', l, ever + {id})
  {
    hide GainsLinks, Neighbours, Links, OnLayer, NoDuplicates;
    forall x | x in g'
      ensures NoDuplicates(Links(g', x, l))
    {
      GainedDistinct(g, g', ever, id, chosen, l, x);
    }
    forall x, y | y in Links(g', x, l)
      ensures y != x && y in ever + {id} && (y in g' ==> OnLayer(g', y, l) && x in Links(g', y, l))
    {
      GainedLink(g, g', ever, id, chosen, l, x, y);
    }
  }

  /** Linking a new node keeps one layer in order. */
  lemma LinkedLayer(g: Graph, ever: set<FabricId>, id: FabricId, v: Vector, chosen: seq<seq<FabricId>>, l: nat,
                    e: FabricId)
    requires LiveLinksWellFormed(g, l) && TargetsIn(g, l, ever) && g.Keys <= ever && id !in ever
    requires Neighbours(g, chosen) && e in g
    ensures var g' := Linked(g, id, v, chosen);
            && LiveLinksWellFormed(g', l) && TargetsIn(g', l, ever + {id}) && g'.Keys == g.Keys + {id}
            && (OnLayer(g, e, l) ==> OnLayer(g', e, l))
  {
    var g' := Linked(g, id, v, chosen);
    LinkedGains(g, ever, id, v, chosen, l);
    assert g'.Keys == g.Keys + {id};
    hide Linked, LiveLinksWellFormed, TargetsIn, Neighbours, GainsLinks, Links, OnLayer;
    GainsKeepLive(g, g', ever, id, chosen, l);
    GainsAt(g, g', id, chosen, l, e);
  }

  lemma LinkedTidy(s: Index, ever: set<FabricId>, id: FabricId, v: Vector, chosen: seq<seq<FabricId>>)
    requires Tidy(s, ever) && s.entryPoint.Some? && EntryLive(s) && Neighbours(s.nodes, chosen) && id !in ever
    ensures Tidy(s.(nodes := Linked(s.nodes, id, v, chosen)), ever + {id})
  {
    var g, g', e := s.nodes, Linked(s.nodes, id, v, chosen), s.entryPoint.value;
    hide Linked, LiveLinksWellFormed, TargetsIn, Neighbours, Links, OnLayer;
    forall l: nat
      ensures LiveLinksWellFormed(g', l) && TargetsIn(g', l, ever + {id})
    {
      assert LiveLinksWellFormed(g, l) && TargetsIn(g, l, ever);
      LinkedLayer(g, ever, id, v, chosen, l, e);
    }
    assert LiveLinksWellFormed(g, s.currentLevel) && TargetsIn(g, s.currentLevel, ever);
    LinkedLayer(g, ever, id, v, chosen, s.currentLevel, e);
  }

  lemma FirstTidy(ever: set<FabricId>, r: Insertion)
    ensures var node := Node(r.id, r.vector, seq(r.level + 1, _ => []));
            Tidy(Index(map[r.id := node], Some(r.id), r.level), ever + {r.id})
  {
  }

  lemma InsertKeepsTidy(s: Index, ever: set<FabricId>, metric: Metric, p: Params, r: Insertion, t: Index)
    requires Tidy(s, ever) && EntryLive(s) && InsertStep(s, metric, p, r.id, r.vector, r.level, t) && r.id !in ever
    ensures Tidy(t, ever + {r.id})
  {
    hide Descent, ChosenPerLayer, Linked, Neighbours, BeamResult, Chosen;
    if s.entryPoint == None {
      FirstTidy(ever, r);
      assert s.nodes[r.id := Node(r.id, r.vector, seq(r.level + 1, _ => []))] ==
             map[r.id := Node(r.id, r.vector, seq(r.level + 1, _ => []))];
    } else {
      hide Tidy;
      var start, chosen :| Descent(s.nodes, metric, r.vector, s.entryPoint.value, s.currentLevel, r.level + 1, start)
                           && ChosenPerLayer(s, metric, p, r.vector, start, r.level, chosen)
                           && t == s.(nodes := Linked(s.nodes, r.id, r.vector, chosen));
      ChosenAreNeighbours(s, ever, metric, p, r.vector, r.level, start, chosen);
      LinkedTidy(s, ever, r.id, r.vector, chosen);
    }
  }

  // ---------------------------------------------------------------- histories

  /** The ids that were ever inserted. */
  function Ever(h: seq<Change>): set<FabricId> {
    if h == [] then {}
    else Ever(h[..|h| - 1]) + if h[|h| - 1].Add? then {h[|h| - 1].rec.id} else {}
  }

  /** No id is inserted twice, not even after its removal. */
  predicate FreshAdds(h: seq<Change>) {
    h == [] ||
    (FreshAdds(h[..|h| - 1]) && (h[|h| - 1].Add? ==> h[|h| - 1].rec.id !in Ever(h[..|h| - 1])))
  }

  /** Safety over all runs of insertions of fresh ids and removals: the links of live nodes are distinct,
      avoid the node itself, and to live nodes they are mutual and on their layer. */
  lemma {:induction false} ChangesKeepTidy(metric: Metric, p: Params, h: seq<Change>, t: Index)
    requires Changed(metric, p, h, t) && FreshAdds(h)
    ensures Tidy(t, Ever(h))
  {
    if h != [] {
      var n := |h| - 1;
      var s :| Changed(metric, p, h[..n], s) && ChangeStep(s, metric, p, h[n], t);
      hide Changed, Tidy, InsertStep;
      ChangesKeepTidy(metric, p, h[..n], s);
      match h[n]
      case Add(r) => InsertKeepsTidy(s, Ever(h[..n]), metric, p, r, t);
      case Drop(id) =>
        RemovalKeepsTidy(s, Ever(h[..n]), id);
        assert Ever(h) == Ever(h[..n]);
    } else {
      assert LiveLinks(EMPTY.nodes);
    }
  }

  // ---------------------------------------------------------------- components

  /** Among live nodes reachability is symmetric: a path to a live node leads back. */
  lemma ReachedBack(g: Graph, l: nat, x: FabricId, y: FabricId)
    requires LiveLinksWellFormed(g, l) && x in g && y in g && Reached(g, l, x, {y})
    ensures Reached(g, l, y, {x})
  {
    forall S: set<FabricId> | Closed(g, l, S) && y in S
      ensures {x} <= S
    {
      var T := (g.Keys - S) + (Mentioned(g, l) - g.Keys);
      forall a, b | a in T && b in Links(g, a, l)
        ensures b in T
      {
        LinksAreMentioned(g, l, a, b);
      }
      assert Closed(g, l, T) && y !in T && y in {y};
      assert x !in T;
    }
  }

  lemma ReachedOn(g: Graph, l: nat, x: FabricId, y: FabricId, z: FabricId)
    requires Reached(g, l, x, {y}) && Reached(g, l, y, {z})
    ensures Reached(g, l, x, {z})
  {
    forall S: set<FabricId> | Closed(g, l, S) && x in S
      ensures {z} <= S
    {
      assert {y} <= S && y in {y};
    }
  }

  /** All stored vectors can be reached from each other on layer 0. */
  ghost predicate OneComponent(t: Index) {
    forall x, y :: x in t.nodes && y in t.nodes ==> Reachable(t, x, y)
  }

  lemma ReachableFromOne(t: Index, ever: set<FabricId>, start: FabricId)
    requires Tidy(t, ever) && start in t.nodes
    ensures OneComponent(t) <==> forall x :: x in t.nodes ==> Reachable(t, start, x)
  {
    assert LiveLinksWellFormed(t.nodes, 0);
    hide Tidy, LiveLinksWellFormed, Reached;
    if forall x :: x in t.nodes ==> Reachable(t, start, x) {
      forall x, y | x in t.nodes && y in t.nodes
        ensures Reachable(t, x, y)
      {
        assert Reachable(t, start, x) && Reachable(t, start, y);
        ReachedBack(t.nodes, 0, start, x);
        ReachedOn(t.nodes, 0, x, start, y);
      }
    }
  }

  /** After insertions of fresh ids and any removals that leave the entry point live, a wide search for
      everything agrees with a full scan exactly when the stored vectors form one component, whatever
      node its descent ends in and however ties are resolved. */
  lemma SearchFindsComponent(metric: Metric, p: Params, h: seq<Change>, t: Index,
                             q: Vector, k: nat, ef: nat, res: seq<Neighbor>)
    requires Changed(metric, p, h, t) && FreshAdds(h) && t.entryPoint.Some? && EntryLive(t)
    requires SearchStep(t, metric, q, k, ef, res) && k >= |Kept(h)|
    ensures TopK(Kept(h), metric, q, k, Hits(res)) <==> OneComponent(t)
  {
    hide Changed, SearchStep, TopK, Kept, Descent, Tidy, FreshAdds, OneComponent, Reachable;
    ChangesKeepTidy(metric, p, h, t);
    StoredIsKept(metric, p, h, t);
    assert t.nodes.Keys == Vectors(t.nodes).Keys;
    var start := SearchAfterRemovals(metric, p, h, t, q, k, ef, res);
    DescentApproaches(t.nodes, metric, q, t.entryPoint.value, t.currentLevel, 1, start);
    ReachableFromOne(t, Ever(h), start);
  }
}
