/** What single insertions and searches do, in terms of distances and heights alone. */
module HnswInsertion {
  import opened Common
  import opened Hnsw
  import opened HnswProofs
  import opened HnswTheorems

  function Dist(g: Graph, metric: Metric, v: Vector, x: FabricId): real
    requires x in g
  {
    metric.distance(v, g[x].vector)
  }

  // ---------------------------------------------------------------- the greedy descent

  /** Nothing that `to` links to on layer l is nearer to q. */
  ghost predicate LocallyNearest(g: Graph, metric: Metric, q: Vector, to: FabricId, l: nat) {
    to in g && forall y :: y in Links(g, to, l) && y in g ==> Dist(g, metric, q, to) <= Dist(g, metric, q, y)
  }

  /** The step from stops[i] to stops[i + 1] followed the links of layer hi - i, went no farther from q, and left
      no nearer link to follow. */
  ghost predicate StopReached(g: Graph, metric: Metric, q: Vector, hi: nat, stops: seq<FabricId>, i: nat)
    requires i < |stops| - 1 && i <= hi && forall x :: x in stops ==> x in g
  {
    && HasPath(g, hi - i, stops[i], stops[i + 1])
    && LocallyNearest(g, metric, q, stops[i + 1], hi - i)
    && Dist(g, metric, q, stops[i + 1]) <= Dist(g, metric, q, stops[i])
  }

  /** Stops that begin at `from` and go down one layer at a time, from layer hi. */
  ghost predicate Stops(g: Graph, metric: Metric, q: Vector, from: FabricId, hi: nat, stops: seq<FabricId>) {
    && 1 <= |stops| <= hi + 2 && stops[0] == from && (forall x :: x in stops ==> x in g)
    && (forall i :: 0 <= i < |stops| - 1 ==> StopReached(g, metric, q, hi, stops, i))
  }

  lemma GreedyFollowsPath(g: Graph, metric: Metric, q: Vector, from: FabricId, l: nat, to: FabricId)
    requires GreedyStep(g, metric, q, from, l, to) && from in g
    ensures HasPath(g, l, from, to) && LocallyNearest(g, metric, q, to, l)
    ensures Dist(g, metric, q, to) <= Dist(g, metric, q, from)
  {
    LocalMinimum(g, metric, q, from, l, to);
    var h := HitFor(g, metric, q, to);
    var visited :| BeamResult(g, metric, q, from, 1, l, visited, [h]);
    assert h in [h] && to in visited;
    assert Reached(g, l, from, {to});
    ReachedIsPath(g, l, from, to);
  }

  lemma StopsExtend(g: Graph, metric: Metric, q: Vector, from: FabricId, hi: nat, lo: nat, stops: seq<FabricId>,
                    mid: FabricId, to: FabricId)
    requires Stops(g, metric, q, from, hi, stops) && |stops| == hi + 1 - lo && lo <= hi
    requires stops[|stops| - 1] == mid && to in g && mid in g && HasPath(g, lo, mid, to)
    requires LocallyNearest(g, metric, q, to, lo) && Dist(g, metric, q, to) <= Dist(g, metric, q, mid)
    ensures Stops(g, metric, q, from, hi, stops + [to])
  {
    hide HasPath, LocallyNearest;
    var r := stops + [to];
    assert forall x :: x in r ==> x in g;
    forall i | 0 <= i < |r| - 1
      ensures StopReached(g, metric, q, hi, r, i)
    {
      if i < |stops| - 1 {
        assert StopReached(g, metric, q, hi, stops, i);
      }
    }
  }

  /** The descent makes one stop on each of the layers hi, hi-1, .., lo. */
  lemma {:induction false} DescentStops(g: Graph, metric: Metric, q: Vector, from: FabricId, hi: nat, lo: nat,
                                        to: FabricId) returns (stops: seq<FabricId>)
    requires Descent(g, metric, q, from, hi, lo, to) && from in g
    ensures |stops| == Max(hi + 1 - lo, 0) + 1 && stops[|stops| - 1] == to
    ensures Stops(g, metric, q, from, hi, stops)
    decreases hi + 1 - lo
  {
    hide Descent, GreedyStep, HasPath, LocallyNearest, StopReached;
    if hi < lo {
      DescentNowhere(g, metric, q, from, hi, lo, to);
      stops := [from];
    } else {
      var mid := DescentSplit(g, metric, q, from, hi, lo, to);
      stops := DescentStops(g, metric, q, from, hi, lo + 1, mid);
      GreedyFollowsPath(g, metric, q, mid, lo, to);
      StopsExtend(g, metric, q, from, hi, lo, stops, mid, to);
      stops := stops + [to];
    }
  }

  // ---------------------------------------------------------------- the neighbours of a new node

  /** xs are distinct live nodes in ascending distance from v. */
  ghost predicate Ranked(g: Graph, metric: Metric, v: Vector, xs: seq<FabricId>) {
    && NoDuplicates(xs)
    && (forall x :: x in xs ==> x in g)
    && (forall i, j :: 0 <= i < j < |xs| && xs[i] in g && xs[j] in g
                       ==> Dist(g, metric, v, xs[i]) <= Dist(g, metric, v, xs[j]))
  }

  /** No live node of V outside xs is nearer to v than one in xs. */
  ghost predicate NoneNearer(g: Graph, metric: Metric, v: Vector, V: set<FabricId>, xs: seq<FabricId>) {
    forall x, y :: x in V && x in g && x !in xs && y in xs && y in g ==> Dist(g, metric, v, y) <= Dist(g, metric, v, x)
  }

  lemma HitIds(g: Graph, metric: Metric, v: Vector, out: seq<Hit>, n: nat)
    requires n <= |out| && NoDuplicates(Ids(out)) && Sorted(out)
    requires forall h :: h in out ==> h.id in g && h == HitFor(g, metric, v, h.id)
    ensures Ranked(g, metric, v, Ids(out[..n]))
  {
    PrefixIds(out, n);
    assert forall i :: 0 <= i < n ==> out[i] in out;
  }

  /** An id among the hits, but not among the first n, is farther than those. */
  lemma LaterIsFarther(g: Graph, metric: Metric, v: Vector, out: seq<Hit>, n: nat, x: FabricId, y: FabricId)
    requires n <= |out| && Sorted(out)
    requires forall h :: h in out ==> h.id in g && h == HitFor(g, metric, v, h.id)
    requires x in Ids(out) && x !in Ids(out[..n]) && y in Ids(out[..n])
    ensures x in g && y in g && Dist(g, metric, v, y) <= Dist(g, metric, v, x)
  {
    assert forall k :: 0 <= k < n ==> Ids(out[..n])[k] == out[k].id;
    var i := Position(out[..n], y);
    var j := Position(out, x);
    assert out[i] in out;
  }

  /** The first n hits of a beam are the nearest of the live nodes it visited. */
  lemma FirstHitsNearest(g: Graph, metric: Metric, v: Vector, start: FabricId, ef: nat, l: nat,
                         visited: set<FabricId>, out: seq<Hit>, n: nat)
    requires BeamResult(g, metric, v, start, ef, l, visited, out) && n <= |out|
    ensures Ranked(g, metric, v, Ids(out[..n])) && NoneNearer(g, metric, v, visited, Ids(out[..n]))
    ensures forall x :: x in Ids(out[..n]) ==> x in visited
  {
    hide Explored, Reached, Live, Ranked;
    HitIds(g, metric, v, out, n);
    forall y | y in Ids(out[..n])
      ensures y in visited
      ensures forall x :: x in visited && x in g && x !in Ids(out[..n])
                          ==> y in g && Dist(g, metric, v, y) <= Dist(g, metric, v, x)
    {
      var i := Position(out[..n], y);
      assert out[i] in out;
      forall x | x in visited && x in g && x !in Ids(out[..n])
        ensures y in g && Dist(g, metric, v, y) <= Dist(g, metric, v, x)
      {
        if x in Ids(out) {
          LaterIsFarther(g, metric, v, out, n, x, y);
        }
      }
    }
  }

  /** The beam search that chose the links of a new node on layer l. */
  lemma LinksFromBeam(s: Index, metric: Metric, p: Params, id: FabricId, v: Vector, level: nat, t: Index, l: nat)
    returns (start: FabricId, visited: set<FabricId>, out: seq<Hit>)
    requires InsertStep(s, metric, p, id, v, level, t) && s.entryPoint.Some?
    requires l <= level && l <= s.currentLevel
    ensures Descent(s.nodes, metric, v, s.entryPoint.value, s.currentLevel, level + 1, start)
    ensures BeamResult(s.nodes, metric, v, start, p.efConstruction, l, visited, out)
    ensures Links(t.nodes, id, l) == Ids(out[..Min(p.m, |out|)])
  {
    hide Descent, BeamResult;
    var chosen;
    start, chosen :| Descent(s.nodes, metric, v, s.entryPoint.value, s.currentLevel, level + 1, start)
                     && ChosenPerLayer(s, metric, p, v, start, level, chosen)
                     && t == s.(nodes := Linked(s.nodes, id, v, chosen));
    assert Chosen(s.nodes, metric, p, v, start, l, chosen[l]);
    visited, out :| BeamResult(s.nodes, metric, v, start, p.efConstruction, l, visited, out)
                    && chosen[l] == Ids(out[..Min(p.m, |out|)]);
    assert Links(t.nodes, id, l) == chosen[l];
  }

  lemma BeamCount(g: Graph, metric: Metric, v: Vector, start: FabricId, ef: nat, l: nat, visited: set<FabricId>,
                  out: seq<Hit>)
    requires BeamResult(g, metric, v, start, ef, l, visited, out)
    ensures |out| == Min(ef, |Live(g, visited)|) && start in visited && Reached(g, l, start, visited)
  {
    hide Explored, Reached, Live, Sorted, NoDuplicates;
  }

  /** An insertion stops once on each layer above the new node. On each layer that the node shares with the index,
      it is then linked to the nearest of the live nodes that a beam search from the last stop visits there:
      min(m, efConstruction, visited) of them, in ascending distance. */
  lemma InsertLinksNearest(s: Index, metric: Metric, p: Params, id: FabricId, v: Vector, level: nat, t: Index, l: nat)
    returns (stops: seq<FabricId>, visited: set<FabricId>)
    requires InsertStep(s, metric, p, id, v, level, t) && s.entryPoint.Some? && EntryLive(s)
    requires l <= level && l <= s.currentLevel
    ensures |stops| == Max(s.currentLevel - level, 0) + 1
    ensures Stops(s.nodes, metric, v, s.entryPoint.value, s.currentLevel, stops)
    ensures var start := stops[|stops| - 1]; start in visited && Reached(s.nodes, l, start, visited)
    ensures var links := Links(t.nodes, id, l);
            && |links| == Min(p.m, Min(p.efConstruction, |Live(s.nodes, visited)|))
            && Ranked(s.nodes, metric, v, links) && NoneNearer(s.nodes, metric, v, visited, links)
            && (forall x :: x in links ==> x in visited)
  {
    hide Descent, InsertStep, BeamResult, Ranked, NoneNearer, Reached, Stops, Live, Links;
    var start, out;
    start, visited, out := LinksFromBeam(s, metric, p, id, v, level, t, l);
    stops := DescentStops(s.nodes, metric, v, s.entryPoint.value, s.currentLevel, level + 1, start);
    FirstHitsNearest(s.nodes, metric, v, start, p.efConstruction, l, visited, out, Min(p.m, |out|));
    BeamCount(s.nodes, metric, v, start, p.efConstruction, l, visited, out);
  }

  /** A layer is visited as a whole by a beam that is wide enough. */
  lemma WideBeamVisitsLayer(s: Index, metric: Metric, v: Vector, start: FabricId, ef: nat, l: nat,
                            visited: set<FabricId>, out: seq<Hit>)
    requires Layered(s) && l <= s.currentLevel && s.entryPoint.Some? && ef >= |LayerSet(s.nodes, l)|
    requires OnLayer(s.nodes, start, l) && BeamResult(s.nodes, metric, v, start, ef, l, visited, out)
    ensures LayerSet(s.nodes, l) <= visited && |out| == |LayerSet(s.nodes, l)|
    ensures Live(s.nodes, visited) == LayerSet(s.nodes, l)
  {
    assert LinksWellFormed(s.nodes, l);
    assert NoDuplicates(Ids(out)) && |Ids(out)| == |out|;
    assert forall h :: h in out ==> h.id in visited;
    hide Layered, BeamResult, LinksWellFormed, NoDuplicates;
    DistinctCount(Ids(out));
    WideBeamFindsLayer(s, metric, v, start, ef, l, visited, out);
    BeamStaysOnLayer(s.nodes, metric, v, start, ef, l, visited, out);
    forall x | x in LayerSet(s.nodes, l)
      ensures x in visited
    {
      assert x in Elements(Ids(out));
      var i := Position(out, x);
    }
  }

  /** An insertion searches layer l from one of the nodes of that layer. */
  lemma DescentReachesLayer(s: Index, metric: Metric, v: Vector, level: nat, start: FabricId, l: nat)
    requires Layered(s) && s.entryPoint.Some? && l <= level && l <= s.currentLevel
    requires Descent(s.nodes, metric, v, s.entryPoint.value, s.currentLevel, level + 1, start)
    ensures OnLayer(s.nodes, start, l)
  {
    hide Descent;
    LayeredLinksAreLive(s);
    DescentStaysOnLayer(s.nodes, metric, v, s.entryPoint.value, s.currentLevel, level + 1, start);
  }

  lemma LinksWithin(g: Graph, metric: Metric, v: Vector, layer: set<FabricId>, visited: set<FabricId>,
                    links: seq<FabricId>)
    requires layer <= visited && Live(g, visited) == layer && Ranked(g, metric, v, links)
    requires NoneNearer(g, metric, v, visited, links) && forall x :: x in links ==> x in visited
    ensures NoneNearer(g, metric, v, layer, links) && forall x :: x in links ==> x in layer
  {
  }

  /** With a beam as wide as the index, the links of a new node are the m nearest nodes of each layer,
      in ascending distance. */
  lemma InsertLinksNearestOfLayer(s: Index, metric: Metric, p: Params, id: FabricId, v: Vector, level: nat, t: Index,
                                  l: nat)
    requires Layered(s) && InsertStep(s, metric, p, id, v, level, t) && s.entryPoint.Some?
    requires p.efConstruction >= |s.nodes| && l <= level && l <= s.currentLevel
    ensures var links := Links(t.nodes, id, l);
            && |links| == Min(p.m, |LayerSet(s.nodes, l)|)
            && Ranked(s.nodes, metric, v, links) && NoneNearer(s.nodes, metric, v, LayerSet(s.nodes, l), links)
            && (forall x :: x in links ==> OnLayer(s.nodes, x, l))
  {
    var g := s.nodes;
    var layer := LayerSet(g, l);
    SubsetCount(layer, g.Keys);
    assert forall x :: x in layer <==> OnLayer(g, x, l);
    hide *;
    var start, visited, out := LinksFromBeam(s, metric, p, id, v, level, t, l);
    DescentReachesLayer(s, metric, v, level, start, l);
    WideBeamVisitsLayer(s, metric, v, start, p.efConstruction, l, visited, out);
    FirstHitsNearest(g, metric, v, start, p.efConstruction, l, visited, out, Min(p.m, |out|));
    LinksWithin(g, metric, v, layer, visited, Links(t.nodes, id, l));
  }

  /** The nodes that a new node links to link back to it where they reach the layer. No other links change. */
  lemma InsertLinksBack(s: Index, metric: Metric, p: Params, id: FabricId, v: Vector, level: nat, t: Index,
                        x: FabricId, l: nat)
    requires InsertStep(s, metric, p, id, v, level, t) && x in s.nodes && x != id
    ensures x in t.nodes && t.nodes[x].vector == s.nodes[x].vector
    ensures Links(t.nodes, x, l) ==
            if x in Links(t.nodes, id, l) && OnLayer(s.nodes, x, l) && id !in Links(s.nodes, x, l)
            then Links(s.nodes, x, l) + [id] else Links(s.nodes, x, l)
  {
  }

  // ---------------------------------------------------------------- a search in any graph

  lemma AnswerIsMeasured(g: Graph, metric: Metric, q: Vector, k: nat, out: seq<Hit>)
    requires forall h :: h in out ==> h.id in g && h == HitFor(g, metric, q, h.id)
    ensures forall n :: n in FirstNeighbors(g, metric, q, k, out)
                        ==> n.id in g && n.distance == Dist(g, metric, q, n.id)
                            && n.similarity == metric.similarity(q, g[n.id].vector)
  {
    forall n | n in FirstNeighbors(g, metric, q, k, out)
      ensures n.id in g && n.distance == Dist(g, metric, q, n.id)
      ensures n.similarity == metric.similarity(q, g[n.id].vector)
    {
      var i :| 0 <= i < Min(k, |out|) && FirstNeighbors(g, metric, q, k, out)[i] == n;
      assert out[i] in out;
    }
  }

  lemma SearchParts(s: Index, metric: Metric, q: Vector, k: nat, ef: nat, res: seq<Neighbor>)
    returns (start: FabricId, visited: set<FabricId>, out: seq<Hit>)
    requires SearchStep(s, metric, q, k, ef, res) && s.entryPoint.Some?
    ensures Descent(s.nodes, metric, q, s.entryPoint.value, s.currentLevel, 1, start)
    ensures BeamResult(s.nodes, metric, q, start, Max(ef, k), 0, visited, out)
    ensures res == FirstNeighbors(s.nodes, metric, q, k, out) && |res| == Min(k, |out|)
    ensures |out| == Min(Max(ef, k), |Live(s.nodes, visited)|)
    ensures start in visited && Reached(s.nodes, 0, start, visited)
    ensures forall h :: h in out ==> h.id in s.nodes && h == HitFor(s.nodes, metric, q, h.id)
  {
    start, visited, out :| Descent(s.nodes, metric, q, s.entryPoint.value, s.currentLevel, 1, start)
                           && BeamResult(s.nodes, metric, q, start, Max(ef, k), 0, visited, out)
                           && res == FirstNeighbors(s.nodes, metric, q, k, out);
    hide Descent, Explored, Reached;
  }

  /** A search stops once on each layer above the lowest, and answers with the nearest of the live nodes that a
      beam search from the last stop visits on the lowest layer. */
  lemma SearchDescends(s: Index, metric: Metric, q: Vector, k: nat, ef: nat, res: seq<Neighbor>)
    returns (stops: seq<FabricId>, visited: set<FabricId>)
    requires SearchStep(s, metric, q, k, ef, res) && s.entryPoint.Some? && EntryLive(s)
    ensures |stops| == s.currentLevel + 1 && Stops(s.nodes, metric, q, s.entryPoint.value, s.currentLevel, stops)
    ensures stops[s.currentLevel] in visited && Reached(s.nodes, 0, stops[s.currentLevel], visited)
    ensures var ids := Ids(Hits(res));
            && |res| == Min(k, Min(Max(ef, k), |Live(s.nodes, visited)|))
            && Ranked(s.nodes, metric, q, ids) && NoneNearer(s.nodes, metric, q, visited, ids)
            && (forall x :: x in ids ==> x in visited)
            && (forall n :: n in res ==> n.id in s.nodes && n.distance == Dist(s.nodes, metric, q, n.id)
                                         && n.similarity == metric.similarity(q, s.nodes[n.id].vector))
  {
    hide Descent, BeamResult, SearchStep, Ranked, NoneNearer, Reached, Stops, Live, FirstNeighbors;
    var e := s.entryPoint.value;
    var start, out;
    start, visited, out := SearchParts(s, metric, q, k, ef, res);
    stops := DescentStops(s.nodes, metric, q, e, s.currentLevel, 1, start);
    FirstHitsNearest(s.nodes, metric, q, start, Max(ef, k), 0, visited, out, Min(k, |out|));
    HitsOfFirst(s.nodes, metric, q, k, out);
    AnswerIsMeasured(s.nodes, metric, q, k, out);
  }

  // ---------------------------------------------------------------- heights and the entry point

  /** The first node inserted stays the entry point, and its height the height of the index. */
  lemma {:induction false} RunEntryFixed(metric: Metric, p: Params, h: seq<Insertion>, t: Index)
    requires Run(metric, p, h, t) && h != []
    ensures t.entryPoint == Some(h[0].id) && t.currentLevel == h[0].level
  {
    var n := |h| - 1;
    var s := RunSplit(metric, p, h, t);
    if n > 0 {
      RunEntryFixed(metric, p, h[..n], s);
    }
  }

  lemma InsertKeepsHeights(s: Index, metric: Metric, p: Params, id: FabricId, v: Vector, level: nat, t: Index)
    requires InsertStep(s, metric, p, id, v, level, t)
    ensures id in t.nodes && |t.nodes[id].layers| == level + 1
    ensures forall x :: x in s.nodes && x != id ==> x in t.nodes && |t.nodes[x].layers| == |s.nodes[x].layers|
  {
  }

  /** Every node keeps the height it was inserted with. */
  lemma {:induction false} RunHeights(metric: Metric, p: Params, h: seq<Insertion>, t: Index, i: nat)
    requires Run(metric, p, h, t) && FreshIds(h) && i < |h|
    ensures h[i].id in t.nodes && |t.nodes[h[i].id].layers| == h[i].level + 1
  {
    var n := |h| - 1;
    var r := h[n];
    var s := RunSplit(metric, p, h, t);
    InsertKeepsHeights(s, metric, p, r.id, r.vector, r.level, t);
    if i < n {
      RunHeights(metric, p, h[..n], s, i);
    }
  }
}
