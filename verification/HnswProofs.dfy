/** What insertions keep and what a search therefore finds. */
module HnswProofs {
  import opened Common
  import opened Hnsw

  // ---------------------------------------------------------------- the graph invariant

  ghost predicate LinksWellFormed(g: Graph, l: nat) {
    forall x :: x in g ==>
      && NoDuplicates(Links(g, x, l))
      && forall y :: y in Links(g, x, l) ==> OnLayer(g, y, l) && y != x && x in Links(g, y, l)
  }

  /** Every node of layer l can be reached from `from` on layer l. */
  ghost predicate Connected(g: Graph, l: nat, from: FabricId) {
    OnLayer(g, from, l) &&
    forall S: set<FabricId> :: Closed(g, l, S) && from in S ==> forall x :: OnLayer(g, x, l) ==> x in S
  }

  ghost predicate Layered(s: Index) {
    && (forall x :: x in s.nodes ==> s.nodes[x].id == x && |s.nodes[x].layers| >= 1)
    && (forall l: nat :: LinksWellFormed(s.nodes, l))
    && (forall x, l: nat :: l > s.currentLevel ==> Links(s.nodes, x, l) == [])
    && match s.entryPoint
       case None => s.nodes == map[]
       case Some(e) =>
         && e in s.nodes && |s.nodes[e].layers| == s.currentLevel + 1
         && forall l: nat :: l <= s.currentLevel ==> Connected(s.nodes, l, e)
  }

  ghost function LayerSet(g: Graph, l: nat): set<FabricId> {
    set x | x in g && OnLayer(g, x, l)
  }

  /** A beam that follows the links of its entry and then stops. */
  lemma ExploredOnce(g: Graph, metric: Metric, q: Vector, entry: FabricId, ef: nat, l: nat, visited: set<FabricId>)
    requires entry in g && visited == {entry} + Elements(Links(g, entry, l))
    requires Stopped(g, metric, q, visited, {entry}, Max(ef, 1))
    ensures Explored(g, metric, q, entry, ef, l, visited)
  {
    var order := [entry];
    assert order[..0] == [] && Elements(order[..0]) == {} && Elements(order) == {entry};
    assert Visited(g, entry, l, []) == {entry} && Followed(g, metric, q, entry, Max(ef, 1), l, []);
    assert Nearer(g, metric, q, {entry}, entry) == {};
    assert IsNext(g, metric, q, {entry}, {}, Max(ef, 1), entry);
    hide IsNext, Stopped, Nearer, Links;
    assert Followed(g, metric, q, entry, Max(ef, 1), l, order);
    assert Visited(g, entry, l, order) == visited;
  }

  /** A search that starts on a layer stays on it. */
  lemma BeamStaysOnLayer(g: Graph, metric: Metric, q: Vector, entry: FabricId, ef: nat, l: nat,
                         visited: set<FabricId>, out: seq<Hit>)
    requires BeamResult(g, metric, q, entry, ef, l, visited, out)
    requires LinksWellFormed(g, l) && OnLayer(g, entry, l)
    ensures visited <= LayerSet(g, l)
  {
    assert Closed(g, l, LayerSet(g, l));
  }

  /** The same for the links of live nodes only, which removals leave in order: links to removed
      nodes may remain. */
  ghost predicate LiveLinksWellFormed(g: Graph, l: nat) {
    forall x :: x in g ==>
      && NoDuplicates(Links(g, x, l))
      && forall y :: y in Links(g, x, l) ==> y != x && (y in g ==> OnLayer(g, y, l) && x in Links(g, y, l))
  }

  ghost predicate LiveLinks(g: Graph) {
    forall l: nat :: LiveLinksWellFormed(g, l)
  }

  lemma LiveLinksAt(g: Graph, l: nat)
    requires LiveLinks(g)
    ensures LiveLinksWellFormed(g, l)
  {
    hide LiveLinksWellFormed;
  }

  lemma LayeredLinksAreLive(s: Index)
    requires Layered(s)
    ensures LiveLinks(s.nodes)
  {
    forall l: nat
      ensures LiveLinksWellFormed(s.nodes, l)
    {
      assert LinksWellFormed(s.nodes, l);
    }
  }

  /** All link targets of a layer. */
  function Mentioned(g: Graph, l: nat): set<FabricId> {
    set x, j | x in g && l < |g[x].layers| && 0 <= j < |g[x].layers[l]| :: g[x].layers[l][j]
  }

  lemma LinksAreMentioned(g: Graph, l: nat, x: FabricId, y: FabricId)
    requires y in Links(g, x, l)
    ensures y in Mentioned(g, l)
  {
    var j :| 0 <= j < |Links(g, x, l)| && Links(g, x, l)[j] == y;
  }

  /** The live nodes that a search visits are on its layer. */
  lemma LiveBeamOnLayer(g: Graph, metric: Metric, q: Vector, entry: FabricId, ef: nat, l: nat,
                        visited: set<FabricId>, out: seq<Hit>)
    requires BeamResult(g, metric, q, entry, ef, l, visited, out)
    requires LiveLinksWellFormed(g, l) && OnLayer(g, entry, l)
    ensures Live(g, visited) <= LayerSet(g, l)
  {
    hide Explored, Sorted, NoDuplicates;
    var S := LayerSet(g, l) + (Mentioned(g, l) - g.Keys);
    forall a, b | a in S && b in Links(g, a, l)
      ensures b in S
    {
      LinksAreMentioned(g, l, a, b);
    }
    assert Closed(g, l, S) && entry in S;
  }

  lemma GreedyStaysOnLayer(g: Graph, metric: Metric, q: Vector, from: FabricId, l: nat, to: FabricId)
    requires LiveLinksWellFormed(g, l) && OnLayer(g, from, l) && GreedyStep(g, metric, q, from, l, to)
    ensures OnLayer(g, to, l)
  {
    var h := HitFor(g, metric, q, to);
    var visited :| BeamResult(g, metric, q, from, 1, l, visited, [h]);
    assert h in [h] && to in visited;
    hide BeamResult, LiveLinksWellFormed, OnLayer;
    LiveBeamOnLayer(g, metric, q, from, 1, l, visited, [h]);
    assert to in Live(g, visited) && to in LayerSet(g, l);
  }

  lemma DescentNowhere(g: Graph, metric: Metric, q: Vector, from: FabricId, hi: nat, lo: nat, to: FabricId)
    requires hi < lo && Descent(g, metric, q, from, hi, lo, to)
    ensures to == from
  {
  }

  lemma DescentSplit(g: Graph, metric: Metric, q: Vector, from: FabricId, hi: nat, lo: nat, to: FabricId)
    returns (mid: FabricId)
    requires lo <= hi && Descent(g, metric, q, from, hi, lo, to)
    ensures Descent(g, metric, q, from, hi, lo + 1, mid) && GreedyStep(g, metric, q, mid, lo, to)
  {
    hide GreedyStep;
    mid :| Descent(g, metric, q, from, hi, lo + 1, mid) && GreedyStep(g, metric, q, mid, lo, to);
  }

  /** The greedy descent ends on the layer above which it stops, or where it began. */
  lemma {:induction false} DescentStaysOnLayer(g: Graph, metric: Metric, q: Vector, e: FabricId, hi: nat, lo: nat,
                                               to: FabricId)
    requires LiveLinks(g) && OnLayer(g, e, hi)
    requires Descent(g, metric, q, e, hi, lo, to)
    ensures OnLayer(g, to, Min(lo, hi))
    decreases hi + 1 - lo
  {
    hide LiveLinks, LiveLinksWellFormed, Descent, GreedyStep;
    if lo > hi {
      DescentNowhere(g, metric, q, e, hi, lo, to);
    } else {
      LiveLinksAt(g, lo);
      var mid := DescentSplit(g, metric, q, e, hi, lo, to);
      DescentStaysOnLayer(g, metric, q, e, hi, lo + 1, mid);
      GreedyStaysOnLayer(g, metric, q, mid, lo, to);
    }
  }

  /** The first hits of a beam are some of the live nodes it visited, each once. */
  lemma FirstHits(g: Graph, metric: Metric, q: Vector, start: FabricId, ef: nat, l: nat,
                  visited: set<FabricId>, out: seq<Hit>, n: nat)
    requires BeamResult(g, metric, q, start, ef, l, visited, out) && n <= |out|
    ensures ef >= 1 ==> out != []
    ensures NoDuplicates(Ids(out[..n])) && forall y :: y in Ids(out[..n]) ==> y in Live(g, visited)
  {
    SubsetCount({start}, Live(g, visited));
    PrefixIds(out, n);
    forall y | y in Ids(out[..n])
      ensures y in Live(g, visited)
    {
      var i :| 0 <= i < n && Ids(out[..n])[i] == y;
      assert out[i] in out;
    }
  }

  /** A new node gets distinct neighbours of the right height on every layer it shares with the
      index, and with m >= 1 and a beam of at least one it gets some. */
  lemma ChosenAreOnLayer(g: Graph, metric: Metric, p: Params, q: Vector, start: FabricId, l: nat, c: seq<FabricId>)
    requires LiveLinksWellFormed(g, l) && OnLayer(g, start, l)
    requires Chosen(g, metric, p, q, start, l, c)
    ensures NoDuplicates(c) && forall y :: y in c ==> OnLayer(g, y, l)
    ensures p.m >= 1 && p.efConstruction >= 1 ==> c != []
  {
    hide BeamResult, LiveLinksWellFormed, OnLayer, NoDuplicates;
    var visited, out :| BeamResult(g, metric, q, start, p.efConstruction, l, visited, out)
                        && c == Ids(out[..Min(p.m, |out|)]);
    FirstHits(g, metric, q, start, p.efConstruction, l, visited, out, Min(p.m, |out|));
    LiveBeamOnLayer(g, metric, q, start, p.efConstruction, l, visited, out);
    assert forall y :: y in c ==> y in LayerSet(g, l);
  }

  // ---------------------------------------------------------------- one insertion keeps it

  /** The hypotheses of an insertion into a non-empty index, digested. */
  ghost predicate Choice(s: Index, id: FabricId, chosen: seq<seq<FabricId>>) {
    && s.entryPoint.Some? && id !in s.nodes && |chosen| >= 1
    && (forall l: nat :: l < |chosen| && l <= s.currentLevel ==>
          && chosen[l] != [] && NoDuplicates(chosen[l])
          && forall y :: y in chosen[l] ==> OnLayer(s.nodes, y, l))
    && (forall l: nat :: s.currentLevel < l < |chosen| ==> chosen[l] == [])
  }

  /** What linking a new node does to the links of layer l. */
  lemma LinkedLinks(g: Graph, id: FabricId, v: Vector, chosen: seq<seq<FabricId>>, x: FabricId, l: nat)
    requires id !in g && id !in Links(g, x, l)
    requires l < |chosen| ==> forall y :: y in chosen[l] ==> OnLayer(g, y, l)
    ensures OnLayer(Linked(g, id, v, chosen), x, l) <==> if x == id then l < |chosen| else OnLayer(g, x, l)
    ensures x == id ==> Links(Linked(g, id, v, chosen), x, l) == if l < |chosen| then chosen[l] else []
    ensures x != id ==>
              Links(Linked(g, id, v, chosen), x, l) ==
              Links(g, x, l) + (if l < |chosen| && x in chosen[l] then [id] else [])
  {
  }

  lemma NewLinks(s: Index, id: FabricId, v: Vector, chosen: seq<seq<FabricId>>, x: FabricId, l: nat)
    requires Layered(s) && Choice(s, id, chosen)
    ensures OnLayer(Linked(s.nodes, id, v, chosen), x, l) <==>
            if x == id then l < |chosen| else OnLayer(s.nodes, x, l)
    ensures x == id ==> Links(Linked(s.nodes, id, v, chosen), x, l) == if l < |chosen| then chosen[l] else []
    ensures x != id ==>
              Links(Linked(s.nodes, id, v, chosen), x, l) ==
              Links(s.nodes, x, l) + (if l < |chosen| && x in chosen[l] then [id] else [])
    ensures id !in Links(s.nodes, x, l)
  {
    assert LinksWellFormed(s.nodes, l);
    hide Layered, LinksWellFormed, Linked;
    LinkedLinks(s.nodes, id, v, chosen, x, l);
  }

  lemma LinkedWellFormed(s: Index, id: FabricId, v: Vector, chosen: seq<seq<FabricId>>, l: nat)
    requires Layered(s) && Choice(s, id, chosen)
    ensures LinksWellFormed(Linked(s.nodes, id, v, chosen), l)
  {
    var g' := Linked(s.nodes, id, v, chosen);
    assert LinksWellFormed(s.nodes, l);
    forall x | x in g'
      ensures NoDuplicates(Links(g', x, l))
      ensures forall y :: y in Links(g', x, l) ==> OnLayer(g', y, l) && y != x && x in Links(g', y, l)
    {
      NewLinks(s, id, v, chosen, x, l);
      if x != id {
        assert NoDuplicates(Links(s.nodes, x, l));
      }
      forall y | y in Links(g', x, l)
        ensures OnLayer(g', y, l) && y != x && x in Links(g', y, l)
      {
        NewLinks(s, id, v, chosen, y, l);
      }
    }
  }

  lemma LinkedConnected(s: Index, id: FabricId, v: Vector, chosen: seq<seq<FabricId>>, l: nat)
    requires Layered(s) && Choice(s, id, chosen) && l <= s.currentLevel
    ensures Connected(Linked(s.nodes, id, v, chosen), l, s.entryPoint.value)
  {
    var g', e := Linked(s.nodes, id, v, chosen), s.entryPoint.value;
    assert Connected(s.nodes, l, e);
    NewLinks(s, id, v, chosen, e, l);
    forall S: set<FabricId>, x | Closed(g', l, S) && e in S && OnLayer(g', x, l)
      ensures x in S
    {
      forall a, b | a in S && b in Links(s.nodes, a, l)
        ensures b in S
      {
        NewLinks(s, id, v, chosen, a, l);
        assert b in Links(g', a, l);
      }
      assert Closed(s.nodes, l, S);
      NewLinks(s, id, v, chosen, x, l);
      if x == id {
        var y := chosen[l][0];
        NewLinks(s, id, v, chosen, y, l);
        assert y in chosen[l] && y in S && id in Links(g', y, l);
      }
    }
  }

  lemma LinkedLayered(s: Index, id: FabricId, v: Vector, chosen: seq<seq<FabricId>>)
    requires Layered(s) && Choice(s, id, chosen)
    ensures Layered(s.(nodes := Linked(s.nodes, id, v, chosen)))
  {
    var g' := Linked(s.nodes, id, v, chosen);
    forall l: nat
      ensures LinksWellFormed(g', l)
    {
      LinkedWellFormed(s, id, v, chosen, l);
    }
    forall x, l: nat | l > s.currentLevel
      ensures Links(g', x, l) == []
    {
      NewLinks(s, id, v, chosen, x, l);
    }
    forall l: nat | l <= s.currentLevel
      ensures Connected(g', l, s.entryPoint.value)
    {
      LinkedConnected(s, id, v, chosen, l);
    }
  }

  lemma FirstLayered(id: FabricId, v: Vector, level: nat)
    ensures Layered(Index(map[id := Node(id, v, seq(level + 1, _ => []))], Some(id), level))
  {
  }

  lemma ChoiceFrom(s: Index, metric: Metric, p: Params, id: FabricId, v: Vector, level: nat,
                   start: FabricId, chosen: seq<seq<FabricId>>)
    requires Layered(s) && s.entryPoint.Some? && id !in s.nodes
    requires p.m >= 1 && p.efConstruction >= 1
    requires Descent(s.nodes, metric, v, s.entryPoint.value, s.currentLevel, level + 1, start)
    requires ChosenPerLayer(s, metric, p, v, start, level, chosen)
    ensures Choice(s, id, chosen)
  {
    LayeredLinksAreLive(s);
    DescentStaysOnLayer(s.nodes, metric, v, s.entryPoint.value, s.currentLevel, level + 1, start);
    forall l: nat | l < |chosen| && l <= s.currentLevel
      ensures chosen[l] != [] && NoDuplicates(chosen[l]) && forall y :: y in chosen[l] ==> OnLayer(s.nodes, y, l)
    {
      assert LiveLinksWellFormed(s.nodes, l);
      ChosenAreOnLayer(s.nodes, metric, p, v, start, l, chosen[l]);
    }
  }

  /** Inserting a fresh id keeps the graph invariant, whatever height was drawn,
      and adds that id with its vector. */
  lemma InsertKeepsLayered(s: Index, metric: Metric, p: Params, id: FabricId, v: Vector, level: nat, t: Index)
    requires Layered(s) && InsertStep(s, metric, p, id, v, level, t)
    requires p.m >= 1 && p.efConstruction >= 1 && id !in s.nodes
    ensures Layered(t)
    ensures t.nodes.Keys == s.nodes.Keys + {id} && t.nodes[id].vector == v
    ensures forall x :: x in s.nodes ==> t.nodes[x].vector == s.nodes[x].vector
  {
    if s.entryPoint == None {
      FirstLayered(id, v, level);
      assert s.nodes[id := Node(id, v, seq(level + 1, _ => []))] == map[id := Node(id, v, seq(level + 1, _ => []))];
    } else {
      var start, chosen :| Descent(s.nodes, metric, v, s.entryPoint.value, s.currentLevel, level + 1, start)
                           && ChosenPerLayer(s, metric, p, v, start, level, chosen)
                           && t == s.(nodes := Linked(s.nodes, id, v, chosen));
      assert Layered(t) by {
        ChoiceFrom(s, metric, p, id, v, level, start, chosen);
        LinkedLayered(s, id, v, chosen);
      }
      assert LinkedFrom(s.nodes, id, chosen, 0).Keys == s.nodes.Keys;
    }
  }
}
