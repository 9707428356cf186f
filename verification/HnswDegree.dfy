/** What the parameter m bounds, and what it does not. */
module HnswDegree {
  import opened Common
  import opened Hnsw
  import opened HnswProofs
  import opened HnswTheorems

  function HistoryIds(h: seq<Insertion>): seq<FabricId> {
    seq(|h|, i requires 0 <= i < |h| => h[i].id)
  }

  /** Number of link ends the given nodes hold on layer l. */
  function LinkEnds(g: Graph, l: nat, ids: seq<FabricId>): nat {
    if ids == [] then 0 else LinkEnds(g, l, ids[..|ids| - 1]) + |Links(g, ids[|ids| - 1], l)|
  }

  /** If only the members of C gain a link, and one each, at most |C| links are gained. */
  lemma {:induction false} GainedLinkEnds(g: Graph, g': Graph, l: nat, ids: seq<FabricId>, C: set<FabricId>)
    requires NoDuplicates(ids)
    requires forall x :: x in ids ==> |Links(g', x, l)| <= |Links(g, x, l)| + (if x in C then 1 else 0)
    ensures LinkEnds(g', l, ids) <= LinkEnds(g, l, ids) + |C|
    decreases |ids|
  {
    if ids != [] {
      var n := |ids| - 1;
      var D := C - {ids[n]};
      GainedLinkEnds(g, g', l, ids[..n], D);
      if ids[n] in C {
        assert |D| == |C| - 1;
      } else {
        assert D == C;
      }
    }
  }

  /** Inserting into a non-empty index adds at most 2 m link ends to a layer. */
  lemma ChoiceAddsLinkEnds(s: Index, p: Params, id: FabricId, v: Vector, chosen: seq<seq<FabricId>>, l: nat,
                           ids: seq<FabricId>)
    requires Layered(s) && Choice(s, id, chosen) && NoDuplicates(ids) && id !in ids
    requires l < |chosen| ==> |chosen[l]| <= p.m
    ensures LinkEnds(Linked(s.nodes, id, v, chosen), l, ids + [id]) <= LinkEnds(s.nodes, l, ids) + 2 * p.m
  {
    var g' := Linked(s.nodes, id, v, chosen);
    var C := if l < |chosen| then Elements(chosen[l]) else {};
    forall x | x in ids
      ensures |Links(g', x, l)| <= |Links(s.nodes, x, l)| + (if x in C then 1 else 0)
    {
      NewLinks(s, id, v, chosen, x, l);
    }
    GainedLinkEnds(s.nodes, g', l, ids, C);
    NewLinks(s, id, v, chosen, id, l);
    if l < |chosen| {
      ElementsBound(chosen[l]);
    }
    assert (ids + [id])[..|ids|] == ids;
  }

  lemma ChosenAtMostM(s: Index, metric: Metric, p: Params, v: Vector, start: FabricId, level: nat,
                      chosen: seq<seq<FabricId>>, l: nat)
    requires ChosenPerLayer(s, metric, p, v, start, level, chosen) && l < |chosen|
    ensures |chosen[l]| <= p.m
  {
    if l <= s.currentLevel {
      assert Chosen(s.nodes, metric, p, v, start, l, chosen[l]);
    }
  }

  lemma InsertAddsLinkEnds(s: Index, metric: Metric, p: Params, r: Insertion, t: Index, l: nat, ids: seq<FabricId>)
    requires Layered(s) && InsertStep(s, metric, p, r.id, r.vector, r.level, t)
    requires p.m >= 1 && p.efConstruction >= 1 && r.id !in s.nodes
    requires NoDuplicates(ids) && r.id !in ids
    ensures s.entryPoint.Some? ==> LinkEnds(t.nodes, l, ids + [r.id]) <= LinkEnds(s.nodes, l, ids) + 2 * p.m
  {
    if s.entryPoint.Some? {
      var start, chosen :| Descent(s.nodes, metric, r.vector, s.entryPoint.value, s.currentLevel, r.level + 1, start)
                           && ChosenPerLayer(s, metric, p, r.vector, start, r.level, chosen)
                           && t == s.(nodes := Linked(s.nodes, r.id, r.vector, chosen));
      ChoiceFrom(s, metric, p, r.id, r.vector, r.level, start, chosen);
      if l < |chosen| {
        ChosenAtMostM(s, metric, p, r.vector, start, r.level, chosen, l);
      }
      ChoiceAddsLinkEnds(s, p, r.id, r.vector, chosen, l, ids);
    }
  }

  lemma IdsOfHistory(h: seq<Insertion>)
    requires FreshIds(h) && h != []
    ensures NoDuplicates(HistoryIds(h))
    ensures HistoryIds(h) == HistoryIds(h[..|h| - 1]) + [h[|h| - 1].id]
    ensures h[|h| - 1].id !in HistoryIds(h[..|h| - 1])
  {
  }

  lemma {:induction false} EntryAfterInsertions(metric: Metric, p: Params, h: seq<Insertion>, t: Index)
    requires Run(metric, p, h, t)
    ensures t.entryPoint.Some? <==> h != []
  {
    if h != [] {
      var n := |h| - 1;
      var s :| Run(metric, p, h[..n], s) && InsertStep(s, metric, p, h[n].id, h[n].vector, h[n].level, t);
    }
  }

  lemma FirstLinkEnds(metric: Metric, p: Params, h: seq<Insertion>, t: Index, l: nat)
    requires Run(metric, p, h, t) && |h| == 1
    ensures LinkEnds(t.nodes, l, HistoryIds(h)) == 0
  {
    assert h[..0] == [];
    assert Links(t.nodes, h[0].id, l) == [];
    assert HistoryIds(h)[..0] == [];
  }

  lemma RunAddsLinkEnds(metric: Metric, p: Params, h: seq<Insertion>, s: Index, t: Index, l: nat)
    requires |h| >= 2 && FreshIds(h) && p.m >= 1 && p.efConstruction >= 1
    requires Run(metric, p, h[..|h| - 1], s)
    requires InsertStep(s, metric, p, h[|h| - 1].id, h[|h| - 1].vector, h[|h| - 1].level, t)
    ensures LinkEnds(t.nodes, l, HistoryIds(h)) <= LinkEnds(s.nodes, l, HistoryIds(h[..|h| - 1])) + 2 * p.m
  {
    hide Run, InsertStep, Layered, FreshIds, Inserted, LinkEnds, HistoryIds;
    var n := |h| - 1;
    FreshPrefix(h);
    RunKeepsLayered(metric, p, h[..n], s);
    assert h[n].id !in Vectors(s.nodes);
    IdsOfHistory(h);
    IdsOfHistory(h[..n]);
    EntryAfterInsertions(metric, p, h[..n], s);
    InsertAddsLinkEnds(s, metric, p, h[n], t, l, HistoryIds(h[..n]));
  }

  /** The bound 2 m (n - 1) as a sum. */
  function Budget(m: nat, n: nat): (b: nat)
    ensures n >= 1 ==> b == 2 * m * (n - 1)
  {
    if n <= 1 then 0 else Budget(m, n - 1) + 2 * m
  }

  /** m bounds the links of a layer on average: n nodes hold at most 2 m (n - 1) link ends. */
  lemma {:induction false} AverageDegree(metric: Metric, p: Params, h: seq<Insertion>, t: Index, l: nat)
    requires Run(metric, p, h, t) && FreshIds(h) && p.m >= 1 && p.efConstruction >= 1 && h != []
    ensures LinkEnds(t.nodes, l, HistoryIds(h)) <= Budget(p.m, |h|)
  {
    var n := |h| - 1;
    if n == 0 {
      FirstLinkEnds(metric, p, h, t, l);
    } else {
      var s :| Run(metric, p, h[..n], s) && InsertStep(s, metric, p, h[n].id, h[n].vector, h[n].level, t);
      AverageDegree(metric, p, h[..n], s, l);
      RunAddsLinkEnds(metric, p, h, s, t, l);
    }
  }

  // ---------------------------------------------------------------- m is not a bound per node

  /** A metric for which the empty vector is nearest to everything. */
  const LENGTH := Metric((q, v) => |v| as real, (q, v) => 0.0)

  /** An index of one layer in which every node is linked with the entry a only. */
  function Star(a: FabricId, others: seq<FabricId>): Index {
    Index((map x | x in others :: Node(x, [1.0], [[a]]))[a := Node(a, [], [others])], Some(a), 0)
  }

  function StarHistory(a: FabricId, others: seq<FabricId>): seq<Insertion> {
    [Insertion(a, [], 0)] + seq(|others|, i requires 0 <= i < |others| => Insertion(others[i], [1.0], 0))
  }

  lemma StarLinks(a: FabricId, others: seq<FabricId>)
    requires NoDuplicates(others) && a !in others
    ensures Star(a, others).nodes.Keys == Elements(others) + {a}
    ensures Links(Star(a, others).nodes, a, 0) == others
    ensures forall x :: x in others ==> Links(Star(a, others).nodes, x, 0) == [a]
    ensures Reached(Star(a, others).nodes, 0, a, Elements(others) + {a})
  {
    var g := Star(a, others).nodes;
    forall S: set<FabricId> | Closed(g, 0, S) && a in S
      ensures Elements(others) + {a} <= S
    {
      assert forall x :: x in others ==> x in Links(g, a, 0);
    }
  }

  lemma StarExplored(a: FabricId, others: seq<FabricId>, v: Vector)
    requires NoDuplicates(others) && a !in others
    ensures Explored(Star(a, others).nodes, LENGTH, v, a, 1, 0, Elements(others) + {a})
  {
    var g, visited := Star(a, others).nodes, Elements(others) + {a};
    StarLinks(a, others);
    forall y | y in visited && y in g && y != a
      ensures |Nearer(g, LENGTH, v, visited, y)| >= 1
    {
      assert a in Nearer(g, LENGTH, v, visited, y);
    }
    ExploredOnce(g, LENGTH, v, a, 1, 0, visited);
  }

  lemma StarBeam(a: FabricId, others: seq<FabricId>, v: Vector)
    requires NoDuplicates(others) && a !in others
    ensures BeamResult(Star(a, others).nodes, LENGTH, v, a, 1, 0, Elements(others) + {a}, [Hit(0.0, a)])
  {
    hide Explored;
    var g, visited, out := Star(a, others).nodes, Elements(others) + {a}, [Hit(0.0, a)];
    StarExplored(a, others, v);
    StarLinks(a, others);
    assert Live(g, visited) == visited;
    SubsetCount({a}, visited);
    assert Ids(out) == [a];
    assert HitFor(g, LENGTH, v, a) == out[0];
    forall x, h | x in visited && x in g && h in out
      ensures h.dist <= HitFor(g, LENGTH, v, x).dist
    {
      assert LENGTH.distance(v, g[x].vector) == |g[x].vector| as real;
    }
  }

  lemma StarRelinked(a: FabricId, others: seq<FabricId>, id: FabricId, x: FabricId)
    requires a !in others && id !in others && id != a && (x == a || x in others)
    ensures Relinked(Star(a, others).nodes[x], x, id, [[a]], 0) == Star(a, others + [id]).nodes[x]
  {
    var n := Star(a, others).nodes[x];
    assert n.layers == [if x == a then others else [a]];
    assert Relinked(n, x, id, [[a]], 0).layers == [if x == a then others + [id] else [a]];
  }

  lemma StarMembers(a: FabricId, others: seq<FabricId>, x: FabricId)
    ensures x in Star(a, others).nodes <==> x == a || x in others
  {
  }

  lemma StarLinked(a: FabricId, others: seq<FabricId>, id: FabricId)
    requires NoDuplicates(others) && a !in others && id !in others && id != a
    ensures Star(a, others + [id]).nodes == Linked(Star(a, others).nodes, id, [1.0], [[a]])
  {
    var g, t := Star(a, others).nodes, Star(a, others + [id]).nodes;
    assert t[id] == Node(id, [1.0], [[a]]);
    assert g.Keys + {id} == t.Keys;
    hide Star, Relinked;
    forall x | x in g
      ensures LinkedFrom(g, id, [[a]], 0)[x] == t[x]
    {
      StarMembers(a, others, x);
      StarRelinked(a, others, id, x);
    }
  }

  lemma StarStep(m: nat, a: FabricId, others: seq<FabricId>, id: FabricId)
    requires m >= 1 && NoDuplicates(others) && a !in others && id !in others && id != a
    ensures InsertStep(Star(a, others), LENGTH, Params(m, 1), id, [1.0], 0, Star(a, others + [id]))
  {
    var s, t, p, out, chosen := Star(a, others), Star(a, others + [id]), Params(m, 1), [Hit(0.0, a)], [[a]];
    StarBeam(a, others, [1.0]);
    StarLinked(a, others, id);
    assert chosen[0] == Ids(out[..Min(p.m, |out|)]);
    assert Chosen(s.nodes, LENGTH, p, [1.0], a, 0, chosen[0]);
    assert ChosenPerLayer(s, LENGTH, p, [1.0], a, 0, chosen);
    assert Descent(s.nodes, LENGTH, [1.0], a, 0, 1, a);
    assert t == s.(nodes := Linked(s.nodes, id, [1.0], chosen));
  }

  lemma {:induction false} StarRun(m: nat, a: FabricId, others: seq<FabricId>)
    requires m >= 1 && NoDuplicates(others) && a !in others
    ensures Run(LENGTH, Params(m, 1), StarHistory(a, others), Star(a, others))
    decreases |others|
  {
    var h, p := StarHistory(a, others), Params(m, 1);
    if others == [] {
      assert seq<seq<FabricId>>(1, _ => []) == [[]];
      assert Star(a, others) == Index(map[a := Node(a, [], [[]])], Some(a), 0);
      RunExtends(LENGTH, p, [], EMPTY, Insertion(a, [], 0), Star(a, others));
      assert h == [] + [Insertion(a, [], 0)];
    } else {
      var fewer, last := others[..|others| - 1], others[|others| - 1];
      assert others == fewer + [last];
      assert h == StarHistory(a, fewer) + [Insertion(last, [1.0], 0)];
      hide Run, InsertStep, Star, StarHistory;
      StarRun(m, a, fewer);
      StarStep(m, a, fewer, last);
      RunExtends(LENGTH, p, StarHistory(a, fewer), Star(a, fewer), Insertion(last, [1.0], 0), Star(a, others));
    }
  }

  /** No run that inserts these ids in this order gives a node more than m links on a layer. */
  ghost predicate DegreeBounded(m: nat, ids: seq<FabricId>) {
    forall metric, ef: nat, h, t, x, l ::
      ef >= 1 && Run(metric, Params(m, ef), h, t) && FreshIds(h) && HistoryIds(h) == ids
      ==> |Links(t.nodes, x, l)| <= m
  }

  /** Links are distinct and lead to other nodes, so there are fewer of them than nodes. */
  lemma LinksAreOthers(g: Graph, l: nat, x: FabricId)
    requires LinksWellFormed(g, l) && x in g
    ensures |Links(g, x, l)| < |g|
  {
    var links := Links(g, x, l);
    assert NoDuplicates(links) && Elements(links) <= g.Keys - {x};
    hide *;
    DistinctCount(links);
    SubsetCount(Elements(links), g.Keys - {x});
  }

  lemma FewerLinksThanNodes(metric: Metric, p: Params, h: seq<Insertion>, t: Index, x: FabricId, l: nat)
    requires Run(metric, p, h, t) && FreshIds(h) && p.m >= 1 && p.efConstruction >= 1
    ensures |Links(t.nodes, x, l)| <= if h == [] then 0 else |h| - 1
  {
    RunKeepsLayered(metric, p, h, t);
    InsertedKeys(h);
    assert t.nodes.Keys == Vectors(t.nodes).Keys;
    assert LinksWellFormed(t.nodes, l);
    if x in t.nodes {
      hide *;
      LinksAreOthers(t.nodes, l, x);
      assert |t.nodes.Keys| == |Inserted(h).Keys| == |h|;
    }
  }

  lemma StarIds(a: FabricId, others: seq<FabricId>)
    requires NoDuplicates(others) && a !in others
    ensures FreshIds(StarHistory(a, others)) && HistoryIds(StarHistory(a, others)) == [a] + others
  {
  }

  /** The star gives its centre a link to every other node, whatever m is. */
  lemma StarExceeds(m: nat, ids: seq<FabricId>)
    requires m >= 1 && NoDuplicates(ids) && |ids| > m + 1
    ensures !DegreeBounded(m, ids)
  {
    hide Run, Star, StarHistory, Links, FreshIds, HistoryIds, Reached;
    var a, others := ids[0], ids[1..];
    var h, t := StarHistory(a, others), Star(a, others);
    StarRun(m, a, others);
    StarLinks(a, others);
    StarIds(a, others);
    assert [a] + others == ids;
    assert |Links(t.nodes, a, 0)| == |ids| - 1;
  }

  /** m bounds the links of each node exactly for histories of at most m + 1 insertions, where
      no node can have more than m neighbours anyway. */
  lemma DegreeBoundedIff(m: nat, ids: seq<FabricId>)
    requires m >= 1 && NoDuplicates(ids)
    ensures DegreeBounded(m, ids) <==> |ids| <= m + 1
  {
    if |ids| <= m + 1 {
      forall metric, ef: nat, h, t, x, l |
        ef >= 1 && Run(metric, Params(m, ef), h, t) && FreshIds(h) && HistoryIds(h) == ids
        ensures |Links(t.nodes, x, l)| <= m
      {
        FewerLinksThanNodes(metric, Params(m, ef), h, t, x, l);
        assert |HistoryIds(h)| == |h|;
      }
    } else {
      StarExceeds(m, ids);
    }
  }
}
