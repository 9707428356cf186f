/** The results of a search, against a scan of everything that was inserted. */
module HnswTheorems {
  import opened Common
  import opened Hnsw
  import opened HnswProofs

  // ---------------------------------------------------------------- one beam search

  /** A beam of width one stops at a node no farther than its entry, and none of
      whose live links is closer: a local minimum. */
  lemma LocalMinimum(g: Graph, metric: Metric, q: Vector, from: FabricId, l: nat, to: FabricId)
    requires GreedyStep(g, metric, q, from, l, to) && from in g
    ensures to in g && HitFor(g, metric, q, to).dist <= HitFor(g, metric, q, from).dist
    ensures forall y :: y in Links(g, to, l) && y in g
                        ==> HitFor(g, metric, q, to).dist <= HitFor(g, metric, q, y).dist
  {
    hide Explored, Reached, Sorted, NoDuplicates, Live;
    var h := HitFor(g, metric, q, to);
    var visited :| BeamResult(g, metric, q, from, 1, l, visited, [h]);
    assert h in [h];
    assert forall x :: x in Ids([h]) ==> x == to;
  }

  /** The greedy descent never moves away from the query. */
  lemma {:induction false} DescentApproaches(g: Graph, metric: Metric, q: Vector, from: FabricId, hi: nat, lo: nat,
                                             to: FabricId)
    requires Descent(g, metric, q, from, hi, lo, to) && from in g
    ensures to in g && HitFor(g, metric, q, to).dist <= HitFor(g, metric, q, from).dist
    decreases hi + 1 - lo
  {
    hide Descent, GreedyStep;
    if hi < lo {
      DescentNowhere(g, metric, q, from, hi, lo, to);
    } else {
      var mid := DescentSplit(g, metric, q, from, hi, lo, to);
      DescentApproaches(g, metric, q, from, hi, lo + 1, mid);
      LocalMinimum(g, metric, q, mid, lo, to);
    }
  }

  ghost predicate IsPath(g: Graph, l: nat, p: seq<FabricId>) {
    |p| >= 1 && forall i :: 0 <= i < |p| - 1 ==> p[i + 1] in Links(g, p[i], l)
  }

  lemma {:induction false} PathInClosed(g: Graph, l: nat, p: seq<FabricId>, S: set<FabricId>)
    requires IsPath(g, l, p) && Closed(g, l, S) && p[0] in S
    ensures p[|p| - 1] in S
  {
    if |p| > 1 {
      var r := p[..|p| - 1];
      PathInClosed(g, l, r, S);
      assert p[|p| - 2 + 1] in Links(g, p[|p| - 2], l);
    }
  }

  ghost predicate HasPath(g: Graph, l: nat, from: FabricId, to: FabricId) {
    exists p :: IsPath(g, l, p) && p[0] == from && p[|p| - 1] == to
  }

  lemma PathExtends(g: Graph, l: nat, from: FabricId, a: FabricId, b: FabricId)
    requires HasPath(g, l, from, a) && b in Links(g, a, l)
    ensures HasPath(g, l, from, b)
  {
    var p :| IsPath(g, l, p) && p[0] == from && p[|p| - 1] == a;
    var r := p + [b];
    assert IsPath(g, l, r) && r[0] == from && r[|r| - 1] == b;
  }

  /** Being in every closed set is the same as being at the end of a path. */
  lemma ReachedIsPath(g: Graph, l: nat, from: FabricId, x: FabricId)
    ensures Reached(g, l, from, {x}) <==> HasPath(g, l, from, x)
  {
    if Reached(g, l, from, {x}) {
      var S := set y | y in Mentioned(g, l) + {from} && HasPath(g, l, from, y);
      assert IsPath(g, l, [from]) && [from][|[from]| - 1] == from;
      forall a, b | a in S && b in Links(g, a, l)
        ensures b in S
      {
        PathExtends(g, l, from, a, b);
        LinksAreMentioned(g, l, a, b);
      }
      assert Closed(g, l, S);
    }
    if p :| IsPath(g, l, p) && p[0] == from && p[|p| - 1] == x {
      forall S: set<FabricId> | Closed(g, l, S) && from in S
        ensures {x} <= S
      {
        PathInClosed(g, l, p, S);
      }
    }
  }

  // ---------------------------------------------------------------- a wide enough beam finds a whole layer

  /** Links are symmetric, so a layer connected from one node is connected from any. */
  lemma ConnectedFromAny(g: Graph, l: nat, e: FabricId, start: FabricId)
    requires LinksWellFormed(g, l) && Connected(g, l, e) && OnLayer(g, start, l)
    ensures Connected(g, l, start)
  {
    forall S: set<FabricId> | Closed(g, l, S) && start in S
      ensures forall x :: OnLayer(g, x, l) ==> x in S
    {
      if e !in S {
        var T := LayerSet(g, l) - S;
        forall a, b | a in T && b in Links(g, a, l)
          ensures b in T
        {
          assert a in Links(g, b, l);
        }
        assert Closed(g, l, T) && e in T;
        assert false;
      }
    }
  }

  lemma Position(s: seq<Hit>, x: FabricId) returns (n: nat)
    requires x in Ids(s)
    ensures n < |s| && s[n].id == x && s[n] in s
  {
    n :| 0 <= n < |s| && Ids(s)[n] == x;
  }

  /** A beam wide enough for what it visits returns exactly the live nodes that can be
      reached from its entry, in any graph, dangling links included. */
  lemma WideBeamFindsReachable(g: Graph, metric: Metric, q: Vector, start: FabricId, ef: nat, l: nat,
                               visited: set<FabricId>, out: seq<Hit>)
    requires BeamResult(g, metric, q, start, ef, l, visited, out) && ef >= |Live(g, visited)|
    ensures Elements(Ids(out)) == Live(g, visited)
    ensures forall x :: x in Ids(out) <==> x in g && Reached(g, l, start, {x})
  {
    var L := Live(g, visited);
    forall x | x in Elements(Ids(out))
      ensures x in L
    {
      var i := Position(out, x);
    }
    DistinctCount(Ids(out));
    SubsetCount(Elements(Ids(out)), L);
    forall a, b | a in visited && b in Links(g, a, l)
      ensures b in visited
    {
      assert a in Elements(Ids(out));
      var i := Position(out, a);
    }
    assert Closed(g, l, visited);
    forall x
      ensures Reached(g, l, start, {x}) <==> x in visited
    {
      if Reached(g, l, start, {x}) {
        assert {x} <= visited && x in {x};
      }
    }
    assert forall x :: x in Elements(Ids(out)) <==> x in Ids(out);
  }

  /** In an insert-only index, a beam as wide as its layer returns the whole layer. */
  lemma WideBeamFindsLayer(s: Index, metric: Metric, q: Vector, start: FabricId, ef: nat, l: nat,
                           visited: set<FabricId>, out: seq<Hit>)
    requires Layered(s) && l <= s.currentLevel && s.entryPoint.Some?
    requires OnLayer(s.nodes, start, l) && BeamResult(s.nodes, metric, q, start, ef, l, visited, out)
    requires ef >= |LayerSet(s.nodes, l)|
    ensures Elements(Ids(out)) == LayerSet(s.nodes, l)
  {
    assert LinksWellFormed(s.nodes, l) && Connected(s.nodes, l, s.entryPoint.value);
    hide Layered, BeamResult, LinksWellFormed;
    BeamStaysOnLayer(s.nodes, metric, q, start, ef, l, visited, out);
    SubsetCount(Live(s.nodes, visited), LayerSet(s.nodes, l));
    WideBeamFindsReachable(s.nodes, metric, q, start, ef, l, visited, out);
    ConnectedFromAny(s.nodes, l, s.entryPoint.value, start);
    forall x | x in LayerSet(s.nodes, l)
      ensures Reached(s.nodes, l, start, {x})
    {
    }
    assert forall x :: x in Elements(Ids(out)) <==> x in Ids(out);
  }

  // ---------------------------------------------------------------- histories

  datatype Insertion = Insertion(id: FabricId, vector: Vector, level: nat)

  /** t is a possible index after inserting h, one record after the other. */
  ghost predicate Run(metric: Metric, p: Params, h: seq<Insertion>, t: Index) {
    if h == [] then t == EMPTY
    else
      var n := |h| - 1;
      exists s :: Run(metric, p, h[..n], s) && InsertStep(s, metric, p, h[n].id, h[n].vector, h[n].level, t)
  }

  lemma RunExtends(metric: Metric, p: Params, h: seq<Insertion>, s: Index, r: Insertion, t: Index)
    requires Run(metric, p, h, s) && InsertStep(s, metric, p, r.id, r.vector, r.level, t)
    ensures Run(metric, p, h + [r], t)
  {
    hide InsertStep;
    assert (h + [r])[..|h|] == h;
  }

  ghost predicate FreshIds(h: seq<Insertion>) {
    forall i, j :: 0 <= i < j < |h| ==> h[i].id != h[j].id
  }

  /** The vectors a history inserted, by id. */
  function Inserted(h: seq<Insertion>): map<FabricId, Vector> {
    if h == [] then map[] else Inserted(h[..|h| - 1])[h[|h| - 1].id := h[|h| - 1].vector]
  }

  function Vectors(g: Graph): map<FabricId, Vector> {
    map x | x in g :: g[x].vector
  }

  lemma {:induction false} InsertedKeys(h: seq<Insertion>)
    ensures forall x :: x in Inserted(h) <==> exists i :: 0 <= i < |h| && h[i].id == x
    ensures FreshIds(h) ==> |Inserted(h)| == |h|
  {
    if h != [] {
      var n := |h| - 1;
      InsertedKeys(h[..n]);
      forall x
        ensures x in Inserted(h) <==> exists i :: 0 <= i < |h| && h[i].id == x
      {
        if x in Inserted(h[..n]) {
          var i :| 0 <= i < n && h[..n][i].id == x;
          assert h[i].id == x;
        }
        if i :| 0 <= i < n && h[i].id == x {
          assert h[..n][i].id == x;
        }
      }
      if FreshIds(h) {
        assert h[n].id !in Inserted(h[..n]);
      }
    }
  }

  lemma FreshPrefix(h: seq<Insertion>)
    requires FreshIds(h) && h != []
    ensures FreshIds(h[..|h| - 1]) && h[|h| - 1].id !in Inserted(h[..|h| - 1])
  {
    InsertedKeys(h[..|h| - 1]);
  }

  lemma RunSplit(metric: Metric, p: Params, h: seq<Insertion>, t: Index) returns (s: Index)
    requires Run(metric, p, h, t) && h != []
    ensures var r := h[|h| - 1];
            Run(metric, p, h[..|h| - 1], s) && InsertStep(s, metric, p, r.id, r.vector, r.level, t)
  {
    hide InsertStep;
    var n := |h| - 1;
    s :| Run(metric, p, h[..n], s) && InsertStep(s, metric, p, h[n].id, h[n].vector, h[n].level, t);
  }

  lemma RunStep(metric: Metric, p: Params, r: Insertion, s: Index, t: Index)
    requires Layered(s) && InsertStep(s, metric, p, r.id, r.vector, r.level, t)
    requires p.m >= 1 && p.efConstruction >= 1 && r.id !in s.nodes
    ensures Layered(t) && Vectors(t.nodes) == Vectors(s.nodes)[r.id := r.vector]
  {
    InsertKeepsLayered(s, metric, p, r.id, r.vector, r.level, t);
  }

  /** Safety over whole runs: every index reached by insertions of fresh ids is
      well formed, connected on each layer, and holds exactly the inserted vectors. */
  lemma {:induction false} RunKeepsLayered(metric: Metric, p: Params, h: seq<Insertion>, t: Index)
    requires Run(metric, p, h, t) && FreshIds(h) && p.m >= 1 && p.efConstruction >= 1
    ensures Layered(t) && Vectors(t.nodes) == Inserted(h)
  {
    if h != [] {
      hide Run, InsertStep, Layered, FreshIds;
      var s := RunSplit(metric, p, h, t);
      FreshPrefix(h);
      RunKeepsLayered(metric, p, h[..|h| - 1], s);
      assert h[|h| - 1].id !in Vectors(s.nodes);
      RunStep(metric, p, h[|h| - 1], s, t);
    }
  }

  // ---------------------------------------------------------------- exactness

  /** `hits` are k nearest of the given vectors, in ascending distance. */
  ghost predicate TopK(vecs: map<FabricId, Vector>, metric: Metric, q: Vector, k: nat, hits: seq<Hit>) {
    && |hits| == Min(k, |vecs|)
    && NoDuplicates(Ids(hits)) && Sorted(hits)
    && (forall h :: h in hits ==> h.id in vecs && h.dist == metric.distance(q, vecs[h.id]))
    && (forall x, h :: x in vecs && x !in Ids(hits) && h in hits ==> h.dist <= metric.distance(q, vecs[x]))
  }

  function Hits(res: seq<Neighbor>): seq<Hit> {
    seq(|res|, i requires 0 <= i < |res| => Hit(res[i].distance, res[i].id))
  }

  /** An answer of full size leaves nobody out. */
  lemma FullAnswer(vecs: map<FabricId, Vector>, metric: Metric, q: Vector, out: seq<Hit>)
    requires TopK(vecs, metric, q, |vecs|, out)
    ensures Elements(Ids(out)) == vecs.Keys
  {
    DistinctCount(Ids(out));
    forall x | x in Elements(Ids(out))
      ensures x in vecs.Keys
    {
      var i := Position(out, x);
    }
    SubsetCount(Elements(Ids(out)), vecs.Keys);
  }

  lemma LeftOutIsFarther(vecs: map<FabricId, Vector>, metric: Metric, q: Vector, out: seq<Hit>, n: nat, x: FabricId)
    requires TopK(vecs, metric, q, |vecs|, out) && n <= |out|
    requires x in vecs && x !in Ids(out[..n])
    ensures forall h :: h in out[..n] ==> h.dist <= metric.distance(q, vecs[x])
  {
    assert forall j :: 0 <= j < n ==> Ids(out[..n])[j] == out[j].id;
    FullAnswer(vecs, metric, q, out);
    assert x in Elements(Ids(out));
    var j := Position(out, x);
    assert n <= j;
  }

  lemma PrefixIsTopK(vecs: map<FabricId, Vector>, metric: Metric, q: Vector, k: nat, out: seq<Hit>)
    requires TopK(vecs, metric, q, |vecs|, out)
    ensures TopK(vecs, metric, q, k, out[..Min(k, |out|)])
  {
    var n := Min(k, |out|);
    PrefixIds(out, n);
    forall x | x in vecs && x !in Ids(out[..n])
      ensures forall h :: h in out[..n] ==> h.dist <= metric.distance(q, vecs[x])
    {
      LeftOutIsFarther(vecs, metric, q, out, n, x);
    }
  }

  lemma WideSearchIsTopK(t: Index, metric: Metric, q: Vector, start: FabricId, width: nat, k: nat,
                         visited: set<FabricId>, out: seq<Hit>)
    requires Layered(t) && t.entryPoint.Some? && OnLayer(t.nodes, start, 0)
    requires BeamResult(t.nodes, metric, q, start, width, 0, visited, out) && width >= |t.nodes|
    ensures TopK(Vectors(t.nodes), metric, q, k, out[..Min(k, |out|)])
  {
    assert LayerSet(t.nodes, 0) == t.nodes.Keys == Vectors(t.nodes).Keys;
    WideBeamFindsLayer(t, metric, q, start, width, 0, visited, out);
    DistinctCount(Ids(out));
    forall x | x in Vectors(t.nodes)
      ensures x in Ids(out)
    {
      assert x in Elements(Ids(out));
    }
    PrefixIsTopK(Vectors(t.nodes), metric, q, k, out);
  }

  lemma SimilarityIsMetric(g: Graph, metric: Metric, q: Vector, k: nat, out: seq<Hit>)
    requires forall h :: h in out ==> h.id in g
    ensures forall n :: n in FirstNeighbors(g, metric, q, k, out)
                        ==> n.id in g && n.similarity == metric.similarity(q, Vectors(g)[n.id])
  {
    forall n | n in FirstNeighbors(g, metric, q, k, out)
      ensures n.id in g && n.similarity == metric.similarity(q, Vectors(g)[n.id])
    {
      var i :| 0 <= i < Min(k, |out|) && FirstNeighbors(g, metric, q, k, out)[i] == n;
      assert out[i] in out;
    }
  }

  lemma HitsOfFirst(g: Graph, metric: Metric, q: Vector, k: nat, out: seq<Hit>)
    ensures Hits(FirstNeighbors(g, metric, q, k, out)) == out[..Min(k, |out|)]
  {
  }

  lemma HitsAreLive(g: Graph, metric: Metric, q: Vector, start: FabricId, ef: nat, l: nat,
                    visited: set<FabricId>, out: seq<Hit>)
    requires BeamResult(g, metric, q, start, ef, l, visited, out)
    ensures forall h :: h in out ==> h.id in g
  {
  }

  lemma LayeredSearchIsTopK(t: Index, metric: Metric, q: Vector, k: nat, ef: nat, res: seq<Neighbor>)
    requires Layered(t) && SearchStep(t, metric, q, k, ef, res) && Max(ef, k) >= |t.nodes|
    ensures TopK(Vectors(t.nodes), metric, q, k, Hits(res))
    ensures forall n :: n in res ==> n.id in t.nodes && n.similarity == metric.similarity(q, Vectors(t.nodes)[n.id])
  {
    if t.entryPoint.Some? {
      var e := t.entryPoint.value;
      assert OnLayer(t.nodes, e, t.currentLevel);
      LayeredLinksAreLive(t);
      hide Layered, BeamResult, Descent, TopK;
      var start, visited, out :| Descent(t.nodes, metric, q, e, t.currentLevel, 1, start)
                                 && BeamResult(t.nodes, metric, q, start, Max(ef, k), 0, visited, out)
                                 && res == FirstNeighbors(t.nodes, metric, q, k, out);
      DescentStaysOnLayer(t.nodes, metric, q, e, t.currentLevel, 1, start);
      WideSearchIsTopK(t, metric, q, start, Max(ef, k), k, visited, out);
      HitsOfFirst(t.nodes, metric, q, k, out);
      HitsAreLive(t.nodes, metric, q, start, Max(ef, k), 0, visited, out);
      SimilarityIsMetric(t.nodes, metric, q, k, out);
    }
  }

  /** The search over an insert-only index is exact when its beam is wide enough. */
  lemma SearchIsExact(metric: Metric, p: Params, h: seq<Insertion>, t: Index,
                      q: Vector, k: nat, ef: nat, res: seq<Neighbor>)
    requires Run(metric, p, h, t) && FreshIds(h) && p.m >= 1 && p.efConstruction >= 1
    requires SearchStep(t, metric, q, k, ef, res) && Max(ef, k) >= |h|
    ensures TopK(Inserted(h), metric, q, k, Hits(res))
    ensures forall n :: n in res ==> n.id in Inserted(h) && n.similarity == metric.similarity(q, Inserted(h)[n.id])
  {
    assert t.nodes.Keys == Vectors(t.nodes).Keys;
    hide Run, SearchStep, Inserted, Layered, TopK, FreshIds, Vectors;
    RunKeepsLayered(metric, p, h, t);
    InsertedKeys(h);
    LayeredSearchIsTopK(t, metric, q, k, ef, res);
  }

  /** If b[i] is farther than a[i], everything up to a[i] comes before b[i] in b. */
  lemma NearerComesEarlier(vecs: map<FabricId, Vector>, metric: Metric, q: Vector, k: nat,
                           a: seq<Hit>, b: seq<Hit>, i: nat, j: nat)
    requires Sorted(a) && j <= i < |a| && i < |b|
    requires a[j].id in vecs && a[j].dist == metric.distance(q, vecs[a[j].id])
    requires TopK(vecs, metric, q, k, b) && a[i].dist < b[i].dist
    ensures a[j].id in Ids(b)[..i]
  {
    assert b[i] in b && a[j].dist <= a[i].dist;
    var n := Position(b, a[j].id);
    assert b[n].dist < b[i].dist;
    assert Ids(b)[..i][n] == a[j].id;
  }

  /** Every hit of one answer is as near as its counterpart in any other. */
  lemma TopKUnique(vecs: map<FabricId, Vector>, metric: Metric, q: Vector, k: nat, a: seq<Hit>, b: seq<Hit>, i: nat)
    requires TopK(vecs, metric, q, k, a) && TopK(vecs, metric, q, k, b) && i < |a|
    ensures b[i].dist <= a[i].dist
  {
    if a[i].dist < b[i].dist {
      var A, B := Ids(a)[..i + 1], Ids(b)[..i];
      forall j | 0 <= j <= i
        ensures A[j] in B
      {
        assert a[j] in a;
        NearerComesEarlier(vecs, metric, q, k, a, b, i, j);
      }
      DistinctCount(A);
      ElementsBound(B);
      SubsetCount(Elements(A), Elements(B));
      assert false;
    }
  }

  lemma SameDistances(vecs: map<FabricId, Vector>, metric: Metric, q: Vector, k: nat, a: seq<Hit>, b: seq<Hit>)
    requires TopK(vecs, metric, q, k, a) && TopK(vecs, metric, q, k, b)
    ensures |a| == |b| && forall i :: 0 <= i < |a| ==> a[i].dist == b[i].dist
  {
    forall i | 0 <= i < |a|
      ensures a[i].dist == b[i].dist
    {
      TopKUnique(vecs, metric, q, k, a, b, i);
      TopKUnique(vecs, metric, q, k, b, a, i);
    }
  }

  // ---------------------------------------------------------------- brute force

  function SortedInsert(s: seq<Hit>, h: Hit): (r: seq<Hit>)
    requires Sorted(s)
    ensures Sorted(r) && |r| == |s| + 1
    ensures forall x :: x in r <==> x == h || x in s
  {
    if s == [] || s[|s| - 1].dist <= h.dist then s + [h]
    else
      var r := SortedInsert(s[..|s| - 1], h);
      assert s == s[..|s| - 1] + [s[|s| - 1]];
      assert forall x :: x in r ==> x.dist <= s[|s| - 1].dist;
      r + [s[|s| - 1]]
  }

  /** Scan the whole history and sort by distance. */
  function BruteForce(metric: Metric, q: Vector, h: seq<Insertion>): (r: seq<Hit>)
    ensures Sorted(r) && |r| == |h|
  {
    if h == [] then []
    else
      var last := h[|h| - 1];
      SortedInsert(BruteForce(metric, q, h[..|h| - 1]), Hit(metric.distance(q, last.vector), last.id))
  }

  lemma {:induction false} BruteForceHits(metric: Metric, q: Vector, h: seq<Insertion>)
    requires FreshIds(h)
    ensures forall x :: x in BruteForce(metric, q, h)
                        <==> x.id in Inserted(h) && x.dist == metric.distance(q, Inserted(h)[x.id])
  {
    if h != [] {
      BruteForceHits(metric, q, h[..|h| - 1]);
      InsertedKeys(h[..|h| - 1]);
      assert h[|h| - 1].id !in Inserted(h[..|h| - 1]);
    }
  }

  lemma {:induction false} BruteForceIsTopK(metric: Metric, q: Vector, h: seq<Insertion>)
    requires FreshIds(h)
    ensures TopK(Inserted(h), metric, q, |h|, BruteForce(metric, q, h))
  {
    var b, vecs := BruteForce(metric, q, h), Inserted(h);
    BruteForceHits(metric, q, h);
    InsertedKeys(h);
    forall x | x in vecs
      ensures x in Ids(b)
    {
      var hit := Hit(metric.distance(q, vecs[x]), x);
      var i :| 0 <= i < |b| && b[i] == hit;
      assert Ids(b)[i] == x;
    }
    assert vecs.Keys <= Elements(Ids(b));
    SubsetCount(vecs.Keys, Elements(Ids(b)));
    FullCountDistinct(Ids(b));
  }

  /** The k first hits of a full scan. */
  function Scan(metric: Metric, q: Vector, k: nat, h: seq<Insertion>): (r: seq<Hit>)
    ensures |r| == Min(k, |h|)
  {
    BruteForce(metric, q, h)[..Min(k, |h|)]
  }

  lemma ScanIsTopK(metric: Metric, q: Vector, k: nat, h: seq<Insertion>)
    requires FreshIds(h)
    ensures TopK(Inserted(h), metric, q, k, Scan(metric, q, k, h))
  {
    InsertedKeys(h);
    BruteForceIsTopK(metric, q, h);
    PrefixIsTopK(Inserted(h), metric, q, k, BruteForce(metric, q, h));
  }

  lemma HitsOf(res: seq<Neighbor>)
    ensures |Hits(res)| == |res| && forall i :: 0 <= i < |res| ==> Hits(res)[i].dist == res[i].distance
  {
  }

  /** The answer of the index and of a full scan have the same distances. */
  lemma SearchAgreesWithScan(metric: Metric, p: Params, h: seq<Insertion>, t: Index,
                             q: Vector, k: nat, ef: nat, res: seq<Neighbor>)
    requires Run(metric, p, h, t) && FreshIds(h) && p.m >= 1 && p.efConstruction >= 1
    requires SearchStep(t, metric, q, k, ef, res) && Max(ef, k) >= |h|
    ensures |res| == |Scan(metric, q, k, h)|
    ensures forall i :: 0 <= i < |res| ==> res[i].distance == Scan(metric, q, k, h)[i].dist
  {
    HitsOf(res);
    hide *;
    SearchIsExact(metric, p, h, t, q, k, ef, res);
    ScanIsTopK(metric, q, k, h);
    SameDistances(Inserted(h), metric, q, k, Hits(res), Scan(metric, q, k, h));
  }
}
