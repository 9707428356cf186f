/** The HNSW vector index: a layered proximity graph searched with a beam. */
module Hnsw {
  import opened Common

  type Vector = seq<real>

  /** A metric is any pair of real-valued functions on vectors. */
  datatype Metric = Metric(distance: (Vector, Vector) -> real, similarity: (Vector, Vector) -> real)

  datatype Node = Node(id: FabricId, vector: Vector, layers: seq<seq<FabricId>>)

  type Graph = map<FabricId, Node>

  /** A node found at a distance from the query: an entry of either heap. */
  datatype Hit = Hit(dist: real, id: FabricId)

  datatype Neighbor = Neighbor(id: FabricId, distance: real, similarity: real)

  datatype Params = Params(m: nat, efConstruction: nat)

  // ---------------------------------------------------------------- the graph

  predicate OnLayer(g: Graph, x: FabricId, l: nat) {
    x in g && l < |g[x].layers|
  }

  function Links(g: Graph, x: FabricId, l: nat): seq<FabricId> {
    if OnLayer(g, x, l) then g[x].layers[l] else []
  }

  /** S contains the layer-l links of all its members. */
  ghost predicate Closed(g: Graph, l: nat, S: set<FabricId>) {
    forall x, y :: x in S && y in Links(g, x, l) ==> y in S
  }

  /** Every vertex in V can be reached from `from` along layer-l links. */
  ghost predicate Reached(g: Graph, l: nat, from: FabricId, V: set<FabricId>) {
    forall S: set<FabricId> :: Closed(g, l, S) && from in S ==> V <= S
  }

  ghost function Live(g: Graph, V: set<FabricId>): set<FabricId> {
    set x | x in V && x in g
  }

  function HitFor(g: Graph, metric: Metric, q: Vector, x: FabricId): Hit
    requires x in g
  {
    Hit(metric.distance(q, g[x].vector), x)
  }

  ghost predicate Sorted(s: seq<Hit>) {
    forall i, j :: 0 <= i < j < |s| ==> s[i].dist <= s[j].dist
  }

  function Ids(s: seq<Hit>): seq<FabricId> {
    seq(|s|, i requires 0 <= i < |s| => s[i].id)
  }

  // ---------------------------------------------------------------- the course of a beam search

  /** What is visited once the links of the nodes in `order` were followed. */
  ghost function Visited(g: Graph, entry: FabricId, l: nat, order: seq<FabricId>): set<FabricId> {
    if order == [] then {entry}
    else Visited(g, entry, l, order[..|order| - 1]) + Elements(Links(g, order[|order| - 1], l))
  }

  /** The live nodes of V that are strictly nearer to q than x. */
  ghost function Nearer(g: Graph, metric: Metric, q: Vector, V: set<FabricId>, x: FabricId): set<FabricId>
    requires x in g
  {
    set y | y in V && y in g && HitFor(g, metric, q, y).dist < HitFor(g, metric, q, x).dist
  }

  /** The links of x may be followed next: it is a nearest of the live nodes left, and fewer than `cap` of the nodes
      visited are nearer. */
  ghost predicate IsNext(g: Graph, metric: Metric, q: Vector, V: set<FabricId>, done: set<FabricId>, cap: nat,
                         x: FabricId) {
    && x in V && x in g && x !in done && |Nearer(g, metric, q, V, x)| < cap
    && forall y :: y in V && y in g && y !in done ==> HitFor(g, metric, q, x).dist <= HitFor(g, metric, q, y).dist
  }

  /** The links of the nodes in `order` are followed one after the other. */
  ghost predicate Followed(g: Graph, metric: Metric, q: Vector, entry: FabricId, cap: nat, l: nat,
                           order: seq<FabricId>) {
    order == [] ||
    var before := order[..|order| - 1];
    && Followed(g, metric, q, entry, cap, l, before)
    && IsNext(g, metric, q, Visited(g, entry, l, before), Elements(before), cap, order[|order| - 1])
  }

  /** Of no live node left may the links be followed. */
  ghost predicate Stopped(g: Graph, metric: Metric, q: Vector, V: set<FabricId>, done: set<FabricId>, cap: nat) {
    forall y :: y in V && y in g && y !in done ==> |Nearer(g, metric, q, V, y)| >= cap
  }

  /** A beam of the given width visits exactly these nodes. */
  ghost predicate Explored(g: Graph, metric: Metric, q: Vector, entry: FabricId, ef: nat, l: nat,
                           visited: set<FabricId>) {
    exists order ::
      && Followed(g, metric, q, entry, Max(ef, 1), l, order)
      && visited == Visited(g, entry, l, order)
      && Stopped(g, metric, q, visited, Elements(order), Max(ef, 1))
  }

  /** What a beam search promises: `out` holds the best min(ef, seen) of the live
      nodes visited, in order, and the links of every returned node were followed. */
  ghost predicate BeamResult(g: Graph, metric: Metric, q: Vector, entry: FabricId, ef: nat, l: nat,
                             visited: set<FabricId>, out: seq<Hit>) {
    && entry in g && entry in visited
    && Reached(g, l, entry, visited)
    && |out| == Min(ef, |Live(g, visited)|)
    && NoDuplicates(Ids(out))
    && Sorted(out)
    && (forall h :: h in out ==> h.id in g && h.id in visited && h == HitFor(g, metric, q, h.id))
    && (forall x, h :: x in visited && x in g && x !in Ids(out) && h in out
                       ==> h.dist <= HitFor(g, metric, q, x).dist)
    && (forall h, y :: h in out && y in Links(g, h.id, l) ==> y in visited)
    && Explored(g, metric, q, entry, ef, l, visited)
  }

  // ---------------------------------------------------------------- the heaps

  lemma {:induction false} NearestExists(h: set<Hit>) returns (e: Hit)
    requires h != {}
    ensures e in h && forall x :: x in h ==> e.dist <= x.dist
  {
    e :| e in h;
    if h != {e} {
      var r := NearestExists(h - {e});
      if r.dist < e.dist { e := r; }
    }
  }

  lemma {:induction false} FarthestExists(h: set<Hit>) returns (e: Hit)
    requires h != {}
    ensures e in h && forall x :: x in h ==> x.dist <= e.dist
  {
    e :| e in h;
    if h != {e} {
      var r := FarthestExists(h - {e});
      if e.dist < r.dist { e := r; }
    }
  }

  /** Top of the min-heap: any entry of least distance. */
  method Nearest(h: set<Hit>) returns (e: Hit)
    requires h != {}
    ensures e in h && forall x :: x in h ==> e.dist <= x.dist
  {
    ghost var w := NearestExists(h);
    e :| e in h && forall x :: x in h ==> e.dist <= x.dist;
  }

  /** Top of the max-heap: any entry of greatest distance. */
  method Farthest(h: set<Hit>) returns (e: Hit)
    requires h != {}
    ensures e in h && forall x :: x in h ==> x.dist <= e.dist
  {
    ghost var w := FarthestExists(h);
    e :| e in h && forall x :: x in h ==> x.dist <= e.dist;
  }

  /** The entries of a heap in ascending distance. */
  method DrainSorted(heap: set<Hit>) returns (out: seq<Hit>)
    ensures Sorted(out) && NoDuplicates(out) && |out| == |heap|
    ensures forall h :: h in out <==> h in heap
  {
    out := [];
    var rest := heap;
    while rest != {}
      invariant rest <= heap && |out| + |rest| == |heap|
      invariant forall h :: h in out <==> h in heap - rest
      invariant Sorted(out) && NoDuplicates(out)
      invariant forall a, b :: a in out && b in rest ==> a.dist <= b.dist
      decreases |rest|
    {
      var e := Nearest(rest);
      out, rest := out + [e], rest - {e};
    }
  }

  // ---------------------------------------------------------------- the loop of a beam search

  /** The state of a beam search between two pops: `results` holds the best
      max(ef, 1) of the live visited nodes, `candidates` some of them. */
  ghost predicate Searching(g: Graph, metric: Metric, q: Vector, entry: FabricId, cap: nat, l: nat,
                            visited: set<FabricId>, candidates: set<Hit>, results: set<Hit>) {
    && entry in g && entry in visited
    && Reached(g, l, entry, visited)
    && (forall h :: h in candidates || h in results
                    ==> h.id in g && h.id in visited && h == HitFor(g, metric, q, h.id))
    && |results| == Min(cap, |Live(g, visited)|)
    && (|results| == cap || forall x :: x in visited && x in g ==> HitFor(g, metric, q, x) in results)
    && (forall x, h :: x in visited && x in g && HitFor(g, metric, q, x) !in results && h in results
                       ==> h.dist <= HitFor(g, metric, q, x).dist)
  }

  /** `candidates` holds the live visited nodes whose links are still to be followed. */
  ghost predicate Pending(g: Graph, metric: Metric, q: Vector, visited: set<FabricId>, done: set<FabricId>,
                          candidates: set<Hit>) {
    && done <= visited
    && (forall h :: h in candidates
                    ==> h.id in visited && h.id in g && h.id !in done && h == HitFor(g, metric, q, h.id))
    && (forall x :: x in visited && x in g && x !in done ==> HitFor(g, metric, q, x) in candidates)
  }

  /** Either a live node was newly visited or no candidate was added. */
  ghost predicate Progress(g: Graph, seen0: set<FabricId>, candidates0: set<Hit>,
                           seen: set<FabricId>, candidates: set<Hit>) {
    && seen0 <= seen
    && (candidates == candidates0 || exists x :: x in g && x !in seen0 && x in seen)
  }

  /** A newly visited node is either gone or joins the candidates. */
  lemma PendingGrows(g: Graph, metric: Metric, q: Vector, visited: set<FabricId>, done: set<FabricId>,
                     candidates: set<Hit>, y: FabricId)
    requires Pending(g, metric, q, visited, done, candidates) && y !in visited
    ensures y in g ==> Pending(g, metric, q, visited + {y}, done, candidates + {HitFor(g, metric, q, y)})
    ensures y !in g ==> Pending(g, metric, q, visited + {y}, done, candidates)
  {
  }

  lemma PendingPopped(g: Graph, metric: Metric, q: Vector, entry: FabricId, cap: nat, l: nat, visited: set<FabricId>,
                      done: set<FabricId>, candidates: set<Hit>, results: set<Hit>, c: Hit)
    requires Searching(g, metric, q, entry, cap, l, visited, candidates, results)
    requires Pending(g, metric, q, visited, done, candidates) && c in candidates
    ensures Pending(g, metric, q, visited, done + {c.id}, candidates - {c})
    ensures Searching(g, metric, q, entry, cap, l, visited, candidates - {c}, results)
    ensures c.id in g && c.id in visited
  {
    hide Reached;
  }

  lemma ReachedExtends(g: Graph, l: nat, entry: FabricId, V: set<FabricId>, x: FabricId, y: FabricId)
    requires Reached(g, l, entry, V) && x in V && y in Links(g, x, l)
    ensures Reached(g, l, entry, V + {y})
  {
    forall S: set<FabricId> | Closed(g, l, S) && entry in S
      ensures V + {y} <= S
    {
      assert V <= S;
    }
  }

  /** Visiting a link whose node is gone changes neither heap. */
  lemma VisitDangling(g: Graph, metric: Metric, q: Vector, entry: FabricId, cap: nat, l: nat,
                      visited: set<FabricId>, candidates: set<Hit>, results: set<Hit>, y: FabricId)
    requires Searching(g, metric, q, entry, cap, l, visited, candidates, results)
    requires y !in g && Reached(g, l, entry, visited + {y})
    ensures Searching(g, metric, q, entry, cap, l, visited + {y}, candidates, results)
  {
    assert Live(g, visited + {y}) == Live(g, visited);
  }

  /** `kept` is `pushed` unless that overfills the heap; then e, an entry of
      greatest distance, was dropped. */
  ghost predicate Evicted(pushed: set<Hit>, cap: nat, e: Hit, kept: set<Hit>) {
    if |pushed| <= cap then kept == pushed
    else e in pushed && kept == pushed - {e} && forall x :: x in pushed ==> x.dist <= e.dist
  }

  /** Eviction keeps the heap at the size of what it stands for. */
  lemma KeptCount(g: Graph, visited: set<FabricId>, results: set<Hit>, y: FabricId, h: Hit, cap: nat, e: Hit,
                  kept: set<Hit>)
    requires y in g && y !in visited && h !in results && cap >= 1
    requires |results| == Min(cap, |Live(g, visited)|) && Evicted(results + {h}, cap, e, kept)
    ensures |kept| == Min(cap, |Live(g, visited + {y})|)
    ensures |kept| < cap ==> kept == results + {h} && |results| < cap
  {
    assert Live(g, visited + {y}) == Live(g, visited) + {y};
    assert |results + {h}| == |results| + 1;
  }

  lemma KeptBest(g: Graph, metric: Metric, q: Vector, entry: FabricId, cap: nat, l: nat, visited: set<FabricId>,
                 candidates: set<Hit>, results: set<Hit>, h: Hit, e: Hit, kept: set<Hit>, x: FabricId, r: Hit)
    requires Searching(g, metric, q, entry, cap, l, visited, candidates, results) && cap >= 1
    requires Evicted(results + {h}, cap, e, kept) && h !in results
    requires x in g && HitFor(g, metric, q, x) !in kept && r in kept
    requires x in visited || HitFor(g, metric, q, x) == h
    ensures r.dist <= HitFor(g, metric, q, x).dist
  {
    var d := HitFor(g, metric, q, x);
    if d != h && d !in results {
      assert |results| == cap;
      assert |results + {h}| == |results| + 1;
      if r !in results {
        assert e in results;
      }
    }
  }

  /** Visiting a live link pushes it on both heaps. */
  lemma VisitLive(g: Graph, metric: Metric, q: Vector, entry: FabricId, cap: nat, l: nat, visited: set<FabricId>,
                  candidates: set<Hit>, results: set<Hit>, y: FabricId, e: Hit, kept: set<Hit>)
    requires Searching(g, metric, q, entry, cap, l, visited, candidates, results) && cap >= 1
    requires y in g && y !in visited && Reached(g, l, entry, visited + {y})
    requires Evicted(results + {HitFor(g, metric, q, y)}, cap, e, kept)
    ensures Searching(g, metric, q, entry, cap, l, visited + {y}, candidates + {HitFor(g, metric, q, y)}, kept)
  {
    hide Reached;
    var h := HitFor(g, metric, q, y);
    assert h !in results;
    KeptCount(g, visited, results, y, h, cap, e, kept);
    forall x, r | x in visited + {y} && x in g && HitFor(g, metric, q, x) !in kept && r in kept
      ensures r.dist <= HitFor(g, metric, q, x).dist
    {
      KeptBest(g, metric, q, entry, cap, l, visited, candidates, results, h, e, kept, x, r);
    }
    assert kept <= results + {h};
    hide Live, Evicted;
  }

  lemma SearchStarts(g: Graph, metric: Metric, q: Vector, entry: FabricId, cap: nat, l: nat)
    requires entry in g && cap >= 1
    ensures var first := HitFor(g, metric, q, entry);
            && Searching(g, metric, q, entry, cap, l, {entry}, {first}, {first})
            && Pending(g, metric, q, {entry}, Elements([]), {first})
            && Followed(g, metric, q, entry, cap, l, []) && Visited(g, entry, l, []) == {entry}
  {
    assert Live(g, {entry}) == {entry};
  }

  lemma SearchHasResults(g: Graph, metric: Metric, q: Vector, entry: FabricId, cap: nat, l: nat,
                         visited: set<FabricId>, candidates: set<Hit>, results: set<Hit>)
    requires Searching(g, metric, q, entry, cap, l, visited, candidates, results) && cap >= 1
    ensures results != {} && |results| <= cap
    ensures forall h :: h in candidates || h in results ==> h.id in g && h.id in visited
  {
    assert entry in Live(g, visited);
  }

  /** No candidate is left, or all of them are farther than every result. */
  ghost predicate Exhausted(candidates: set<Hit>, results: set<Hit>) {
    forall c, r :: c in candidates && r in results ==> r.dist < c.dist
  }

  lemma {:induction false} FollowedLinks(g: Graph, entry: FabricId, l: nat, order: seq<FabricId>, x: FabricId)
    requires x in order
    ensures Elements(Links(g, x, l)) <= Visited(g, entry, l, order)
  {
    var n := |order| - 1;
    if x != order[n] {
      assert x in order[..n];
      FollowedLinks(g, entry, l, order[..n], x);
    }
  }

  lemma ResultsFollowed(g: Graph, metric: Metric, q: Vector, entry: FabricId, cap: nat, l: nat, order: seq<FabricId>,
                        candidates: set<Hit>, results: set<Hit>)
    requires Searching(g, metric, q, entry, cap, l, Visited(g, entry, l, order), candidates, results)
    requires Pending(g, metric, q, Visited(g, entry, l, order), Elements(order), candidates)
    requires Exhausted(candidates, results)
    ensures forall h, y :: h in results && y in Links(g, h.id, l) ==> y in Visited(g, entry, l, order)
  {
    forall h | h in results
      ensures Elements(Links(g, h.id, l)) <= Visited(g, entry, l, order)
    {
      assert h !in candidates;
      assert h.id in order;
      FollowedLinks(g, entry, l, order, h.id);
    }
  }

  function IdSet(hits: set<Hit>): set<FabricId> {
    set h | h in hits :: h.id
  }

  lemma {:induction false} IdCount(g: Graph, metric: Metric, q: Vector, hits: set<Hit>)
    requires forall h :: h in hits ==> h.id in g && h == HitFor(g, metric, q, h.id)
    ensures |IdSet(hits)| == |hits|
  {
    if h :| h in hits {
      IdCount(g, metric, q, hits - {h});
      assert IdSet(hits) == IdSet(hits - {h}) + {h.id};
    }
  }

  /** The links of the nearest candidate may be followed unless the beam is full and all of it nearer. */
  lemma NearestIsNext(g: Graph, metric: Metric, q: Vector, entry: FabricId, cap: nat, l: nat, visited: set<FabricId>,
                      done: set<FabricId>, candidates: set<Hit>, results: set<Hit>, c: Hit, worst: Hit)
    requires Searching(g, metric, q, entry, cap, l, visited, candidates, results)
    requires Pending(g, metric, q, visited, done, candidates)
    requires c in candidates && forall h :: h in candidates ==> c.dist <= h.dist
    requires worst in results && forall h :: h in results ==> h.dist <= worst.dist
    requires |results| < cap || c.dist <= worst.dist
    ensures IsNext(g, metric, q, visited, done, cap, c.id)
  {
    var near, live := Nearer(g, metric, q, visited, c.id), Live(g, visited);
    if |results| < cap {
      assert near <= live - {c.id};
      SubsetCount(near, live - {c.id});
    } else {
      forall y | y in near
        ensures y in IdSet(results - {worst})
      {
        assert HitFor(g, metric, q, y) in results - {worst};
      }
      IdCount(g, metric, q, results - {worst});
      SubsetCount(near, IdSet(results - {worst}));
    }
  }

  lemma FollowedNext(g: Graph, metric: Metric, q: Vector, entry: FabricId, cap: nat, l: nat, order: seq<FabricId>,
                     x: FabricId)
    requires Followed(g, metric, q, entry, cap, l, order)
    requires IsNext(g, metric, q, Visited(g, entry, l, order), Elements(order), cap, x)
    ensures Followed(g, metric, q, entry, cap, l, order + [x])
    ensures Visited(g, entry, l, order + [x]) == Visited(g, entry, l, order) + Elements(Links(g, x, l))
    ensures Elements(order + [x]) == Elements(order) + {x}
  {
    assert (order + [x])[..|order|] == order;
    hide IsNext;
  }

  /** With a full beam nearer than all candidates, nothing may be followed. */
  lemma SearchStops(g: Graph, metric: Metric, q: Vector, entry: FabricId, cap: nat, l: nat, visited: set<FabricId>,
                    done: set<FabricId>, candidates: set<Hit>, results: set<Hit>)
    requires Searching(g, metric, q, entry, cap, l, visited, candidates, results)
    requires Pending(g, metric, q, visited, done, candidates)
    requires Exhausted(candidates, results) && (candidates == {} || |results| == cap)
    ensures Stopped(g, metric, q, visited, done, cap)
  {
    IdCount(g, metric, q, results);
    forall y | y in visited && y in g && y !in done
      ensures |Nearer(g, metric, q, visited, y)| >= cap
    {
      assert HitFor(g, metric, q, y) in candidates;
      forall x | x in IdSet(results)
        ensures x in Nearer(g, metric, q, visited, y)
      {
        assert HitFor(g, metric, q, x) in results;
      }
      SubsetCount(IdSet(results), Nearer(g, metric, q, visited, y));
    }
  }

  lemma NoneLeft(results: set<Hit>)
    ensures Exhausted({}, results)
  {
  }

  lemma BeamIsFull(ef: nat, candidates: set<Hit>, results: set<Hit>, c: Hit, worst: Hit)
    requires c in candidates && forall h :: h in candidates ==> c.dist <= h.dist
    requires worst in results && forall h :: h in results ==> h.dist <= worst.dist
    requires ef <= |results| <= Max(ef, 1) && c.dist > worst.dist
    ensures Exhausted(candidates, results) && |results| == Max(ef, 1)
  {
    assert |results| != 0;
  }

  lemma Shrinks(g: Graph, seen0: set<FabricId>, candidates0: set<Hit>, seen: set<FabricId>, candidates: set<Hit>,
                c: Hit)
    requires Progress(g, seen0, candidates0 - {c}, seen, candidates) && c in candidates0
    ensures g.Keys - seen < g.Keys - seen0 || (g.Keys - seen == g.Keys - seen0 && |candidates| < |candidates0|)
  {
    if g.Keys - seen == g.Keys - seen0 {
      assert forall x :: x in g && x !in seen0 ==> x in g.Keys - seen0;
      assert candidates0 == candidates + {c};
    }
  }

  lemma DistinctIds(g: Graph, metric: Metric, q: Vector, hits: seq<Hit>)
    requires NoDuplicates(hits) && forall h :: h in hits ==> h.id in g && h == HitFor(g, metric, q, h.id)
    ensures NoDuplicates(Ids(hits))
    ensures forall h :: h in hits ==> h.id in Ids(hits)
  {
    forall i, j | 0 <= i < j < |hits|
      ensures Ids(hits)[i] != Ids(hits)[j]
    {
      assert hits[i] in hits && hits[j] in hits;
    }
    forall h | h in hits
      ensures h.id in Ids(hits)
    {
      var i :| 0 <= i < |hits| && hits[i] == h;
      assert Ids(hits)[i] == h.id;
    }
  }

  /** Turning the final heap into the sorted answer. */
  lemma BeamFinished(g: Graph, metric: Metric, q: Vector, entry: FabricId, ef: nat, l: nat, order: seq<FabricId>,
                     candidates: set<Hit>, results: set<Hit>, all: seq<Hit>)
    requires Searching(g, metric, q, entry, Max(ef, 1), l, Visited(g, entry, l, order), candidates, results)
    requires Sorted(all) && NoDuplicates(all) && |all| == |results|
    requires forall h :: h in all <==> h in results
    requires Followed(g, metric, q, entry, Max(ef, 1), l, order)
    requires Pending(g, metric, q, Visited(g, entry, l, order), Elements(order), candidates)
    requires Exhausted(candidates, results) && (candidates == {} || |results| == Max(ef, 1))
    ensures BeamResult(g, metric, q, entry, ef, l, Visited(g, entry, l, order), all[..Min(ef, |all|)])
  {
    hide Visited, Followed, Stopped, IsNext, Pending;
    var visited := Visited(g, entry, l, order);
    SearchStops(g, metric, q, entry, Max(ef, 1), l, visited, Elements(order), candidates, results);
    assert Explored(g, metric, q, entry, ef, l, visited);
    hide Explored, Exhausted;
    ResultsFollowed(g, metric, q, entry, Max(ef, 1), l, order, candidates, results);
    var out := all[..Min(ef, |all|)];
    assert entry in Live(g, visited);
    assert |out| == Min(ef, |Live(g, visited)|);
    assert out != [] ==> out == all;
    DistinctIds(g, metric, q, out);
  }

  // ---------------------------------------------------------------- layers and back-links

  /** Node x after `id` chose its neighbours `chosen[j]` on the layers j >= lo. */
  function Relinked(n: Node, x: FabricId, id: FabricId, chosen: seq<seq<FabricId>>, lo: nat): Node {
    n.(layers := seq(|n.layers|, j requires 0 <= j < |n.layers| =>
      if lo <= j < |chosen| && x in chosen[j] && id !in n.layers[j] then n.layers[j] + [id] else n.layers[j]))
  }

  function LinkedFrom(g: Graph, id: FabricId, chosen: seq<seq<FabricId>>, lo: nat): Graph {
    map x | x in g :: Relinked(g[x], x, id, chosen, lo)
  }

  /** The graph after inserting `id` with its choice of neighbours. */
  function Linked(g: Graph, id: FabricId, v: Vector, chosen: seq<seq<FabricId>>): Graph {
    LinkedFrom(g, id, chosen, 0)[id := Node(id, v, chosen)]
  }

  ghost predicate SameLayer(g: Graph, g': Graph, l: nat) {
    && g.Keys == g'.Keys
    && (forall x :: x in g ==> g[x].vector == g'[x].vector)
    && (forall x :: Links(g, x, l) == Links(g', x, l))
  }

  lemma {:induction false} FollowedSeesOneLayer(g: Graph, g': Graph, metric: Metric, q: Vector, entry: FabricId,
                                                cap: nat, l: nat, order: seq<FabricId>)
    requires SameLayer(g, g', l) && Followed(g', metric, q, entry, cap, l, order)
    ensures Followed(g, metric, q, entry, cap, l, order) && Visited(g, entry, l, order) == Visited(g', entry, l, order)
  {
    if order != [] {
      var before, x := order[..|order| - 1], order[|order| - 1];
      FollowedSeesOneLayer(g, g', metric, q, entry, cap, l, before);
      hide Visited;
      var V := Visited(g, entry, l, before);
      assert Nearer(g, metric, q, V, x) == Nearer(g', metric, q, V, x);
    }
  }

  lemma ExploredSeesOneLayer(g: Graph, g': Graph, metric: Metric, q: Vector, entry: FabricId, ef: nat, l: nat,
                             visited: set<FabricId>)
    requires SameLayer(g, g', l) && Explored(g', metric, q, entry, ef, l, visited)
    ensures Explored(g, metric, q, entry, ef, l, visited)
  {
    hide Followed, Visited;
    var order :|
      && Followed(g', metric, q, entry, Max(ef, 1), l, order)
      && visited == Visited(g', entry, l, order)
      && Stopped(g', metric, q, visited, Elements(order), Max(ef, 1));
    FollowedSeesOneLayer(g, g', metric, q, entry, Max(ef, 1), l, order);
    forall y | y in visited && y in g
      ensures Nearer(g, metric, q, visited, y) == Nearer(g', metric, q, visited, y)
    {
    }
  }

  lemma ReachedSeesOneLayer(g: Graph, g': Graph, l: nat, entry: FabricId, V: set<FabricId>)
    requires SameLayer(g, g', l) && Reached(g', l, entry, V)
    ensures Reached(g, l, entry, V) && Live(g, V) == Live(g', V)
  {
    forall S: set<FabricId> | Closed(g, l, S)
      ensures Closed(g', l, S)
    {
    }
  }

  /** A beam search on layer l sees only the vectors and the links of layer l. */
  lemma BeamSeesOneLayer(g: Graph, g': Graph, metric: Metric, q: Vector, entry: FabricId, ef: nat, l: nat,
                         visited: set<FabricId>, out: seq<Hit>)
    requires SameLayer(g, g', l) && BeamResult(g', metric, q, entry, ef, l, visited, out)
    ensures BeamResult(g, metric, q, entry, ef, l, visited, out)
  {
    hide Explored, Reached, Live, Sorted, NoDuplicates;
    ExploredSeesOneLayer(g, g', metric, q, entry, ef, l, visited);
    ReachedSeesOneLayer(g, g', l, entry, visited);
  }

  /** Links made on higher layers leave layer l as it was. */
  lemma LinkedSameLayer(g: Graph, id: FabricId, chosen: seq<seq<FabricId>>, l: nat)
    ensures SameLayer(g, LinkedFrom(g, id, chosen, l + 1), l)
    ensures LinkedFrom(g, id, chosen, l + 1).Keys == g.Keys
  {
  }

  lemma BeamHits(g: Graph, metric: Metric, q: Vector, entry: FabricId, ef: nat, l: nat, visited: set<FabricId>,
                 out: seq<Hit>)
    requires BeamResult(g, metric, q, entry, ef, l, visited, out)
    ensures NoDuplicates(Ids(out)) && forall x :: x in Ids(out) ==> x in g
  {
    hide Explored, Reached;
    forall x | x in Ids(out)
      ensures x in g
    {
      var i :| 0 <= i < |out| && Ids(out)[i] == x;
      assert out[i] in out;
    }
  }

  lemma PrefixIds(s: seq<Hit>, n: nat)
    requires n <= |s|
    ensures Ids(s[..n]) == Ids(s)[..n]
  {
  }

  /** One more neighbour on layer l. */
  lemma LinkOne(g: Graph, id: FabricId, chosen: seq<seq<FabricId>>, l: nat, done: seq<FabricId>, x: FabricId)
    requires l < |chosen| && x !in done && x in g
    ensures LinkedFrom(g, id, chosen[l := done + [x]], l)
         == LinkedFrom(g, id, chosen[l := done], l)[x := Relinked(g[x], x, id, chosen[l := done + [x]], l)]
  {
    var a, b := LinkedFrom(g, id, chosen[l := done + [x]], l), LinkedFrom(g, id, chosen[l := done], l);
    forall y | y in g && y != x
      ensures a[y] == b[y]
    {
      assert a[y].layers == b[y].layers;
    }
  }

  /** A layer without choices may be counted as linked already. */
  lemma LinkNone(g: Graph, id: FabricId, chosen: seq<seq<FabricId>>, l: nat)
    requires l < |chosen| && chosen[l] == []
    ensures LinkedFrom(g, id, chosen, l) == LinkedFrom(g, id, chosen, l + 1)
  {
    forall y | y in g
      ensures LinkedFrom(g, id, chosen, l)[y] == LinkedFrom(g, id, chosen, l + 1)[y]
    {
      assert LinkedFrom(g, id, chosen, l)[y].layers == LinkedFrom(g, id, chosen, l + 1)[y].layers;
    }
  }

  /** No choices at or above lo: nothing was linked yet. */
  lemma LinkNothing(g: Graph, id: FabricId, chosen: seq<seq<FabricId>>, lo: nat)
    requires forall j :: lo <= j < |chosen| ==> chosen[j] == []
    ensures LinkedFrom(g, id, chosen, lo) == g
  {
    forall y | y in g
      ensures LinkedFrom(g, id, chosen, lo)[y] == g[y]
    {
      assert LinkedFrom(g, id, chosen, lo)[y].layers == g[y].layers;
    }
  }

  // ---------------------------------------------------------------- the index as a state machine

  datatype Index = Index(nodes: Graph, entryPoint: Option<FabricId>, currentLevel: nat)

  const EMPTY := Index(map[], None, 0)

  /** The entry point, when set, is a live node. Otherwise a search panics. */
  predicate EntryLive(s: Index) {
    s.entryPoint.Some? ==> s.entryPoint.value in s.nodes
  }

  /** A beam of width one on layer l moves from `from` to `to`. */
  ghost predicate GreedyStep(g: Graph, metric: Metric, q: Vector, from: FabricId, l: nat, to: FabricId) {
    to in g && exists visited :: BeamResult(g, metric, q, from, 1, l, visited, [HitFor(g, metric, q, to)])
  }

  /** Greedy steps on the layers hi, hi-1, .., lo lead from `from` to `to`. */
  ghost predicate Descent(g: Graph, metric: Metric, q: Vector, from: FabricId, hi: nat, lo: nat, to: FabricId)
    decreases hi + 1 - lo
  {
    if hi < lo then to == from
    else exists mid ::
      Descent(g, metric, q, from, hi, lo + 1, mid) && GreedyStep(g, metric, q, mid, lo, to)
  }

  function SelectNeighbors(candidates: seq<Hit>, m: nat): (r: seq<FabricId>)
    ensures |r| == Min(m, |candidates|) && forall i :: 0 <= i < |r| ==> r[i] == candidates[i].id
  {
    Ids(candidates[..Min(m, |candidates|)])
  }

  /** A beam of width one has one hit, and moving there is a greedy step. */
  lemma NearestIsGreedy(g: Graph, metric: Metric, q: Vector, from: FabricId, l: nat, visited: set<FabricId>,
                         out: seq<Hit>)
    requires BeamResult(g, metric, q, from, 1, l, visited, out)
    ensures |out| == 1 && out[0].id in g && GreedyStep(g, metric, q, from, l, out[0].id)
  {
    assert {from} <= Live(g, visited);
    SubsetCount({from}, Live(g, visited));
    assert out[0] in out;
    assert out == [HitFor(g, metric, q, out[0].id)];
  }

  lemma DescentStarts(g: Graph, metric: Metric, q: Vector, from: FabricId, hi: nat)
    ensures Descent(g, metric, q, from, hi, hi + 1, from)
  {
  }

  lemma DescentAbove(g: Graph, metric: Metric, q: Vector, from: FabricId, hi: nat, lo: nat)
    ensures lo > hi ==> Descent(g, metric, q, from, hi, lo, from)
  {
  }

  lemma DescentExtends(g: Graph, metric: Metric, q: Vector, from: FabricId, hi: nat, l: nat, mid: FabricId,
                       to: FabricId)
    requires l <= hi && Descent(g, metric, q, from, hi, l + 1, mid) && GreedyStep(g, metric, q, mid, l, to)
    ensures Descent(g, metric, q, from, hi, l, to)
  {
    hide GreedyStep;
  }

  /** `neighbors` are the m nearest hits of some beam search on layer l. */
  ghost predicate Chosen(g: Graph, metric: Metric, p: Params, q: Vector, start: FabricId, l: nat,
                         neighbors: seq<FabricId>) {
    exists visited, out ::
      && BeamResult(g, metric, q, start, p.efConstruction, l, visited, out)
      && neighbors == Ids(out[..Min(p.m, |out|)])
  }

  /** The neighbours of a new node of height `level`: chosen on every layer that exists. */
  ghost predicate ChosenPerLayer(s: Index, metric: Metric, p: Params, q: Vector, start: FabricId, level: nat,
                                 chosen: seq<seq<FabricId>>) {
    && |chosen| == level + 1
    && (forall l :: 0 <= l <= level && l <= s.currentLevel
                    ==> Chosen(s.nodes, metric, p, q, start, l, chosen[l]))
    && (forall l :: s.currentLevel < l <= level ==> chosen[l] == [])
  }

  ghost predicate InsertStep(s: Index, metric: Metric, p: Params, id: FabricId, v: Vector, level: nat, t: Index) {
    match s.entryPoint
    case None =>
      t == Index(s.nodes[id := Node(id, v, seq(level + 1, _ => []))], Some(id), level)
    case Some(e) =>
      exists start, chosen ::
        && Descent(s.nodes, metric, v, e, s.currentLevel, level + 1, start)
        && ChosenPerLayer(s, metric, p, v, start, level, chosen)
        && t == s.(nodes := Linked(s.nodes, id, v, chosen))
  }

  function ToNeighbor(g: Graph, metric: Metric, q: Vector, h: Hit): Neighbor {
    Neighbor(h.id, h.dist, if h.id in g then metric.similarity(q, g[h.id].vector) else 0.0)
  }

  function FirstNeighbors(g: Graph, metric: Metric, q: Vector, k: nat, hits: seq<Hit>): seq<Neighbor> {
    seq(Min(k, |hits|), i requires 0 <= i < Min(k, |hits|) => ToNeighbor(g, metric, q, hits[i]))
  }

  ghost predicate SearchStep(s: Index, metric: Metric, q: Vector, k: nat, ef: nat, res: seq<Neighbor>) {
    match s.entryPoint
    case None => res == []
    case Some(e) =>
      exists start, visited, out ::
        && Descent(s.nodes, metric, q, e, s.currentLevel, 1, start)
        && BeamResult(s.nodes, metric, q, start, Max(ef, k), 0, visited, out)
        && res == FirstNeighbors(s.nodes, metric, q, k, out)
  }

  class HnswIndex {
    const params: Params
    const metric: Metric
    var nodes: Graph
    var entryPoint: Option<FabricId>
    var currentLevel: nat

    ghost function State(): Index
      reads this
    {
      Index(nodes, entryPoint, currentLevel)
    }

    constructor (metric: Metric, params: Params)
      ensures State() == EMPTY && this.metric == metric && this.params == params
    {
      this.metric, this.params := metric, params;
      nodes, entryPoint, currentLevel := map[], None, 0;
    }

    /** Beam search from `entry` on one layer. */
    method SearchLayer(query: Vector, entry: FabricId, ef: nat, level: nat)
      returns (out: seq<Hit>, ghost visited: set<FabricId>)
      requires entry in nodes
      ensures BeamResult(nodes, metric, query, entry, ef, level, visited, out)
      ensures |out| <= ef && forall h :: h in out ==> h.id in nodes && h == HitFor(nodes, metric, query, h.id)
    {
      hide Searching, Pending, Followed, Visited, Explored;
      ghost var order, candidates;
      var results;
      order, candidates, results := Explore(query, entry, ef, level);
      visited := Visited(nodes, entry, level, order);
      var all := DrainSorted(results);
      out := all[..Min(ef, |all|)];
      BeamFinished(nodes, metric, query, entry, ef, level, order, candidates, results, all);
    }

    /** The loop of a beam search, until no candidate is left or all are farther than a full beam. */
    method Explore(query: Vector, entry: FabricId, ef: nat, level: nat)
      returns (ghost order: seq<FabricId>, ghost rest: set<Hit>, results: set<Hit>)
      requires entry in nodes
      ensures Followed(nodes, metric, query, entry, Max(ef, 1), level, order)
      ensures var visited := Visited(nodes, entry, level, order);
        && Searching(nodes, metric, query, entry, Max(ef, 1), level, visited, rest, results)
        && Pending(nodes, metric, query, visited, Elements(order), rest)
      ensures Exhausted(rest, results) && (rest == {} || |results| == Max(ef, 1))
    {
      ghost var cap, g := Max(ef, 1), nodes;
      var first := HitFor(nodes, metric, query, entry);
      var seen := {entry};
      var candidates := {first};
      results := {first};
      order := [];
      SearchStarts(g, metric, query, entry, cap, level);
      hide *;
      while candidates != {}
        invariant seen == Visited(g, entry, level, order)
        invariant Followed(g, metric, query, entry, cap, level, order)
        invariant Searching(g, metric, query, entry, cap, level, seen, candidates, results)
        invariant Pending(g, metric, query, seen, Elements(order), candidates)
        decreases g.Keys - seen, |candidates|
      {
        SearchHasResults(g, metric, query, entry, cap, level, seen, candidates, results);
        var c := Nearest(candidates);
        var worst := Farthest(results);
        if |results| >= ef && c.dist > worst.dist {
          BeamIsFull(ef, candidates, results, c, worst);
          break;
        }
        NearestIsNext(g, metric, query, entry, cap, level, seen, Elements(order), candidates, results, c, worst);
        ghost var seen0, candidates0 := seen, candidates;
        seen, candidates, results := Follow(query, entry, ef, level, c, seen, candidates, results, order);
        Shrinks(g, seen0, candidates0, seen, candidates, c);
        order := order + [c.id];
      }
      assert candidates == {} ==> Exhausted(candidates, results) by { NoneLeft(results); }
      rest := candidates;
    }

    /** The body of the search loop: pop the candidate c and visit its links. */
    method Follow(query: Vector, entry: FabricId, ef: nat, level: nat, c: Hit,
                  seen0: set<FabricId>, candidates0: set<Hit>, results0: set<Hit>, ghost order: seq<FabricId>)
      returns (seen: set<FabricId>, candidates: set<Hit>, results: set<Hit>)
      requires Searching(nodes, metric, query, entry, Max(ef, 1), level, seen0, candidates0, results0)
      requires Pending(nodes, metric, query, seen0, Elements(order), candidates0) && c in candidates0
      requires seen0 == Visited(nodes, entry, level, order)
      requires Followed(nodes, metric, query, entry, Max(ef, 1), level, order)
      requires IsNext(nodes, metric, query, seen0, Elements(order), Max(ef, 1), c.id)
      ensures Followed(nodes, metric, query, entry, Max(ef, 1), level, order + [c.id])
      ensures seen == Visited(nodes, entry, level, order + [c.id])
      ensures Searching(nodes, metric, query, entry, Max(ef, 1), level, seen, candidates, results)
      ensures Pending(nodes, metric, query, seen, Elements(order + [c.id]), candidates)
      ensures Progress(nodes, seen0, candidates0 - {c}, seen, candidates)
    {
      hide Visited, Followed, IsNext, Reached, Searching, Pending;
      ghost var cap, g, done := Max(ef, 1), nodes, Elements(order + [c.id]);
      FollowedNext(g, metric, query, entry, cap, level, order, c.id);
      PendingPopped(g, metric, query, entry, cap, level, seen0, Elements(order), candidates0, results0, c);
      var links := [];
      if level < |nodes[c.id].layers| {
        links := nodes[c.id].layers[level];
      }
      seen, candidates, results := seen0, candidates0 - {c}, results0;
      var i := 0;
      while i < |links|
        invariant 0 <= i <= |links|
        invariant Searching(g, metric, query, entry, cap, level, seen, candidates, results)
        invariant Pending(g, metric, query, seen, done, candidates)
        invariant seen == seen0 + Elements(links[..i])
        invariant Progress(g, seen0, candidates0 - {c}, seen, candidates)
      {
        seen, candidates, results := Visit(query, entry, ef, level, c.id, links[i], seen, candidates, results, done);
        PrefixElements(links, i);
        i := i + 1;
      }
      assert links[..|links|] == links;
    }

    /** Visit one link y of x, unless it was visited before. */
    method Visit(query: Vector, entry: FabricId, ef: nat, level: nat, ghost x: FabricId, y: FabricId,
                 seen0: set<FabricId>, candidates0: set<Hit>, results0: set<Hit>, ghost done: set<FabricId>)
      returns (seen: set<FabricId>, candidates: set<Hit>, results: set<Hit>)
      requires Searching(nodes, metric, query, entry, Max(ef, 1), level, seen0, candidates0, results0)
      requires Pending(nodes, metric, query, seen0, done, candidates0)
      requires x in seen0 && y in Links(nodes, x, level)
      ensures Searching(nodes, metric, query, entry, Max(ef, 1), level, seen, candidates, results)
      ensures Pending(nodes, metric, query, seen, done, candidates)
      ensures seen == seen0 + {y}
      ensures candidates == candidates0 || (y in nodes && y !in seen0)
    {
      ghost var cap, g := Max(ef, 1), nodes;
      seen, candidates, results := seen0, candidates0, results0;
      if y !in seen0 {
        ReachedExtends(g, level, entry, seen0, x, y);
        PendingGrows(g, metric, query, seen0, done, candidates0, y);
        seen := seen0 + {y};
        if y in nodes {
          var h := HitFor(nodes, metric, query, y);
          candidates, results := candidates0 + {h}, results0 + {h};
          var farthest := h;
          if |results| > ef {
            farthest := Farthest(results);
            results := results - {farthest};
          }
          VisitLive(g, metric, query, entry, cap, level, seen0, candidates0, results0, y, farthest, results);
        } else {
          VisitDangling(g, metric, query, entry, cap, level, seen0, candidates0, results0, y);
        }
      } else {
        assert seen0 + {y} == seen0;
      }
    }

    /** Greedy search with a beam of width one on the layers hi, hi-1, .., lo. */
    method Descend(query: Vector, entry: FabricId, hi: nat, lo: nat) returns (curr: FabricId)
      requires entry in nodes
      ensures curr in nodes && Descent(nodes, metric, query, entry, hi, lo, curr)
    {
      hide *;
      curr := entry;
      var l := hi + 1;
      DescentStarts(nodes, metric, query, entry, hi);
      DescentAbove(nodes, metric, query, entry, hi, lo);
      while l > lo
        invariant curr in nodes && l <= hi + 1 && (l >= lo || l == hi + 1) && (l == hi + 1 ==> curr == entry)
        invariant Descent(nodes, metric, query, entry, hi, l, curr)
      {
        l := l - 1;
        ghost var from := curr;
        var nearest, visited := SearchLayer(query, curr, 1, l);
        NearestIsGreedy(nodes, metric, query, curr, l, visited, nearest);
        if |nearest| > 0 {
          curr := nearest[0].id;
        }
        DescentExtends(nodes, metric, query, entry, hi, l, from, curr);
      }
    }

    /** Add the back-links from the chosen neighbours on layer l to the new node. */
    method LinkLayer(id: FabricId, neighbors: seq<FabricId>, l: nat,
                     ghost base: Graph, ghost chosen: seq<seq<FabricId>>)
      requires l < |chosen| && chosen[l] == []
      requires nodes == LinkedFrom(base, id, chosen, l + 1)
      requires NoDuplicates(neighbors) && forall x :: x in neighbors ==> x in base
      modifies this`nodes
      ensures nodes == LinkedFrom(base, id, chosen[l := neighbors], l)
    {
      LinkNone(base, id, chosen, l);
      assert chosen[l := neighbors[..0]] == chosen;
      for i := 0 to |neighbors|
        invariant nodes == LinkedFrom(base, id, chosen[l := neighbors[..i]], l)
      {
        var nid := neighbors[i];
        assert nid !in neighbors[..i];
        LinkOne(base, id, chosen, l, neighbors[..i], nid);
        assert neighbors[..i + 1] == neighbors[..i] + [nid];
        ghost var want := Relinked(base[nid], nid, id, chosen[l := neighbors[..i + 1]], l);
        if nid in nodes {
          var n := nodes[nid];
          if l < |n.layers| && id !in n.layers[l] {
            nodes := nodes[nid := n.(layers := n.layers[l := n.layers[l] + [id]])];
          }
          assert nodes[nid].layers == want.layers;
        }
      }
      assert neighbors[..|neighbors|] == neighbors;
    }

    /** The neighbours of a new node on layer l. Only higher layers were linked to it so far. */
    method ChooseNeighbors(embedding: Vector, start: FabricId, l: nat, ghost id: FabricId,
                           ghost base: Graph, ghost chosen: seq<seq<FabricId>>)
      returns (neighbors: seq<FabricId>)
      requires start in nodes && nodes == LinkedFrom(base, id, chosen, l + 1)
      ensures Chosen(base, metric, params, embedding, start, l, neighbors)
      ensures NoDuplicates(neighbors) && forall x :: x in neighbors ==> x in base
    {
      hide LinkedFrom, BeamResult, SameLayer;
      LinkedSameLayer(base, id, chosen, l);
      var nearest, visited := SearchLayer(embedding, start, params.efConstruction, l);
      BeamSeesOneLayer(base, nodes, metric, embedding, start, params.efConstruction, l, visited, nearest);
      neighbors := SelectNeighbors(nearest, params.m);
      PrefixIds(nearest, Min(params.m, |nearest|));
      BeamHits(base, metric, embedding, start, params.efConstruction, l, visited, nearest);
    }

    /** Insert a node of the given height. */
    method Insert(id: FabricId, embedding: Vector, level: nat)
      requires EntryLive(State())
      modifies this
      ensures InsertStep(old(State()), metric, params, id, embedding, level, State())
      ensures EntryLive(State())
    {
      hide Descent, Chosen, BeamResult;
      ghost var s, base := State(), nodes;
      var layers: seq<seq<FabricId>> := seq(level + 1, _ => []);
      if entryPoint.Some? {
        var start := Descend(embedding, entryPoint.value, currentLevel, level + 1);
        var l := Min(level, currentLevel) + 1;
        LinkNothing(base, id, layers, l);
        while l > 0
          invariant 0 <= l <= Min(level, currentLevel) + 1
          invariant |layers| == level + 1
          invariant forall j :: 0 <= j < l ==> layers[j] == []
          invariant forall j :: currentLevel < j <= level ==> layers[j] == []
          invariant forall j :: l <= j <= Min(level, currentLevel)
                                ==> Chosen(base, metric, params, embedding, start, j, layers[j])
          invariant nodes == LinkedFrom(base, id, layers, l)
          invariant entryPoint == s.entryPoint && currentLevel == s.currentLevel
        {
          hide LinkedFrom, Linked, InsertStep, ChosenPerLayer;
          l := l - 1;
          var neighbors := ChooseNeighbors(embedding, start, l, id, base, layers);
          LinkLayer(id, neighbors, l, base, layers);
          layers := layers[l := neighbors];
        }
        nodes := nodes[id := Node(id, embedding, layers)];
        assert ChosenPerLayer(s, metric, params, embedding, start, level, layers);
        assert State() == s.(nodes := Linked(base, id, embedding, layers));
      } else {
        entryPoint, currentLevel := Some(id), level;
        nodes := nodes[id := Node(id, embedding, layers)];
      }
    }

    method Search(query: Vector, k: nat, ef: nat) returns (res: seq<Neighbor>)
      requires EntryLive(State())
      ensures SearchStep(State(), metric, query, k, ef, res)
    {
      if entryPoint.None? { return []; }
      var curr := Descend(query, entryPoint.value, currentLevel, 1);
      var hits, visited := SearchLayer(query, curr, Max(ef, k), 0);
      res := FirstNeighbors(nodes, metric, query, k, hits);
    }

    /** Links to the removed node, and the entry point, stay as they were. */
    method Remove(id: FabricId) returns (found: bool)
      modifies this
      ensures found == (id in old(nodes))
      ensures State() == old(State()).(nodes := old(nodes) - {id})
      ensures old(EntryLive(State())) ==> (EntryLive(State()) <==> entryPoint != Some(id))
    {
      found := id in nodes;
      nodes := nodes - {id};
    }
  }
}
