/** Searches after insertions and removals, which leave links to removed nodes behind. */
module HnswRemovals {
  import opened Common
  import opened Hnsw
  import opened HnswProofs
  import opened HnswTheorems

  datatype Change = Add(rec: Insertion) | Drop(id: FabricId)

  /** Inserting needs a live entry point; removing does not. */
  ghost predicate ChangeStep(s: Index, metric: Metric, p: Params, c: Change, t: Index) {
    match c
    case Add(r) => EntryLive(s) && InsertStep(s, metric, p, r.id, r.vector, r.level, t)
    case Drop(id) => t == s.(nodes := s.nodes - {id})
  }

  /** t is a possible index after the changes; ids may come again. */
  ghost predicate Changed(metric: Metric, p: Params, h: seq<Change>, t: Index) {
    if h == [] then t == EMPTY
    else
      var n := |h| - 1;
      exists s :: Changed(metric, p, h[..n], s) && ChangeStep(s, metric, p, h[n], t)
  }

  /** The vectors that were inserted last and not removed since. */
  function Kept(h: seq<Change>): map<FabricId, Vector> {
    if h == [] then map[]
    else
      match h[|h| - 1]
      case Add(r) => Kept(h[..|h| - 1])[r.id := r.vector]
      case Drop(id) => Kept(h[..|h| - 1]) - {id}
  }

  lemma InsertStores(s: Index, metric: Metric, p: Params, id: FabricId, v: Vector, level: nat, t: Index)
    requires InsertStep(s, metric, p, id, v, level, t)
    ensures Vectors(t.nodes) == Vectors(s.nodes)[id := v]
  {
    if s.entryPoint.Some? {
      var start, chosen :| Descent(s.nodes, metric, v, s.entryPoint.value, s.currentLevel, level + 1, start)
                           && ChosenPerLayer(s, metric, p, v, start, level, chosen)
                           && t == s.(nodes := Linked(s.nodes, id, v, chosen));
      hide Descent, ChosenPerLayer;
      assert LinkedFrom(s.nodes, id, chosen, 0).Keys == s.nodes.Keys;
    }
  }

  /** Every index reached by insertions and removals stores exactly the kept vectors. */
  lemma {:induction false} StoredIsKept(metric: Metric, p: Params, h: seq<Change>, t: Index)
    requires Changed(metric, p, h, t)
    ensures Vectors(t.nodes) == Kept(h)
  {
    if h != [] {
      var s :| Changed(metric, p, h[..|h| - 1], s) && ChangeStep(s, metric, p, h[|h| - 1], t);
      hide Changed, InsertStep;
      StoredIsKept(metric, p, h[..|h| - 1], s);
      match h[|h| - 1]
      case Add(r) => InsertStores(s, metric, p, r.id, r.vector, r.level, t);
      case Drop(id) => assert Vectors(s.nodes - {id}) == Vectors(s.nodes) - {id};
    }
  }

  /** The vectors of the live nodes that paths on layer 0 reach from a node. */
  ghost function ReachableVectors(g: Graph, start: FabricId): map<FabricId, Vector> {
    map x | x in g && Reached(g, 0, start, {x}) :: g[x].vector
  }

  lemma BeamHits(g: Graph, metric: Metric, q: Vector, start: FabricId, ef: nat, l: nat,
                 visited: set<FabricId>, out: seq<Hit>)
    requires BeamResult(g, metric, q, start, ef, l, visited, out)
    ensures Sorted(out) && NoDuplicates(Ids(out)) && |Ids(out)| == |out|
    ensures forall h :: h in out ==> h.id in g && h.id in Ids(out) && h.dist == metric.distance(q, g[h.id].vector)
    ensures |Live(g, visited)| <= |g|
  {
    SubsetCount(Live(g, visited), g.Keys);
    forall h | h in out
      ensures h.id in Ids(out)
    {
      var i :| 0 <= i < |out| && out[i] == h;
      assert Ids(out)[i] == h.id;
    }
  }

  lemma WideBeamIsTopK(g: Graph, metric: Metric, q: Vector, start: FabricId, width: nat,
                       visited: set<FabricId>, out: seq<Hit>)
    requires BeamResult(g, metric, q, start, width, 0, visited, out) && width >= |g|
    ensures var vecs := ReachableVectors(g, start); TopK(vecs, metric, q, |vecs|, out)
  {
    hide BeamResult, Reached, Live, Sorted, NoDuplicates;
    var vecs := ReachableVectors(g, start);
    BeamHits(g, metric, q, start, width, 0, visited, out);
    WideBeamFindsReachable(g, metric, q, start, width, 0, visited, out);
    assert forall x :: x in Ids(out) <==> x in vecs;
    assert Elements(Ids(out)) == vecs.Keys;
    DistinctCount(Ids(out));
    assert |vecs| == |vecs.Keys| == |out|;
  }

  lemma SearchFrom(t: Index, metric: Metric, q: Vector, k: nat, ef: nat, res: seq<Neighbor>) returns (start: FabricId)
    requires t.entryPoint.Some? && SearchStep(t, metric, q, k, ef, res) && Max(ef, k) >= |t.nodes|
    ensures Descent(t.nodes, metric, q, t.entryPoint.value, t.currentLevel, 1, start)
    ensures TopK(ReachableVectors(t.nodes, start), metric, q, k, Hits(res))
  {
    hide Descent, BeamResult, TopK, Reached;
    var visited, out;
    start, visited, out :| Descent(t.nodes, metric, q, t.entryPoint.value, t.currentLevel, 1, start)
                           && BeamResult(t.nodes, metric, q, start, Max(ef, k), 0, visited, out)
                           && res == FirstNeighbors(t.nodes, metric, q, k, out);
    WideBeamIsTopK(t.nodes, metric, q, start, Max(ef, k), visited, out);
    PrefixIsTopK(ReachableVectors(t.nodes, start), metric, q, k, out);
    HitsOfFirst(t.nodes, metric, q, k, out);
  }

  /** An answer that is exact for some of the vectors is exact for all of them exactly when it is as long
      as it could be and none of the others is nearer than a hit. */
  lemma ExactForAll(some: map<FabricId, Vector>, all: map<FabricId, Vector>, metric: Metric, q: Vector, k: nat,
                    hits: seq<Hit>)
    requires some.Keys <= all.Keys && forall x :: x in some ==> some[x] == all[x]
    requires TopK(some, metric, q, k, hits)
    ensures TopK(all, metric, q, k, hits) <==>
            && (k <= |some| || some.Keys == all.Keys)
            && forall x, h :: x in all && x !in some && h in hits ==> h.dist <= metric.distance(q, all[x])
  {
    SubsetCount(some.Keys, all.Keys);
    assert |some| == |some.Keys| && |all| == |all.Keys|;
    assert forall x :: x in Ids(hits) ==> x in some by {
      forall x | x in Ids(hits)
        ensures x in some
      {
        var i := Position(hits, x);
      }
    }
  }

  /** All of them are asked for. */
  lemma ExactForAllAsked(some: map<FabricId, Vector>, all: map<FabricId, Vector>, metric: Metric, q: Vector, k: nat,
                         hits: seq<Hit>)
    requires some.Keys <= all.Keys && (forall x :: x in some ==> some[x] == all[x]) && k >= |all|
    requires TopK(some, metric, q, k, hits)
    ensures TopK(all, metric, q, k, hits) <==> some.Keys == all.Keys
  {
    hide TopK;
    ExactForAll(some, all, metric, q, k, hits);
    SubsetCount(some.Keys, all.Keys);
    assert |some| == |some.Keys| && |all| == |all.Keys|;
  }

  /** The stored vector x can be reached on layer 0 from a node. */
  ghost predicate Reachable(t: Index, start: FabricId, x: FabricId) {
    Reached(t.nodes, 0, start, {x})
  }

  /** After any insertions and removals that leave the entry point live, a wide search returns the k
      nearest of the stored vectors that are reachable from where its descent ends. It agrees with a
      full scan exactly when those are enough and no unreachable vector is nearer than a hit; asking for
      all vectors, exactly when all are reachable. */
  lemma SearchAfterRemovals(metric: Metric, p: Params, h: seq<Change>, t: Index,
                            q: Vector, k: nat, ef: nat, res: seq<Neighbor>) returns (start: FabricId)
    requires Changed(metric, p, h, t) && t.entryPoint.Some?
    requires SearchStep(t, metric, q, k, ef, res) && Max(ef, k) >= |Kept(h)|
    ensures Descent(t.nodes, metric, q, t.entryPoint.value, t.currentLevel, 1, start)
    ensures TopK(ReachableVectors(t.nodes, start), metric, q, k, Hits(res))
    ensures TopK(Kept(h), metric, q, k, Hits(res)) <==>
            && (k <= |ReachableVectors(t.nodes, start)| || forall x :: x in Kept(h) ==> Reachable(t, start, x))
            && forall x, r :: x in Kept(h) && !Reachable(t, start, x) && r in Hits(res)
                              ==> r.dist <= metric.distance(q, Kept(h)[x])
    ensures k >= |Kept(h)| ==>
              (TopK(Kept(h), metric, q, k, Hits(res)) <==> forall x :: x in Kept(h) ==> Reachable(t, start, x))
  {
    assert t.nodes.Keys == Vectors(t.nodes).Keys;
    assert |t.nodes| == |t.nodes.Keys| == |Vectors(t.nodes).Keys| == |Vectors(t.nodes)|;
    hide Changed, SearchStep, TopK, Kept, Reached, Descent, Hits;
    StoredIsKept(metric, p, h, t);
    start := SearchFrom(t, metric, q, k, ef, res);
    var some := ReachableVectors(t.nodes, start);
    assert forall x :: x in some <==> x in Kept(h) && Reachable(t, start, x);
    assert some.Keys == Kept(h).Keys <==> forall x :: x in Kept(h) ==> Reachable(t, start, x);
    ExactForAll(some, Kept(h), metric, q, k, Hits(res));
    if k >= |Kept(h)| {
      ExactForAllAsked(some, Kept(h), metric, q, k, Hits(res));
    }
  }

  // ---------------------------------------------------------------- a removal that cuts off a stored vector

  function Gap(q: Vector, v: Vector): real {
    if |q| <= |v| then (|v| - |q|) as real else (|q| - |v|) as real
  }

  /** The difference of lengths. */
  const GAP: Metric := Metric((q, v) => Gap(q, v), (q, v) => 0.0)

  /** Vectors of length 0, 1 and 2, inserted in this order; then the middle one is removed. */
  function CutHistory(a: FabricId, b: FabricId, c: FabricId): seq<Change> {
    [Add(Insertion(a, [], 0)), Add(Insertion(b, [0.0], 0)), Add(Insertion(c, [0.0, 0.0], 0)), Drop(b)]
  }

  function CutState(a: FabricId, b: FabricId, c: FabricId, i: nat): Index {
    var first := map[a := Node(a, [], [[b]])];
    var last := map[c := Node(c, [0.0, 0.0], [[b]])];
    match i
    case 0 => EMPTY
    case 1 => Index(map[a := Node(a, [], [[]])], Some(a), 0)
    case 2 => Index(first + map[b := Node(b, [0.0], [[a]])], Some(a), 0)
    case 3 => Index(first + map[b := Node(b, [0.0], [[a, c]])] + last, Some(a), 0)
    case _ => Index(first + last, Some(a), 0)
  }

  lemma LinkReached(g: Graph, a: FabricId, b: FabricId)
    requires b in Links(g, a, 0)
    ensures Reached(g, 0, a, {a, b})
  {
  }

  /** A beam over an entry without links finds the entry. */
  lemma LoneBeam(g: Graph, q: Vector, a: FabricId)
    requires a in g && Links(g, a, 0) == []
    ensures BeamResult(g, GAP, q, a, 1, 0, {a}, [HitFor(g, GAP, q, a)])
  {
    ExploredOnce(g, GAP, q, a, 1, 0, {a});
    hide Explored;
    assert Live(g, {a}) == {a};
    assert Ids([HitFor(g, GAP, q, a)]) == [a];
  }

  lemma NothingFollowed(g: Graph, q: Vector, a: FabricId)
    ensures Visited(g, a, 0, []) == {a} && Followed(g, GAP, q, a, 1, 0, [])
  {
  }

  lemma OrderExplored(g: Graph, q: Vector, a: FabricId, order: seq<FabricId>)
    requires Followed(g, GAP, q, a, 1, 0, order)
    requires Stopped(g, GAP, q, Visited(g, a, 0, order), Elements(order), 1)
    ensures Explored(g, GAP, q, a, 1, 0, Visited(g, a, 0, order))
  {
  }

  /** The beam follows the links of a, and then those of b, which is nearer. */
  lemma PairExplored(g: Graph, q: Vector, a: FabricId, b: FabricId)
    requires a != b && a in g && b in g && Links(g, a, 0) == [b] && Links(g, b, 0) == [a]
    requires HitFor(g, GAP, q, b).dist <= HitFor(g, GAP, q, a).dist
    ensures Explored(g, GAP, q, a, 1, 0, {a, b})
  {
    hide Explored, Followed;
    assert Elements([a]) == {a} && Elements([a, b]) == {a, b} && Elements([b]) == {b};
    assert Elements<FabricId>([]) == {};
    assert Nearer(g, GAP, q, {a}, a) == {} && Nearer(g, GAP, q, {a, b}, b) == {};
    assert IsNext(g, GAP, q, {a}, {}, 1, a) && IsNext(g, GAP, q, {a, b}, {a}, 1, b);
    NothingFollowed(g, q, a);
    assert Stopped(g, GAP, q, {a, b}, {a, b}, 1);
    hide IsNext, Stopped, Nearer, Links, Visited;
    FollowedNext(g, GAP, q, a, 1, 0, [], a);
    assert [] + [a] == [a] && {a} + {b} == {a, b};
    FollowedNext(g, GAP, q, a, 1, 0, [a], b);
    assert [a] + [b] == [a, b] && {a, b} + {a} == {a, b};
    OrderExplored(g, q, a, [a, b]);
  }

  /** A beam of width one from a over a and its only link b finds b when b is nearer. */
  lemma PairBeam(g: Graph, q: Vector, a: FabricId, b: FabricId)
    requires a != b && a in g && b in g && Links(g, a, 0) == [b] && Links(g, b, 0) == [a]
    requires HitFor(g, GAP, q, b).dist <= HitFor(g, GAP, q, a).dist
    ensures BeamResult(g, GAP, q, a, 1, 0, {a, b}, [HitFor(g, GAP, q, b)])
  {
    hide Explored, Reached;
    PairExplored(g, q, a, b);
    LinkReached(g, a, b);
    assert Live(g, {a, b}) == {a, b} && |{a, b}| == 2;
    assert Ids([HitFor(g, GAP, q, b)]) == [b];
  }

  lemma CutExplored(g: Graph, q: Vector, a: FabricId, b: FabricId)
    requires a in g && b !in g && Links(g, a, 0) == [b]
    ensures Explored(g, GAP, q, a, 2, 0, {a, b})
  {
    hide Explored;
    assert Elements([b]) == {b};
    ExploredOnce(g, GAP, q, a, 2, 0, {a, b});
  }

  /** A beam of width two from a finds a alone when its only link dangles. */
  lemma CutBeam(g: Graph, q: Vector, a: FabricId, b: FabricId)
    requires a in g && b !in g && Links(g, a, 0) == [b]
    ensures BeamResult(g, GAP, q, a, 2, 0, {a, b}, [HitFor(g, GAP, q, a)])
  {
    hide Explored, Reached;
    CutExplored(g, q, a, b);
    LinkReached(g, a, b);
    assert Live(g, {a, b}) == {a};
    assert Ids([HitFor(g, GAP, q, a)]) == [a];
  }

  lemma CutInsert(m: nat, s: Index, a: FabricId, near: FabricId, id: FabricId, v: Vector,
                  visited: set<FabricId>, t: Index)
    requires m >= 1 && s.entryPoint == Some(a) && a in s.nodes && s.currentLevel == 0 && near in s.nodes
    requires BeamResult(s.nodes, GAP, v, a, 1, 0, visited, [HitFor(s.nodes, GAP, v, near)])
    requires t == s.(nodes := Linked(s.nodes, id, v, [[near]]))
    ensures InsertStep(s, GAP, Params(m, 1), id, v, 0, t)
  {
    var out, chosen, p := [HitFor(s.nodes, GAP, v, near)], [[near]], Params(m, 1);
    hide BeamResult, Linked;
    assert chosen[0] == Ids(out[..Min(p.m, |out|)]);
    assert Chosen(s.nodes, GAP, p, v, a, 0, chosen[0]);
    assert ChosenPerLayer(s, GAP, p, v, a, 0, chosen);
    assert Descent(s.nodes, GAP, v, a, 0, 1, a);
  }

  lemma RelinkOne(x: FabricId, v: Vector, links: seq<FabricId>, id: FabricId, near: FabricId)
    requires id !in links
    ensures Relinked(Node(x, v, [links]), x, id, [[near]], 0) ==
            Node(x, v, [if x == near then links + [id] else links])
  {
    var r := Relinked(Node(x, v, [links]), x, id, [[near]], 0);
    assert [[near]][0] == [near];
    assert r.layers[0] == if x == near then links + [id] else links;
  }

  lemma LinkedPair(a: FabricId, b: FabricId)
    requires a != b
    ensures map[a := Node(a, [], [[b]])] + map[b := Node(b, [0.0], [[a]])] ==
            Linked(map[a := Node(a, [], [[]])], b, [0.0], [[a]])
  {
    RelinkOne(a, [], [], b, a);
    assert [] + [b] == [b];
    hide Relinked;
    assert LinkedFrom(map[a := Node(a, [], [[]])], b, [[a]], 0) == map[a := Node(a, [], [[b]])];
  }

  lemma LinkedTriple(a: FabricId, b: FabricId, c: FabricId)
    requires a != b && b != c && a != c
    ensures var first := map[a := Node(a, [], [[b]])];
            first + map[b := Node(b, [0.0], [[a, c]])] + map[c := Node(c, [0.0, 0.0], [[b]])] ==
            Linked(first + map[b := Node(b, [0.0], [[a]])], c, [0.0, 0.0], [[b]])
  {
    RelinkOne(a, [], [b], c, b);
    RelinkOne(b, [0.0], [a], c, b);
    assert [a] + [c] == [a, c];
    hide Relinked;
    var first := map[a := Node(a, [], [[b]])];
    assert LinkedFrom(first + map[b := Node(b, [0.0], [[a]])], c, [[b]], 0) ==
           first + map[b := Node(b, [0.0], [[a, c]])];
  }

  lemma CutStep(m: nat, a: FabricId, b: FabricId, c: FabricId, i: nat)
    requires m >= 1 && a != b && b != c && a != c && i < 4
    ensures ChangeStep(CutState(a, b, c, i), GAP, Params(m, 1), CutHistory(a, b, c)[i], CutState(a, b, c, i + 1))
  {
    var s, t := CutState(a, b, c, i), CutState(a, b, c, i + 1);
    match i
    case 0 =>
      assert seq<seq<FabricId>>(1, _ => []) == [[]];
      assert t == Index(map[][a := Node(a, [], [[]])], Some(a), 0);
    case 1 =>
      LoneBeam(s.nodes, [0.0], a);
      LinkedPair(a, b);
      CutInsert(m, s, a, a, b, [0.0], {a}, t);
    case 2 =>
      PairBeam(s.nodes, [0.0, 0.0], a, b);
      LinkedTriple(a, b, c);
      CutInsert(m, s, a, b, c, [0.0, 0.0], {a, b}, t);
    case 3 =>
      assert t.nodes == s.nodes - {b};
  }

  lemma {:induction false} CutRun(m: nat, a: FabricId, b: FabricId, c: FabricId, i: nat)
    requires m >= 1 && a != b && b != c && a != c && i <= 4
    ensures Changed(GAP, Params(m, 1), CutHistory(a, b, c)[..i], CutState(a, b, c, i))
  {
    var h := CutHistory(a, b, c);
    assert |h| == 4;
    if i > 0 {
      assert h[..i][..i - 1] == h[..i - 1] && h[..i][i - 1] == h[i - 1];
      hide ChangeStep, CutState, CutHistory;
      CutRun(m, a, b, c, i - 1);
      CutStep(m, a, b, c, i - 1);
    }
  }

  lemma CutKeeps(a: FabricId, b: FabricId, c: FabricId)
    requires a != b && b != c && a != c
    ensures Kept(CutHistory(a, b, c)).Keys == {a, c}
  {
    var h := CutHistory(a, b, c);
    assert h[..3][..2] == h[..2] && h[..2][..1] == h[..1] && h[..1][..0] == [];
    assert Kept(h[..1]) == map[a := []];
    assert Kept(h[..2]) == map[a := [], b := [0.0]];
    assert Kept(h[..3]) == map[a := [], b := [0.0], c := [0.0, 0.0]];
  }

  lemma CutSearch(t: Index, a: FabricId, b: FabricId)
    requires t.entryPoint == Some(a) && t.currentLevel == 0 && a in t.nodes && b !in t.nodes
    requires Links(t.nodes, a, 0) == [b]
    ensures var res := FirstNeighbors(t.nodes, GAP, [], 2, [HitFor(t.nodes, GAP, [], a)]);
            SearchStep(t, GAP, [], 2, 2, res) && Ids(Hits(res)) == [a]
  {
    var out := [HitFor(t.nodes, GAP, [], a)];
    CutBeam(t.nodes, [], a, b);
    assert Descent(t.nodes, GAP, [], a, 0, 1, a);
    hide BeamResult, Descent;
    HitsOfFirst(t.nodes, GAP, [], 2, out);
    assert out[..Min(2, |out|)] == out && Ids(out) == [a];
    assert BeamResult(t.nodes, GAP, [], a, Max(2, 2), 0, {a, b}, out);
  }

  /** A removal can cut off a stored vector: after the middle of a chain is removed, a search that asks
      for everything returns its beginning only, although its end is still stored. */
  lemma RemovalCutsOff(m: nat, a: FabricId, b: FabricId, c: FabricId)
    requires m >= 1 && a != b && b != c && a != c
    ensures exists t, res ::
      && Changed(GAP, Params(m, 1), CutHistory(a, b, c), t) && EntryLive(t)
      && SearchStep(t, GAP, [], 2, 2, res)
      && Ids(Hits(res)) == [a] && Kept(CutHistory(a, b, c)).Keys == {a, c}
      && !TopK(Kept(CutHistory(a, b, c)), GAP, [], 2, Hits(res))
  {
    var h, t := CutHistory(a, b, c), CutState(a, b, c, 4);
    assert h[..4] == h;
    assert Links(t.nodes, a, 0) == [b] && EntryLive(t);
    hide Changed, CutHistory, CutState, Kept, SearchStep, Links, FirstNeighbors;
    CutRun(m, a, b, c, 4);
    CutSearch(t, a, b);
    CutKeeps(a, b, c);
    assert |{a, c}| == 2;
    assert |Kept(h)| == |Kept(h).Keys|;
    var res := FirstNeighbors(t.nodes, GAP, [], 2, [HitFor(t.nodes, GAP, [], a)]);
    assert |Hits(res)| == |Ids(Hits(res))| == 1;
    assert !TopK(Kept(h), GAP, [], 2, Hits(res));
  }
}
