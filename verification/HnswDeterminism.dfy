/** Where no two nodes are equally far, the index has no choice: searches and insertions have one outcome. */
module HnswDeterminism {
  import opened Common
  import opened Hnsw
  import opened HnswProofs
  import opened HnswTheorems

  /** No two live nodes are equally far from q. */
  ghost predicate NoTies(g: Graph, metric: Metric, q: Vector) {
    forall x, y :: x in g && y in g && HitFor(g, metric, q, x).dist == HitFor(g, metric, q, y).dist ==> x == y
  }

  // ---------------------------------------------------------------- one beam search

  lemma {:induction false} FollowedPrefix(g: Graph, metric: Metric, q: Vector, entry: FabricId, cap: nat, l: nat,
                                          order: seq<FabricId>, k: nat)
    requires Followed(g, metric, q, entry, cap, l, order) && k <= |order|
    ensures Followed(g, metric, q, entry, cap, l, order[..k])
  {
    if k < |order| {
      FollowedPrefix(g, metric, q, entry, cap, l, order[..|order| - 1], k);
      assert order[..|order| - 1][..k] == order[..k];
    } else {
      assert order[..k] == order;
    }
  }

  lemma LastIsNext(g: Graph, metric: Metric, q: Vector, entry: FabricId, cap: nat, l: nat, order: seq<FabricId>,
                   k: nat)
    requires Followed(g, metric, q, entry, cap, l, order) && k < |order|
    ensures IsNext(g, metric, q, Visited(g, entry, l, order[..k]), Elements(order[..k]), cap, order[k])
  {
    FollowedPrefix(g, metric, q, entry, cap, l, order, k + 1);
    assert order[..k + 1][..k] == order[..k];
    hide IsNext, Visited;
  }

  lemma NextUnique(g: Graph, metric: Metric, q: Vector, V: set<FabricId>, done: set<FabricId>, cap: nat, x: FabricId,
                   y: FabricId)
    requires NoTies(g, metric, q) && IsNext(g, metric, q, V, done, cap, x) && IsNext(g, metric, q, V, done, cap, y)
    ensures x == y
  {
    hide Nearer;
  }

  lemma OneLonger(a: seq<FabricId>, b: seq<FabricId>, k: nat)
    requires |a| == k + 1 <= |b| && b[..k] == a[..k] && a[k] == b[k]
    ensures b[..|a|] == a
  {
    assert a == a[..k] + [a[k]] && b[..k + 1] == b[..k] + [b[k]];
  }

  /** Of two ways to follow links, one begins with the other. */
  lemma {:induction false} SameOrder(g: Graph, metric: Metric, q: Vector, entry: FabricId, cap: nat, l: nat,
                                     a: seq<FabricId>, b: seq<FabricId>)
    requires NoTies(g, metric, q) && |a| <= |b|
    requires Followed(g, metric, q, entry, cap, l, a) && Followed(g, metric, q, entry, cap, l, b)
    ensures b[..|a|] == a
  {
    hide *;
    if a != [] {
      var k := |a| - 1;
      FollowedPrefix(g, metric, q, entry, cap, l, a, k);
      SameOrder(g, metric, q, entry, cap, l, a[..k], b);
      assert b[..k] == a[..k];
      LastIsNext(g, metric, q, entry, cap, l, a, k);
      LastIsNext(g, metric, q, entry, cap, l, b, k);
      NextUnique(g, metric, q, Visited(g, entry, l, a[..k]), Elements(a[..k]), cap, a[k], b[k]);
      OneLonger(a, b, k);
    }
  }

  lemma StoppedFirst(g: Graph, metric: Metric, q: Vector, entry: FabricId, cap: nat, l: nat, a: seq<FabricId>,
                     b: seq<FabricId>)
    requires NoTies(g, metric, q) && |a| <= |b|
    requires Followed(g, metric, q, entry, cap, l, a) && Followed(g, metric, q, entry, cap, l, b)
    requires Stopped(g, metric, q, Visited(g, entry, l, a), Elements(a), cap)
    ensures a == b
  {
    SameOrder(g, metric, q, entry, cap, l, a, b);
    if |a| < |b| {
      LastIsNext(g, metric, q, entry, cap, l, b, |a|);
      hide Followed, Visited, Nearer, NoTies;
      assert false;
    }
  }

  lemma ExploredUnique(g: Graph, metric: Metric, q: Vector, entry: FabricId, ef: nat, l: nat, V: set<FabricId>,
                       W: set<FabricId>)
    requires NoTies(g, metric, q)
    requires Explored(g, metric, q, entry, ef, l, V) && Explored(g, metric, q, entry, ef, l, W)
    ensures V == W
  {
    hide Followed, Visited, Stopped, NoTies;
    var cap := Max(ef, 1);
    var a :| Followed(g, metric, q, entry, cap, l, a) && V == Visited(g, entry, l, a)
             && Stopped(g, metric, q, V, Elements(a), cap);
    var b :| Followed(g, metric, q, entry, cap, l, b) && W == Visited(g, entry, l, b)
             && Stopped(g, metric, q, W, Elements(b), cap);
    if |a| <= |b| {
      StoppedFirst(g, metric, q, entry, cap, l, a, b);
    } else {
      StoppedFirst(g, metric, q, entry, cap, l, b, a);
    }
  }

  function VectorsOf(g: Graph, V: set<FabricId>): map<FabricId, Vector> {
    map x | x in V && x in g :: g[x].vector
  }

  /** The hits of a beam are the nearest of the live nodes it visited. */
  lemma BeamIsTopK(g: Graph, metric: Metric, q: Vector, entry: FabricId, ef: nat, l: nat, visited: set<FabricId>,
                   out: seq<Hit>)
    requires BeamResult(g, metric, q, entry, ef, l, visited, out)
    ensures TopK(VectorsOf(g, visited), metric, q, ef, out)
    ensures forall h :: h in out ==> h.id in g && h == HitFor(g, metric, q, h.id)
  {
    hide Explored, Reached, Sorted, NoDuplicates;
    assert VectorsOf(g, visited).Keys == Live(g, visited);
    assert |VectorsOf(g, visited)| == |VectorsOf(g, visited).Keys|;
  }

  lemma SameHits(g: Graph, metric: Metric, q: Vector, a: seq<Hit>, b: seq<Hit>)
    requires NoTies(g, metric, q) && |a| == |b| && forall i :: 0 <= i < |a| ==> a[i].dist == b[i].dist
    requires forall h :: h in a || h in b ==> h.id in g && h == HitFor(g, metric, q, h.id)
    ensures a == b
  {
    forall i | 0 <= i < |a|
      ensures a[i] == b[i]
    {
      assert a[i] in a && b[i] in b;
    }
  }

  /** One beam search has one result. */
  lemma BeamUnique(g: Graph, metric: Metric, q: Vector, entry: FabricId, ef: nat, l: nat,
                   V: set<FabricId>, a: seq<Hit>, W: set<FabricId>, b: seq<Hit>)
    requires NoTies(g, metric, q)
    requires BeamResult(g, metric, q, entry, ef, l, V, a) && BeamResult(g, metric, q, entry, ef, l, W, b)
    ensures V == W && a == b
  {
    assert Explored(g, metric, q, entry, ef, l, V) && Explored(g, metric, q, entry, ef, l, W);
    hide *;
    ExploredUnique(g, metric, q, entry, ef, l, V, W);
    BeamIsTopK(g, metric, q, entry, ef, l, V, a);
    BeamIsTopK(g, metric, q, entry, ef, l, W, b);
    SameDistances(VectorsOf(g, V), metric, q, ef, a, b);
    SameHits(g, metric, q, a, b);
  }

  // ---------------------------------------------------------------- searches and insertions

  lemma GreedyUnique(g: Graph, metric: Metric, q: Vector, from: FabricId, l: nat, x: FabricId, y: FabricId)
    requires NoTies(g, metric, q)
    requires GreedyStep(g, metric, q, from, l, x) && GreedyStep(g, metric, q, from, l, y)
    ensures x == y
  {
    hide BeamResult, NoTies;
    var V :| BeamResult(g, metric, q, from, 1, l, V, [HitFor(g, metric, q, x)]);
    var W :| BeamResult(g, metric, q, from, 1, l, W, [HitFor(g, metric, q, y)]);
    BeamUnique(g, metric, q, from, 1, l, V, [HitFor(g, metric, q, x)], W, [HitFor(g, metric, q, y)]);
    assert [HitFor(g, metric, q, x)][0] == [HitFor(g, metric, q, y)][0];
  }

  lemma {:induction false} DescentUnique(g: Graph, metric: Metric, q: Vector, from: FabricId, hi: nat, lo: nat,
                                         x: FabricId, y: FabricId)
    requires NoTies(g, metric, q)
    requires Descent(g, metric, q, from, hi, lo, x) && Descent(g, metric, q, from, hi, lo, y)
    ensures x == y
    decreases hi + 1 - lo
  {
    hide Descent, GreedyStep, NoTies;
    if hi < lo {
      DescentNowhere(g, metric, q, from, hi, lo, x);
      DescentNowhere(g, metric, q, from, hi, lo, y);
    } else {
      var a := DescentSplit(g, metric, q, from, hi, lo, x);
      var b := DescentSplit(g, metric, q, from, hi, lo, y);
      DescentUnique(g, metric, q, from, hi, lo + 1, a, b);
      GreedyUnique(g, metric, q, a, lo, x, y);
    }
  }

  /** A search has one answer, in any graph and for every width. */
  lemma SearchDetermined(s: Index, metric: Metric, q: Vector, k: nat, ef: nat, a: seq<Neighbor>, b: seq<Neighbor>)
    requires NoTies(s.nodes, metric, q)
    requires SearchStep(s, metric, q, k, ef, a) && SearchStep(s, metric, q, k, ef, b)
    ensures a == b
  {
    if e :| s.entryPoint == Some(e) {
      hide Descent, BeamResult, NoTies, FirstNeighbors;
      var g := s.nodes;
      var x, V, out :| Descent(g, metric, q, e, s.currentLevel, 1, x)
                       && BeamResult(g, metric, q, x, Max(ef, k), 0, V, out)
                       && a == FirstNeighbors(g, metric, q, k, out);
      var y, W, out' :| Descent(g, metric, q, e, s.currentLevel, 1, y)
                        && BeamResult(g, metric, q, y, Max(ef, k), 0, W, out')
                        && b == FirstNeighbors(g, metric, q, k, out');
      DescentUnique(g, metric, q, e, s.currentLevel, 1, x, y);
      BeamUnique(g, metric, q, x, Max(ef, k), 0, V, out, W, out');
    }
  }

  lemma ChosenUnique(g: Graph, metric: Metric, p: Params, v: Vector, start: FabricId, l: nat, c: seq<FabricId>,
                     d: seq<FabricId>)
    requires NoTies(g, metric, v) && Chosen(g, metric, p, v, start, l, c) && Chosen(g, metric, p, v, start, l, d)
    ensures c == d
  {
    hide BeamResult, NoTies;
    var V, out :| BeamResult(g, metric, v, start, p.efConstruction, l, V, out) && c == Ids(out[..Min(p.m, |out|)]);
    var W, out' :| BeamResult(g, metric, v, start, p.efConstruction, l, W, out') && d == Ids(out'[..Min(p.m, |out'|)]);
    BeamUnique(g, metric, v, start, p.efConstruction, l, V, out, W, out');
  }

  lemma ChoiceUnique(s: Index, metric: Metric, p: Params, v: Vector, start: FabricId, level: nat,
                     c: seq<seq<FabricId>>, d: seq<seq<FabricId>>)
    requires NoTies(s.nodes, metric, v)
    requires ChosenPerLayer(s, metric, p, v, start, level, c) && ChosenPerLayer(s, metric, p, v, start, level, d)
    ensures c == d
  {
    hide Chosen, NoTies;
    forall l: nat | l <= level
      ensures c[l] == d[l]
    {
      if l <= s.currentLevel {
        ChosenUnique(s.nodes, metric, p, v, start, l, c[l], d[l]);
      }
    }
  }

  /** An insertion of given height has one outcome. */
  lemma InsertDetermined(s: Index, metric: Metric, p: Params, id: FabricId, v: Vector, level: nat, t: Index, u: Index)
    requires NoTies(s.nodes, metric, v)
    requires InsertStep(s, metric, p, id, v, level, t) && InsertStep(s, metric, p, id, v, level, u)
    ensures t == u
  {
    if e :| s.entryPoint == Some(e) {
      hide Descent, ChosenPerLayer, NoTies, Linked;
      var x, c :| Descent(s.nodes, metric, v, e, s.currentLevel, level + 1, x)
                  && ChosenPerLayer(s, metric, p, v, x, level, c)
                  && t == s.(nodes := Linked(s.nodes, id, v, c));
      var y, d :| Descent(s.nodes, metric, v, e, s.currentLevel, level + 1, y)
                  && ChosenPerLayer(s, metric, p, v, y, level, d)
                  && u == s.(nodes := Linked(s.nodes, id, v, d));
      DescentUnique(s.nodes, metric, v, e, s.currentLevel, level + 1, x, y);
      ChoiceUnique(s, metric, p, v, x, level, c, d);
    }
  }

  // ---------------------------------------------------------------- where a narrow beam stops

  lemma EntryFollowed(g: Graph, metric: Metric, q: Vector, entry: FabricId, cap: nat, l: nat, order: seq<FabricId>)
    requires entry in g && cap >= 1 && Followed(g, metric, q, entry, cap, l, order)
    requires Stopped(g, metric, q, Visited(g, entry, l, order), Elements(order), cap)
    ensures order != [] && order[0] == entry
    ensures Visited(g, entry, l, order[..1]) == {entry} + Elements(Links(g, entry, l))
  {
    assert Nearer(g, metric, q, {entry}, entry) == {};
    if order != [] {
      LastIsNext(g, metric, q, entry, cap, l, order, 0);
      assert order[..1][..0] == [] && order[..0] == [];
    }
  }

  /** The entry is nearer to q than all that it links to. */
  ghost predicate IsNearest(g: Graph, metric: Metric, q: Vector, entry: FabricId, l: nat) {
    entry in g && forall y :: y in Links(g, entry, l) && y in g && y != entry
                              ==> HitFor(g, metric, q, entry).dist < HitFor(g, metric, q, y).dist
  }

  lemma NothingNext(g: Graph, metric: Metric, q: Vector, entry: FabricId, l: nat, x: FabricId)
    requires IsNearest(g, metric, q, entry, l)
    ensures !IsNext(g, metric, q, {entry} + Elements(Links(g, entry, l)), {entry}, 1, x)
  {
    var V := {entry} + Elements(Links(g, entry, l));
    if x in V && x in g && x != entry {
      assert entry in Nearer(g, metric, q, V, x);
    }
  }

  lemma NarrowExplored(g: Graph, metric: Metric, q: Vector, entry: FabricId, l: nat, visited: set<FabricId>)
    requires IsNearest(g, metric, q, entry, l) && Explored(g, metric, q, entry, 1, l, visited)
    ensures visited == {entry} + Elements(Links(g, entry, l))
  {
    assert entry in g;
    hide Followed, Visited, Stopped, IsNearest, Links;
    var order :| Followed(g, metric, q, entry, 1, l, order) && visited == Visited(g, entry, l, order)
                 && Stopped(g, metric, q, visited, Elements(order), 1);
    EntryFollowed(g, metric, q, entry, 1, l, order);
    assert order[..1] == [entry] && Elements([entry]) == {entry};
    hide IsNext;
    if |order| == 1 {
      assert order == order[..1];
    } else {
      LastIsNext(g, metric, q, entry, 1, l, order, 1);
      NothingNext(g, metric, q, entry, l, order[1]);
      assert false;
    }
  }

  lemma NarrowHit(g: Graph, metric: Metric, q: Vector, entry: FabricId, l: nat, visited: set<FabricId>, out: seq<Hit>)
    requires IsNearest(g, metric, q, entry, l) && visited == {entry} + Elements(Links(g, entry, l))
    requires BeamResult(g, metric, q, entry, 1, l, visited, out)
    ensures out == [HitFor(g, metric, q, entry)]
  {
    hide Explored, Reached, Links;
    NearestIsGreedy(g, metric, q, entry, l, visited, out);
    hide GreedyStep;
    assert out[0] in out && Ids(out) == [out[0].id];
    assert out[0].id in {entry} + Elements(Links(g, entry, l));
    assert out == [out[0]];
  }

  /** A beam of width one goes no farther than the links of its entry when all of them are farther from q. */
  lemma NarrowBeamStops(g: Graph, metric: Metric, q: Vector, entry: FabricId, l: nat, visited: set<FabricId>,
                        out: seq<Hit>)
    requires BeamResult(g, metric, q, entry, 1, l, visited, out) && IsNearest(g, metric, q, entry, l)
    ensures visited == {entry} + Elements(Links(g, entry, l)) && out == [HitFor(g, metric, q, entry)]
  {
    assert Explored(g, metric, q, entry, 1, l, visited);
    hide *;
    NarrowExplored(g, metric, q, entry, l, visited);
    NarrowHit(g, metric, q, entry, l, visited, out);
  }
}
