/** Breadth-first discovery, as a sequence of paths of which a prefix was expanded. */
module Paths {
  import opened Common
  import opened Edges

  type Path = seq<FabricId>

  function Last(p: Path): FabricId
    requires p != []
  {
    p[|p| - 1]
  }

  /** p is a walk along edges that begins at start. */
  ghost predicate IsPath(es: seq<Edge>, start: FabricId, p: Path) {
    && p != [] && p[0] == start
    && forall i :: 0 <= i < |p| - 1 ==> HasEdge(es, p[i], p[i + 1])
  }

  /** Some discovered path of at most n nodes ends in y. */
  ghost predicate Found(all: seq<Path>, y: FabricId, n: nat) {
    exists k :: 0 <= k < |all| && all[k] != [] && Last(all[k]) == y && |all[k]| <= n
  }

  /** All targets of the end of p were discovered, by paths at most one longer. */
  ghost predicate Expanded(es: seq<Edge>, p: Path, all: seq<Path>) {
    p != [] && forall y :: HasEdge(es, Last(p), y) ==> Found(all, y, |p| + 1)
  }

  /** The state of a breadth-first search: `all` are the discovered paths in the order
      of discovery, of which the first `done` left the queue. Paths of more than
      `bound` nodes are not expanded. */
  ghost predicate Discovery(es: seq<Edge>, start: FabricId, bound: nat, all: seq<Path>, done: nat) {
    && done <= |all| && all != [] && all[0] == [start]
    && (forall k :: 0 <= k < |all| ==> IsPath(es, start, all[k]) && |all[k]| <= bound + 1)
    && (forall i, j :: 0 <= i < j < |all| ==> |all[i]| <= |all[j]|)
    && (forall i, j :: 0 <= i < j < |all| ==> Last(all[i]) != Last(all[j]))
    && (done < |all| ==> |all[|all| - 1]| <= |all[done]| + 1)
    && (forall k :: 0 <= k < done && |all[k]| <= bound ==> Expanded(es, all[k], all))
  }

  ghost function Ends(all: seq<Path>): set<FabricId> {
    set k | 0 <= k < |all| && all[k] != [] :: Last(all[k])
  }

  /** The ends are pairwise distinct. */
  lemma EndsCount(es: seq<Edge>, start: FabricId, bound: nat, all: seq<Path>, done: nat)
    requires Discovery(es, start, bound, all, done)
    ensures |Ends(all)| == |all|
  {
    var ends := seq(|all|, i requires 0 <= i < |all| => Last(all[i]));
    DistinctCount(ends);
    forall x
      ensures x in Ends(all) <==> x in Elements(ends)
    {
      if x in Elements(ends) {
        var k :| 0 <= k < |all| && ends[k] == x;
        assert Last(all[k]) in Ends(all);
      }
      if x in Ends(all) {
        var k :| 0 <= k < |all| && all[k] != [] && Last(all[k]) == x;
        assert ends[k] in ends;
      }
    }
    assert Ends(all) == Elements(ends);
  }

  lemma EndOf(all: seq<Path>, k: nat)
    requires k < |all| && all[k] != []
    ensures Last(all[k]) in Ends(all)
  {
  }

  lemma FoundStays(all: seq<Path>, p: Path, x: FabricId, n: nat)
    requires Found(all, x, n)
    ensures Found(all + [p], x, n)
  {
    var k :| 0 <= k < |all| && all[k] != [] && Last(all[k]) == x && |all[k]| <= n;
    assert (all + [p])[k] == all[k];
  }

  lemma ExpandedStays(es: seq<Edge>, q: Path, all: seq<Path>, p: Path)
    requires Expanded(es, q, all)
    ensures Expanded(es, q, all + [p])
  {
    forall y | HasEdge(es, Last(q), y)
      ensures Found(all + [p], y, |q| + 1)
    {
      FoundStays(all, p, y, |q| + 1);
    }
  }

  lemma EndsGrow(all: seq<Path>, p: Path)
    requires p != []
    ensures Ends(all + [p]) == Ends(all) + {Last(p)}
    ensures Found(all + [p], Last(p), |p|)
  {
    var more := all + [p];
    assert more[|all|] == p;
    EndOf(more, |all|);
    forall x | x in Ends(all)
      ensures x in Ends(more)
    {
      var k :| 0 <= k < |all| && all[k] != [] && Last(all[k]) == x;
      assert more[k] == all[k];
      EndOf(more, k);
    }
    forall x | x in Ends(more)
      ensures x in Ends(all) + {Last(p)}
    {
      var k :| 0 <= k < |more| && more[k] != [] && Last(more[k]) == x;
      if k < |all| { EndOf(all, k); }
    }
  }

  /** A new end at the back keeps the ends distinct and the lengths in order. */
  lemma StillOrdered(es: seq<Edge>, start: FabricId, bound: nat, all: seq<Path>, done: nat, p: Path, i: nat, j: nat)
    requires Discovery(es, start, bound, all, done) && done < |all|
    requires p != [] && |p| == |all[done]| + 1 && Last(p) !in Ends(all) && i < j <= |all|
    ensures all[i] != [] && |all[i]| <= |(all + [p])[j]| && Last(all[i]) != Last((all + [p])[j])
  {
    if j == |all| {
      assert |all[i]| <= |all[|all| - 1]|;
      EndOf(all, i);
    }
  }

  /** One new end y, reached by an edge from the head of the queue. */
  lemma Discover(es: seq<Edge>, start: FabricId, bound: nat, all: seq<Path>, done: nat, y: FabricId)
    requires Discovery(es, start, bound, all, done) && done < |all| && |all[done]| <= bound
    requires HasEdge(es, Last(all[done]), y) && y !in Ends(all)
    ensures Discovery(es, start, bound, all + [all[done] + [y]], done)
    ensures Ends(all + [all[done] + [y]]) == Ends(all) + {y}
    ensures Found(all + [all[done] + [y]], y, |all[done]| + 1)
    ensures forall x, n :: Found(all, x, n) ==> Found(all + [all[done] + [y]], x, n)
  {
    hide Expanded, Found, Ends, HasEdge;
    var p := all[done] + [y];
    var more := all + [p];
    assert IsPath(es, start, p);
    EndsGrow(all, p);
    forall x, n | Found(all, x, n)
      ensures Found(more, x, n)
    {
      FoundStays(all, p, x, n);
    }
    forall k | 0 <= k < done && |more[k]| <= bound
      ensures Expanded(es, more[k], more)
    {
      ExpandedStays(es, all[k], all, p);
    }
    forall i, j | 0 <= i < j < |more|
      ensures |more[i]| <= |more[j]| && Last(more[i]) != Last(more[j])
    {
      StillOrdered(es, start, bound, all, done, p, i, j);
    }
  }

  /** A known end needs no second path: the one it has is at most one longer than the head. */
  lemma AlreadyFound(es: seq<Edge>, start: FabricId, bound: nat, all: seq<Path>, done: nat, y: FabricId)
    requires Discovery(es, start, bound, all, done) && done < |all| && y in Ends(all)
    ensures Found(all, y, |all[done]| + 1)
  {
    var k :| 0 <= k < |all| && all[k] != [] && Last(all[k]) == y;
    assert |all[k]| <= |all[|all| - 1]|;
  }

  /** The head leaves the queue, expanded or too long. */
  lemma Advance(es: seq<Edge>, start: FabricId, bound: nat, all: seq<Path>, done: nat)
    requires Discovery(es, start, bound, all, done) && done < |all|
    requires |all[done]| <= bound ==> Expanded(es, all[done], all)
    ensures Discovery(es, start, bound, all, done + 1)
  {
  }

  /** A search that expanded its first `done` paths has found the end of every walk no
      longer than the next path in the queue, by a path no longer than that walk. */
  lemma {:induction false} Covered(es: seq<Edge>, start: FabricId, bound: nat, all: seq<Path>, done: nat, q: Path)
    requires Discovery(es, start, bound, all, done)
    requires IsPath(es, start, q) && |q| <= bound + 1 && (done < |all| ==> |q| <= |all[done]|)
    ensures Found(all, Last(q), |q|)
  {
    if |q| == 1 {
      assert q == all[0];
    } else {
      var n := |q| - 1;
      Covered(es, start, bound, all, done, q[..n]);
      var k :| 0 <= k < |all| && all[k] != [] && Last(all[k]) == Last(q[..n]) && |all[k]| <= n;
      assert done < |all| ==> |all[k]| < |all[done]|;
      assert k < done;
      assert Expanded(es, all[k], all);
      assert HasEdge(es, q[n - 1], q[n]);
      var j :| 0 <= j < |all| && all[j] != [] && Last(all[j]) == Last(q) && |all[j]| <= |all[k]| + 1;
      assert |all[j]| <= |q|;
    }
  }

  // ---------------------------------------------------------------- what the traversals promise

  /** No walk from start to the same end is shorter. */
  ghost predicate IsShortest(es: seq<Edge>, start: FabricId, p: Path) {
    IsPath(es, start, p) && forall q :: IsPath(es, start, q) && Last(q) == Last(p) ==> |p| <= |q|
  }

  /** Exactly one path for each node within `hops` edges of start: a shortest one,
      the paths in order of length. */
  ghost predicate BfsResult(es: seq<Edge>, start: FabricId, hops: nat, paths: seq<Path>) {
    && (forall k :: 0 <= k < |paths| ==> IsShortest(es, start, paths[k]) && |paths[k]| - 1 <= hops)
    && (forall i, j :: 0 <= i < j < |paths| ==> Last(paths[i]) != Last(paths[j]) && |paths[i]| <= |paths[j]|)
    && (forall q :: IsPath(es, start, q) && |q| - 1 <= hops ==> Found(paths, Last(q), |q|))
  }

  lemma CompleteDiscovery(es: seq<Edge>, start: FabricId, hops: nat, all: seq<Path>)
    requires Discovery(es, start, hops, all, |all|)
    ensures BfsResult(es, start, hops, all)
  {
    forall k, q | 0 <= k < |all| && IsPath(es, start, q) && Last(q) == Last(all[k])
      ensures |all[k]| <= |q|
    {
      if |q| < |all[k]| {
        Covered(es, start, hops, all, |all|, q);
        assert false;
      }
    }
    forall q | IsPath(es, start, q) && |q| - 1 <= hops
      ensures Found(all, Last(q), |q|)
    {
      Covered(es, start, hops, all, |all|, q);
    }
  }

  /** A shortest path of at most max_depth + 1 edges if there is any, otherwise None. */
  ghost predicate ShortestPathResult(es: seq<Edge>, start: FabricId, target: FabricId, maxDepth: nat, r: Option<Path>) {
    match r
    case Some(p) => IsShortest(es, start, p) && Last(p) == target && |p| - 1 <= maxDepth + 1
    case None => forall q :: IsPath(es, start, q) && Last(q) == target ==> |q| - 1 > maxDepth + 1
  }

  /** Meeting the target for the first time, from the head of the queue. */
  lemma TargetMet(es: seq<Edge>, start: FabricId, bound: nat, all: seq<Path>, done: nat, target: FabricId)
    requires Discovery(es, start, bound, all, done) && done < |all| && |all[done]| <= bound
    requires HasEdge(es, Last(all[done]), target) && target !in Ends(all)
    ensures IsShortest(es, start, all[done] + [target]) && |all[done] + [target]| <= bound + 1
  {
    assert IsPath(es, start, all[done] + [target]);
    forall q | IsPath(es, start, q) && Last(q) == target
      ensures |all[done]| + 1 <= |q|
    {
      if |q| <= |all[done]| {
        Covered(es, start, bound, all, done, q);
        assert false;
      }
    }
  }

  lemma TargetMissed(es: seq<Edge>, start: FabricId, bound: nat, all: seq<Path>, target: FabricId)
    requires Discovery(es, start, bound, all, |all|) && target !in Ends(all)
    ensures forall q :: IsPath(es, start, q) && Last(q) == target ==> |q| > bound + 1
  {
    forall q | IsPath(es, start, q) && Last(q) == target
      ensures |q| > bound + 1
    {
      if |q| <= bound + 1 {
        Covered(es, start, bound, all, |all|, q);
        assert false;
      }
    }
  }

  /** The two traversals count depth differently: shortest_path to depth d finds exactly
      what bfs lists to depth d + 1, with paths of the same length. */
  lemma TraversalsCompared(es: seq<Edge>, start: FabricId, target: FabricId, d: nat, paths: seq<Path>, r: Option<Path>)
    requires BfsResult(es, start, d + 1, paths) && ShortestPathResult(es, start, target, d, r)
    ensures r.Some? <==> target in Ends(paths)
    ensures r.Some? ==> exists k :: 0 <= k < |paths| && Last(paths[k]) == target && |paths[k]| == |r.value|
  {
    if r.Some? {
      assert Found(paths, Last(r.value), |r.value|);
      var k :| 0 <= k < |paths| && paths[k] != [] && Last(paths[k]) == target && |paths[k]| <= |r.value|;
      assert Last(paths[k]) in Ends(paths);
    }
    if target in Ends(paths) {
      var k :| 0 <= k < |paths| && paths[k] != [] && Last(paths[k]) == target;
      assert IsPath(es, start, paths[k]);
    }
  }
}
