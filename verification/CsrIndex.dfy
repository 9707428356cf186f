/** The adjacency index: an edge list beside a lazily rebuilt compressed form. */
module CsrIndex {
  import opened Common
  import opened ByteOrder
  import opened Edges
  import opened Paths

  // ---------------------------------------------------------------- the edge list

  predicate Matches(e: Edge, node: FabricId, edgeType: Option<string>) {
    e.fromId == node && (edgeType.Some? ==> e.edgeType == edgeType.value)
  }

  /** Targets of the matching edges, in the order of the list. */
  function Targets(es: seq<Edge>, node: FabricId, edgeType: Option<string>): seq<FabricId> {
    if es == [] then []
    else
      var n := |es| - 1;
      Targets(es[..n], node, edgeType) + if Matches(es[n], node, edgeType) then [es[n].toId] else []
  }

  function Outgoing(es: seq<Edge>, node: FabricId): seq<Edge> {
    if es == [] then []
    else
      var n := |es| - 1;
      Outgoing(es[..n], node) + if es[n].fromId == node then [es[n]] else []
  }

  lemma {:induction false} TargetsOfOutgoing(es: seq<Edge>, node: FabricId, edgeType: Option<string>)
    ensures Targets(es, node, edgeType) == Targets(Outgoing(es, node), node, edgeType)
  {
    if es != [] {
      var n := |es| - 1;
      TargetsOfOutgoing(es[..n], node, edgeType);
      if es[n].fromId == node {
        assert Outgoing(es, node)[..|Outgoing(es, node)| - 1] == Outgoing(es[..n], node);
      } else {
        assert Outgoing(es, node) == Outgoing(es[..n], node);
      }
    }
  }

  lemma {:induction false} TargetsAreEdges(es: seq<Edge>, node: FabricId, x: FabricId)
    ensures x in Targets(es, node, None) <==> HasEdge(es, node, x)
  {
    if es != [] {
      var n := |es| - 1;
      TargetsAreEdges(es[..n], node, x);
      assert es == es[..n] + [es[n]];
      assert HasEdge(es, node, x) <==> HasEdge(es[..n], node, x) || (es[n].fromId == node && es[n].toId == x);
    }
  }

  ghost predicate Ascending(ps: seq<nat>) {
    forall i, j :: 0 <= i < j < |ps| ==> ps[i] < ps[j]
  }

  lemma AppendPosition(ps: seq<nat>, n: nat)
    requires Ascending(ps) && forall p :: p in ps ==> p < n
    ensures Ascending(ps + [n]) && forall p: nat :: p in ps + [n] <==> p in ps || p == n
  {
    assert forall i :: 0 <= i < |ps| ==> ps[i] in ps;
  }

  /** ps are the positions of the edges that leave the node and that the filter admits, and ts their targets. */
  ghost predicate Selected(es: seq<Edge>, node: FabricId, edgeType: Option<string>, ps: seq<nat>, ts: seq<FabricId>) {
    && Ascending(ps) && |ts| == |ps|
    && (forall p: nat :: p in ps <==>
          p < |es| && es[p].fromId == node && (edgeType == None || edgeType == Some(es[p].edgeType)))
    && (forall i :: 0 <= i < |ps| ==> ps[i] < |es| && ts[i] == es[ps[i]].toId)
  }

  lemma SelectedSkips(es: seq<Edge>, e: Edge, node: FabricId, edgeType: Option<string>, ps: seq<nat>,
                      ts: seq<FabricId>)
    requires Selected(es, node, edgeType, ps, ts) && !Matches(e, node, edgeType)
    ensures Selected(es + [e], node, edgeType, ps, ts)
  {
  }

  lemma SelectedTakes(es: seq<Edge>, e: Edge, node: FabricId, edgeType: Option<string>, ps: seq<nat>,
                      ts: seq<FabricId>)
    requires Selected(es, node, edgeType, ps, ts) && Matches(e, node, edgeType)
    ensures Selected(es + [e], node, edgeType, ps + [|es|], ts + [e.toId])
  {
    AppendPosition(ps, |es|);
    hide Ascending;
  }

  /** The targets are those of the edges of the node that the filter admits, one each, in the order of the list. */
  lemma {:induction false} TargetsPositions(es: seq<Edge>, node: FabricId, edgeType: Option<string>)
    returns (ps: seq<nat>)
    ensures Selected(es, node, edgeType, ps, Targets(es, node, edgeType))
  {
    ps := [];
    if es != [] {
      hide Selected;
      var n := |es| - 1;
      ps := TargetsPositions(es[..n], node, edgeType);
      assert es == es[..n] + [es[n]];
      if Matches(es[n], node, edgeType) {
        SelectedTakes(es[..n], es[n], node, edgeType, ps, Targets(es[..n], node, edgeType));
        ps := ps + [n];
      } else {
        SelectedSkips(es[..n], es[n], node, edgeType, ps, Targets(es[..n], node, edgeType));
      }
    }
  }

  /** ps are the positions of the edges that leave the node, and out those edges. */
  ghost predicate Leaving(es: seq<Edge>, node: FabricId, ps: seq<nat>, out: seq<Edge>) {
    && Ascending(ps) && |out| == |ps|
    && (forall p: nat :: p in ps <==> p < |es| && es[p].fromId == node)
    && (forall i :: 0 <= i < |ps| ==> ps[i] < |es| && out[i] == es[ps[i]])
  }

  lemma LeavingNext(es: seq<Edge>, e: Edge, node: FabricId, ps: seq<nat>, out: seq<Edge>)
    requires Leaving(es, node, ps, out)
    ensures if e.fromId == node then Leaving(es + [e], node, ps + [|es|], out + [e])
            else Leaving(es + [e], node, ps, out)
  {
    AppendPosition(ps, |es|);
    hide Ascending;
  }

  /** The outgoing edges are the edges of the node, one each, in the order of the list. */
  lemma {:induction false} OutgoingPositions(es: seq<Edge>, node: FabricId) returns (ps: seq<nat>)
    ensures Leaving(es, node, ps, Outgoing(es, node))
  {
    ps := [];
    if es != [] {
      hide Leaving;
      var n := |es| - 1;
      ps := OutgoingPositions(es[..n], node);
      assert es == es[..n] + [es[n]];
      LeavingNext(es[..n], es[n], node, ps, Outgoing(es[..n], node));
      if es[n].fromId == node {
        ps := ps + [n];
      }
    }
  }

  // ---------------------------------------------------------------- the stable sort

  ghost predicate SortedByFrom(es: seq<Edge>) {
    forall i, j :: 0 <= i < j < |es| ==> !Before(es[j].fromId, es[i].fromId)
  }

  function InsertSorted(s: seq<Edge>, e: Edge): (r: seq<Edge>)
    ensures |r| == |s| + 1
  {
    if s == [] || !Before(e.fromId, s[|s| - 1].fromId) then s + [e]
    else InsertSorted(s[..|s| - 1], e) + [s[|s| - 1]]
  }

  function StableSort(es: seq<Edge>): (r: seq<Edge>)
    ensures |r| == |es|
  {
    if es == [] then [] else InsertSorted(StableSort(es[..|es| - 1]), es[|es| - 1])
  }

  lemma {:induction false} InsertKeepsSorted(s: seq<Edge>, e: Edge)
    requires SortedByFrom(s)
    ensures SortedByFrom(InsertSorted(s, e))
    ensures forall x :: x in InsertSorted(s, e) <==> x in s || x == e
  {
    if s != [] {
      var n := |s| - 1;
      assert s == s[..n] + [s[n]];
      if Before(e.fromId, s[n].fromId) {
        InsertKeepsSorted(s[..n], e);
        LessAsymmetric(e.fromId.uuid, s[n].fromId.uuid);
        var r := InsertSorted(s[..n], e);
        forall i | 0 <= i < |r|
          ensures !Before(s[n].fromId, r[i].fromId)
        {
          assert r[i] in s[..n] || r[i] == e;
        }
      } else {
        forall i | 0 <= i < n
          ensures !Before(e.fromId, s[i].fromId)
        {
          NotGreaterTransitive(s[i].fromId.uuid, s[n].fromId.uuid, e.fromId.uuid);
        }
      }
    }
  }

  lemma {:induction false} InsertIsStable(s: seq<Edge>, e: Edge, node: FabricId)
    ensures Outgoing(InsertSorted(s, e), node) == Outgoing(s, node) + if e.fromId == node then [e] else []
  {
    if s == [] || !Before(e.fromId, s[|s| - 1].fromId) {
      assert (s + [e])[..|s|] == s;
    } else {
      var n := |s| - 1;
      InsertIsStable(s[..n], e, node);
      LessIrreflexive(e.fromId.uuid);
      var r := InsertSorted(s[..n], e);
      assert (r + [s[n]])[..|r|] == r;
    }
  }

  lemma {:induction false} StableSortIsSorted(es: seq<Edge>)
    ensures SortedByFrom(StableSort(es))
  {
    if es != [] {
      var n := |es| - 1;
      StableSortIsSorted(es[..n]);
      InsertKeepsSorted(StableSort(es[..n]), es[n]);
    }
  }

  /** For each source, the sort keeps the insertion order. */
  lemma {:induction false} StableSortIsStable(es: seq<Edge>, node: FabricId)
    ensures Outgoing(StableSort(es), node) == Outgoing(es, node)
  {
    if es != [] {
      var n := |es| - 1;
      StableSortIsStable(es[..n], node);
      InsertIsStable(StableSort(es[..n]), es[n], node);
    }
  }

  // ---------------------------------------------------------------- the compressed form

  ghost predicate StrictlyAscending(ids: seq<FabricId>) {
    forall i, j :: 0 <= i < j < |ids| ==> Before(ids[i], ids[j])
  }

  function RowEnd(starts: seq<nat>, done: nat, r: nat): nat
    requires r < |starts|
  {
    if r + 1 < |starts| then starts[r + 1] else done
  }

  /** The rows built from the first `done` edges; the last row is still open. */
  ghost predicate Rows(es: seq<Edge>, done: nat, sources: seq<FabricId>, starts: seq<nat>) {
    && done <= |es| && |starts| == |sources|
    && StrictlyAscending(sources)
    && (done == 0 <==> sources == [])
    && (sources != [] ==> starts[0] == 0 && starts[|starts| - 1] < done)
    && (forall r, k :: 0 <= r < k < |starts| ==> starts[r] < starts[k])
    && (forall r, i :: 0 <= r < |sources| && starts[r] <= i < RowEnd(starts, done, r) ==> es[i].fromId == sources[r])
  }

  /** The columns of the first `done` edges. */
  ghost predicate Columns(es: seq<Edge>, done: nat, cols: seq<FabricId>, types: seq<string>) {
    && |cols| == |types| == done <= |es|
    && forall i :: 0 <= i < done ==> cols[i] == es[i].toId && types[i] == es[i].edgeType
  }

  ghost predicate Compressed(es: seq<Edge>, sources: seq<FabricId>, rowPtr: seq<nat>, cols: seq<FabricId>,
                             types: seq<string>) {
    && |rowPtr| == |sources| + 1 && rowPtr[|sources|] == |es|
    && Rows(es, |es|, sources, rowPtr[..|sources|])
    && Columns(es, |es|, cols, types)
  }

  lemma NextColumn(es: seq<Edge>, i: nat, cols: seq<FabricId>, types: seq<string>)
    requires i < |es| && Columns(es, i, cols, types)
    ensures Columns(es, i + 1, cols + [es[i].toId], types + [es[i].edgeType])
  {
  }

  /** Position of a source by bisection. */
  function FindRow(sources: seq<FabricId>, node: FabricId, lo: nat, hi: nat): (r: Option<nat>)
    requires lo <= hi <= |sources| && StrictlyAscending(sources)
    requires forall i :: 0 <= i < |sources| && !(lo <= i < hi) ==> sources[i] != node
    ensures match r
            case Some(i) => i < |sources| && sources[i] == node
            case None => node !in sources
    decreases hi - lo
  {
    if lo == hi then None
    else
      var mid := (lo + hi) / 2;
      assert forall i :: 0 <= i < |sources| && Before(sources[mid], node) && i <= mid ==> sources[i] != node by {
        if Before(sources[mid], node) { LessAsymmetric(sources[mid].uuid, node.uuid); }
      }
      assert forall i :: 0 <= i < |sources| && Before(node, sources[mid]) && mid <= i ==> sources[i] != node by {
        if Before(node, sources[mid]) { LessAsymmetric(node.uuid, sources[mid].uuid); }
      }
      LessTotal(sources[mid].uuid, node.uuid);
      if sources[mid] == node then Some(mid)
      else if Before(sources[mid], node) then FindRow(sources, node, mid + 1, hi)
      else FindRow(sources, node, lo, mid)
  }

  /** The columns of one row that pass the type filter. */
  function RowTargets(cols: seq<FabricId>, types: seq<string>, start: nat, end: nat,
                      edgeType: Option<string>): seq<FabricId>
    requires start <= end <= |cols| == |types|
    decreases end
  {
    if start == end then []
    else RowTargets(cols, types, start, end - 1, edgeType) +
         if edgeType.Some? ==> types[end - 1] == edgeType.value then [cols[end - 1]] else []
  }

  lemma RowOf(es: seq<Edge>, sources: seq<FabricId>, starts: seq<nat>, i: nat) returns (k: nat)
    requires Rows(es, |es|, sources, starts) && i < |es|
    ensures k < |sources| && starts[k] <= i < RowEnd(starts, |es|, k)
  {
    k := |starts| - 1;
    while i < starts[k]
      invariant 0 <= k < |starts| && i < RowEnd(starts, |es|, k)
    {
      k := k - 1;
    }
  }

  /** Rows are disjoint: outside the row of a source there is no edge of that source. */
  lemma RowOwnsItsSource(es: seq<Edge>, sources: seq<FabricId>, starts: seq<nat>, r: nat, i: nat)
    requires Rows(es, |es|, sources, starts) && r < |sources| && i < |es|
    requires !(starts[r] <= i < RowEnd(starts, |es|, r))
    ensures es[i].fromId != sources[r]
  {
    var k := RowOf(es, sources, starts, i);
    if k < r {
      LessAsymmetric(sources[k].uuid, sources[r].uuid);
    } else {
      LessAsymmetric(sources[r].uuid, sources[k].uuid);
    }
  }

  /** A missing source has no edges at all. */
  lemma NoRowNoEdges(es: seq<Edge>, sources: seq<FabricId>, starts: seq<nat>, node: FabricId, i: nat)
    requires Rows(es, |es|, sources, starts) && node !in sources && i < |es|
    ensures es[i].fromId != node
  {
    var k := RowOf(es, sources, starts, i);
  }

  lemma {:induction false} NoMatches(es: seq<Edge>, node: FabricId, edgeType: Option<string>)
    requires forall i :: 0 <= i < |es| ==> es[i].fromId != node
    ensures Targets(es, node, edgeType) == []
  {
    if es != [] { NoMatches(es[..|es| - 1], node, edgeType); }
  }

  /** Reading a row equals scanning the list up to any point. */
  lemma {:induction false} RowIsScan(es: seq<Edge>, cols: seq<FabricId>, types: seq<string>, start: nat, end: nat,
                                     node: FabricId, edgeType: Option<string>, k: nat)
    requires start <= end <= |cols| == |types| == |es| && k <= |es|
    requires forall i :: 0 <= i < |es| ==> cols[i] == es[i].toId && types[i] == es[i].edgeType
    requires forall i :: 0 <= i < |es| ==> (es[i].fromId == node <==> start <= i < end)
    ensures Targets(es[..k], node, edgeType) == RowTargets(cols, types, start, Max(start, Min(k, end)), edgeType)
  {
    if k > 0 {
      RowIsScan(es, cols, types, start, end, node, edgeType, k - 1);
      assert es[..k][..k - 1] == es[..k - 1];
    }
  }

  lemma MissingRow(es: seq<Edge>, sources: seq<FabricId>, rowPtr: seq<nat>, cols: seq<FabricId>, types: seq<string>,
                   node: FabricId, edgeType: Option<string>)
    requires Compressed(es, sources, rowPtr, cols, types) && node !in sources
    ensures Targets(es, node, edgeType) == []
  {
    forall i | 0 <= i < |es|
      ensures es[i].fromId != node
    {
      NoRowNoEdges(es, sources, rowPtr[..|sources|], node, i);
    }
    NoMatches(es, node, edgeType);
  }

  lemma FoundRow(es: seq<Edge>, sources: seq<FabricId>, rowPtr: seq<nat>, cols: seq<FabricId>, types: seq<string>,
                 row: nat, edgeType: Option<string>)
    requires Compressed(es, sources, rowPtr, cols, types) && row < |sources|
    ensures rowPtr[row] <= rowPtr[row + 1] <= |es|
    ensures RowTargets(cols, types, rowPtr[row], rowPtr[row + 1], edgeType) == Targets(es, sources[row], edgeType)
  {
    var starts := rowPtr[..|sources|];
    assert RowEnd(starts, |es|, row) == rowPtr[row + 1];
    assert starts[row] <= starts[|starts| - 1];
    forall i | 0 <= i < |es|
      ensures es[i].fromId == sources[row] <==> rowPtr[row] <= i < rowPtr[row + 1]
    {
      if !(starts[row] <= i < RowEnd(starts, |es|, row)) {
        RowOwnsItsSource(es, sources, starts, row, i);
      }
    }
    assert rowPtr[row + 1] <= |es| by {
      if row + 1 < |starts| { assert starts[row + 1] <= starts[|starts| - 1]; }
    }
    RowIsScan(es, cols, types, rowPtr[row], rowPtr[row + 1], sources[row], edgeType, |es|);
    assert es[..|es|] == es;
  }

  lemma BeforeTransitive(x: FabricId, y: FabricId, z: FabricId)
    requires Before(x, y) && Before(y, z)
    ensures Before(x, z)
  {
    LessTransitive(x.uuid, y.uuid, z.uuid);
  }

  lemma AscendingSnoc(sources: seq<FabricId>, x: FabricId)
    requires StrictlyAscending(sources) && (sources != [] ==> Before(sources[|sources| - 1], x))
    ensures StrictlyAscending(sources + [x])
  {
    hide Before, Less;
    forall k | 0 <= k < |sources|
      ensures Before(sources[k], x)
    {
      if k < |sources| - 1 {
        assert Before(sources[k], sources[|sources| - 1]);
        BeforeTransitive(sources[k], sources[|sources| - 1], x);
      }
    }
  }

  /** In a sorted list a new source comes after the one before it. */
  lemma NextSource(es: seq<Edge>, i: nat)
    requires SortedByFrom(es) && 0 < i < |es| && es[i].fromId != es[i - 1].fromId
    ensures Before(es[i - 1].fromId, es[i].fromId)
  {
    LessTotal(es[i].fromId.uuid, es[i - 1].fromId.uuid);
  }

  lemma RowOpens(es: seq<Edge>, i: nat, sources: seq<FabricId>, starts: seq<nat>)
    requires i < |es| && Rows(es, i, sources, starts)
    requires sources != [] ==> Before(sources[|sources| - 1], es[i].fromId)
    ensures Rows(es, i + 1, sources + [es[i].fromId], starts + [i])
  {
    AscendingSnoc(sources, es[i].fromId);
    hide StrictlyAscending, Before;
  }

  /** One more edge of a sorted list extends the open row or starts the next one. */
  lemma NextRow(es: seq<Edge>, i: nat, sources: seq<FabricId>, starts: seq<nat>)
    requires SortedByFrom(es) && i < |es| && Rows(es, i, sources, starts)
    requires i > 0 ==> sources[|sources| - 1] == es[i - 1].fromId
    ensures i > 0 && es[i].fromId == es[i - 1].fromId ==> Rows(es, i + 1, sources, starts)
    ensures (i == 0 || es[i].fromId != es[i - 1].fromId) ==> Rows(es, i + 1, sources + [es[i].fromId], starts + [i])
  {
    hide StrictlyAscending, Before, SortedByFrom;
    if i == 0 {
      RowOpens(es, i, sources, starts);
    } else if es[i].fromId != es[i - 1].fromId {
      NextSource(es, i);
      RowOpens(es, i, sources, starts);
    }
  }

  datatype Queued = Queued(node: FabricId, depth: nat, path: Path)

  ghost function Universe(es: seq<Edge>, start: FabricId): set<FabricId> {
    {start} + set e | e in es :: e.toId
  }

  predicate QueuedAs(e: Queued, p: Path) {
    p != [] && e == Queued(Last(p), |p| - 1, p)
  }

  /** The queue holds the discovered paths that were not expanded, and `visited` their
      ends and those of the expanded ones. */
  ghost predicate Searching(es: seq<Edge>, start: FabricId, bound: nat, all: seq<Path>, done: nat,
                            visited: set<FabricId>, queue: seq<Queued>) {
    && Discovery(es, start, bound, all, done)
    && visited == Ends(all) <= Universe(es, start)
    && |queue| + done == |all|
    && forall j :: 0 <= j < |queue| ==> QueuedAs(queue[j], all[done + j])
  }

  ghost predicate AllFound(all: seq<Path>, xs: seq<FabricId>, n: nat) {
    forall x :: x in xs ==> Found(all, x, n)
  }

  /** The same after the head was popped. */
  ghost predicate Popped(es: seq<Edge>, start: FabricId, bound: nat, all: seq<Path>, done: nat,
                         visited: set<FabricId>, head: Queued, queue: seq<Queued>) {
    && Discovery(es, start, bound, all, done)
    && visited == Ends(all) <= Universe(es, start)
    && |queue| + done + 1 == |all| && QueuedAs(head, all[done])
    && forall j :: 0 <= j < |queue| ==> QueuedAs(queue[j], all[done + 1 + j])
  }

  lemma SearchStarts(es: seq<Edge>, start: FabricId, bound: nat)
    ensures Searching(es, start, bound, [[start]], 0, {start}, [Queued(start, 0, [start])])
  {
    var all := [[start]];
    assert Last(all[0]) in Ends(all);
    assert Ends(all) == {start};
  }

  lemma HeadDone(es: seq<Edge>, start: FabricId, bound: nat, all: seq<Path>, done: nat,
                 visited: set<FabricId>, head: Queued, queue: seq<Queued>)
    requires Popped(es, start, bound, all, done, visited, head, queue)
    requires |head.path| <= bound ==> Expanded(es, head.path, all)
    ensures Searching(es, start, bound, all, done + 1, visited, queue)
  {
    Advance(es, start, bound, all, done);
  }

  lemma EdgeInUniverse(es: seq<Edge>, start: FabricId, a: FabricId, b: FabricId)
    requires HasEdge(es, a, b)
    ensures b in Universe(es, start)
  {
  }

  lemma PushDiscovered(es: seq<Edge>, start: FabricId, bound: nat, all: seq<Path>, done: nat,
                       visited: set<FabricId>, head: Queued, queue: seq<Queued>, y: FabricId, xs: seq<FabricId>)
    requires AllFound(all, xs, |head.path| + 1)
    requires Popped(es, start, bound, all, done, visited, head, queue) && |head.path| <= bound
    requires HasEdge(es, head.node, y) && y !in visited && y in Universe(es, start)
    ensures Popped(es, start, bound, all + [head.path + [y]], done, visited + {y}, head,
                   queue + [Queued(y, head.depth + 1, head.path + [y])])
    ensures AllFound(all + [head.path + [y]], xs + [y], |head.path| + 1)
  {
    Discover(es, start, bound, all, done, y);
  }

  /** A path can be popped only while fewer paths were expanded than there are nodes. */
  lemma HeadOfQueue(es: seq<Edge>, start: FabricId, bound: nat, all: seq<Path>, done: nat,
                    visited: set<FabricId>, queue: seq<Queued>)
    requires Searching(es, start, bound, all, done, visited, queue) && queue != []
    ensures Popped(es, start, bound, all, done, visited, queue[0], queue[1..])
    ensures done < |Universe(es, start)|
    ensures forall paths: seq<Path> :: |paths| == done && paths <= all ==> paths + [queue[0].path] <= all
  {
    EndsCount(es, start, bound, all, done);
    SubsetCount(Ends(all), Universe(es, start));
  }

  lemma AllTargetsFound(es: seq<Edge>, p: Path, all: seq<Path>, neighbors: seq<FabricId>)
    requires p != [] && neighbors == Targets(es, Last(p), None)
    requires AllFound(all, neighbors, |p| + 1)
    ensures Expanded(es, p, all)
  {
    forall y | HasEdge(es, Last(p), y)
      ensures Found(all, y, |p| + 1)
    {
      TargetsAreEdges(es, Last(p), y);
    }
  }

  class CsrGraph {
    var nodes: map<FabricId, seq<string>>
    var edges: seq<Edge>
    var sortedFromIds: seq<FabricId>
    var rowPtr: seq<nat>
    var colIdx: seq<FabricId>
    var edgeTypes: seq<string>
    var dirty: bool
    /** Every edge ever added, in insertion order. */
    ghost var added: seq<Edge>

    ghost predicate Valid()
      reads this
    {
      && |edges| == |added|
      && (forall x :: Outgoing(edges, x) == Outgoing(added, x))
      && (!dirty ==> Compressed(edges, sortedFromIds, rowPtr, colIdx, edgeTypes))
    }

    constructor ()
      ensures Valid() && added == [] && nodes == map[] && !dirty
    {
      nodes, edges := map[], [];
      sortedFromIds, rowPtr, colIdx, edgeTypes := [], [0], [], [];
      dirty, added := false, [];
    }

    method AddNode(id: FabricId, labels: seq<string>)
      modifies this`nodes
      ensures nodes == if id in old(nodes) then old(nodes) else old(nodes)[id := labels]
    {
      if id !in nodes { nodes := nodes[id := labels]; }
    }

    method AddEdge(edge: Edge)
      requires Valid()
      modifies this
      ensures Valid() && added == old(added) + [edge] && nodes == old(nodes)
    {
      edges, added := edges + [edge], added + [edge];
      dirty := true;
      assert edges[..|edges| - 1] == old(edges) && added[..|added| - 1] == old(added);
    }

    /** Rebuild the compressed form, if edges were added since it was built. */
    method EnsureCsr()
      requires Valid()
      modifies this
      ensures Valid() && !dirty && added == old(added) && nodes == old(nodes)
    {
      if !dirty { return; }
      forall x
        ensures Outgoing(StableSort(edges), x) == Outgoing(edges, x)
      {
        StableSortIsStable(edges, x);
      }
      StableSortIsSorted(edges);
      edges := StableSort(edges);
      RebuildRows();
      dirty := false;
    }

    /** Cut the sorted edge list into rows. */
    method RebuildRows()
      requires SortedByFrom(edges)
      modifies this`sortedFromIds, this`rowPtr, this`colIdx, this`edgeTypes
      ensures Compressed(edges, sortedFromIds, rowPtr, colIdx, edgeTypes)
    {
      sortedFromIds, rowPtr, colIdx, edgeTypes := [], [], [], [];
      var currentFrom: Option<FabricId> := None;
      ghost var es := edges;
      for i := 0 to |edges|
        invariant Rows(es, i, sortedFromIds, rowPtr)
        invariant currentFrom == if i == 0 then None else Some(es[i - 1].fromId)
        invariant i > 0 ==> sortedFromIds != [] && sortedFromIds[|sortedFromIds| - 1] == es[i - 1].fromId
        invariant |colIdx| == i && Columns(es, i, colIdx, edgeTypes)
      {
        hide Rows, Columns, SortedByFrom;
        var edge := edges[i];
        NextRow(es, i, sortedFromIds, rowPtr);
        NextColumn(es, i, colIdx, edgeTypes);
        if Some(edge.fromId) != currentFrom {
          sortedFromIds, rowPtr := sortedFromIds + [edge.fromId], rowPtr + [|colIdx|];
          currentFrom := Some(edge.fromId);
        }
        colIdx, edgeTypes := colIdx + [edge.toId], edgeTypes + [edge.edgeType];
      }
      ghost var starts := rowPtr;
      rowPtr := rowPtr + [|colIdx|];
      assert rowPtr[..|sortedFromIds|] == starts;
    }

    method Refresh()
      requires Valid()
      modifies this
      ensures Valid() && !dirty && added == old(added) && nodes == old(nodes)
    {
      EnsureCsr();
    }

    /** The neighbours of a node: a scan of the list while it is dirty, otherwise one row. */
    function GetNeighbors(node: FabricId, edgeType: Option<string>): (r: seq<FabricId>)
      requires Valid()
      reads this
      ensures r == Targets(added, node, edgeType)
    {
      TargetsOfOutgoing(edges, node, edgeType);
      TargetsOfOutgoing(added, node, edgeType);
      if dirty then Targets(edges, node, edgeType)
      else
        match FindRow(sortedFromIds, node, 0, |sortedFromIds|)
        case None =>
          MissingRow(edges, sortedFromIds, rowPtr, colIdx, edgeTypes, node, edgeType);
          []
        case Some(row) =>
          FoundRow(edges, sortedFromIds, rowPtr, colIdx, edgeTypes, row, edgeType);
          RowTargets(colIdx, edgeTypes, rowPtr[row], rowPtr[row + 1], edgeType)
    }

    method GetNeighborsCsr(node: FabricId, edgeType: Option<string>) returns (r: seq<FabricId>)
      requires Valid()
      modifies this
      ensures Valid() && !dirty && added == old(added) && nodes == old(nodes)
      ensures r == Targets(added, node, edgeType)
    {
      EnsureCsr();
      r := GetNeighbors(node, edgeType);
    }

    function GetOutgoingEdges(node: FabricId): (r: seq<Edge>)
      requires Valid()
      reads this
      ensures r == Outgoing(added, node)
    {
      Outgoing(edges, node)
    }

    /** One shortest path to each node within maxDepth edges of start. */
    method Bfs(start: FabricId, maxDepth: nat) returns (paths: seq<Path>)
      requires Valid()
      ensures BfsResult(added, start, maxDepth, paths)
    {
      var visited, queue := {start}, [Queued(start, 0, [start])];
      paths := [];
      ghost var all, es, done := [[start]], added, 0;
      SearchStarts(es, start, maxDepth);
      while queue != []
        invariant Searching(es, start, maxDepth, all, done, visited, queue)
        invariant |paths| == done && paths <= all
        decreases |Universe(es, start)| - done
      {
        var head := queue[0];
        HeadOfQueue(es, start, maxDepth, all, done, visited, queue);
        queue, paths := queue[1..], paths + [head.path];
        if head.depth < maxDepth {
          var stopped;
          visited, queue, stopped, all := EnqueueTargets(start, maxDepth, head, None, visited, queue, all, done);
        }
        HeadDone(es, start, maxDepth, all, done, visited, head, queue);
        done := done + 1;
      }
      assert paths == all;
      CompleteDiscovery(es, start, maxDepth, all);
    }

    /** One shortest path to the target, among those of at most maxDepth + 1 edges. */
    method ShortestPath(start: FabricId, target: FabricId, maxDepth: nat) returns (r: Option<Path>)
      requires Valid()
      ensures ShortestPathResult(added, start, target, maxDepth, r)
    {
      if start == target {
        assert IsPath(added, start, [start]);
        return Some([start]);
      }
      var visited, queue := {start}, [Queued(start, 0, [start])];
      ghost var all, es, done := [[start]], added, 0;
      SearchStarts(es, start, maxDepth + 1);
      while queue != []
        invariant Searching(es, start, maxDepth + 1, all, done, visited, queue)
        invariant target !in visited
        decreases |Universe(es, start)| - done
      {
        var head := queue[0];
        HeadOfQueue(es, start, maxDepth + 1, all, done, visited, queue);
        queue := queue[1..];
        if |head.path| - 1 <= maxDepth {
          ghost var before := all;
          var stopped;
          visited, queue, stopped, all :=
            EnqueueTargets(start, maxDepth + 1, head, Some(target), visited, queue, all, done);
          if stopped {
            TargetMet(es, start, maxDepth + 1, before, done, target);
            return Some(head.path + [target]);
          }
        }
        HeadDone(es, start, maxDepth + 1, all, done, visited, head, queue);
        done := done + 1;
      }
      TargetMissed(es, start, maxDepth + 1, all, target);
      return None;
    }

    /** The inner loop of both traversals: queue the unvisited targets of the popped head,
        unless one of them is the node to stop at. */
    method EnqueueTargets(ghost start: FabricId, ghost bound: nat, head: Queued, stopAt: Option<FabricId>,
                          visited0: set<FabricId>, queue0: seq<Queued>, ghost all0: seq<Path>, ghost done: nat)
      returns (visited: set<FabricId>, queue: seq<Queued>, stopped: bool, ghost all: seq<Path>)
      requires Valid() && Popped(added, start, bound, all0, done, visited0, head, queue0) && |head.path| <= bound
      requires stopAt.Some? ==> stopAt.value !in visited0
      ensures stopped ==> stopAt.Some? && HasEdge(added, head.node, stopAt.value)
      ensures !stopped ==> Popped(added, start, bound, all, done, visited, head, queue)
                           && Expanded(added, head.path, all) && all0 <= all
                           && (stopAt.Some? ==> stopAt.value !in visited)
    {
      visited, queue, stopped, all := visited0, queue0, false, all0;
      ghost var es := added;
      var neighbors := GetNeighbors(head.node, None);
      for i := 0 to |neighbors|
        invariant Popped(es, start, bound, all, done, visited, head, queue) && all0 <= all
        invariant stopAt.Some? ==> stopAt.value !in visited
        invariant AllFound(all, neighbors[..i], |head.path| + 1)
      {
        var neighbor := neighbors[i];
        TargetsAreEdges(es, head.node, neighbor);
        assert neighbors[..i + 1] == neighbors[..i] + [neighbor];
        if neighbor !in visited {
          if Some(neighbor) == stopAt {
            stopped := true;
            return;
          }
          EdgeInUniverse(es, start, head.node, neighbor);
          PushDiscovered(es, start, bound, all, done, visited, head, queue, neighbor, neighbors[..i]);
          visited := visited + {neighbor};
          queue := queue + [Queued(neighbor, head.depth + 1, head.path + [neighbor])];
          all := all + [head.path + [neighbor]];
        } else {
          AlreadyFound(es, start, bound, all, done, neighbor);
        }
      }
      assert neighbors[..|neighbors|] == neighbors;
      AllTargetsFound(es, head.path, all, neighbors);
    }
  }
}
