/** The temporal index: sequence numbers by valid-time start and by transaction time. */
module TemporalIndex {
  import opened Common

  type u32 = x: int | 0 <= x < 0x1_0000_0000

  datatype Timestamp = Timestamp(seconds: int, nanos: u32) {
    /** Position in the lexicographic order of (seconds, nanos). */
    function Rank(): int {
      seconds * 0x1_0000_0000 + nanos
    }

    predicate AtMost(t: Timestamp) {
      seconds < t.seconds || (seconds == t.seconds && nanos <= t.nanos)
    }
  }

  lemma AtMostIsRank(a: Timestamp, b: Timestamp)
    ensures a.AtMost(b) <==> a.Rank() <= b.Rank()
    ensures a.Rank() == b.Rank() ==> a == b
  {
  }

  /** A later second comes later whatever the nanoseconds; within a second, the later nanosecond. */
  lemma LaterIs(a: Timestamp, b: Timestamp)
    ensures a.seconds < b.seconds ==> !b.AtMost(a) && a.Rank() < b.Rank()
    ensures a.seconds == b.seconds && a.nanos < b.nanos ==> !b.AtMost(a) && a.Rank() < b.Rank()
    ensures a.AtMost(b) || b.AtMost(a)
  {
  }

  datatype TemporalBounds = TemporalBounds(validStart: Timestamp, validEnd: Timestamp, transaction: Timestamp) {
    predicate ValidContains(t: Timestamp) {
      validStart.AtMost(t) && !validEnd.AtMost(t)
    }
  }

  datatype Record = Record(bounds: TemporalBounds, seqNo: nat)

  datatype Axis = ValidStart | Transaction

  function TimeOf(r: Record, axis: Axis): Timestamp {
    if axis.ValidStart? then r.bounds.validStart else r.bounds.transaction
  }

  // ---------------------------------------------------------------- the insertion log

  /** Positions of the records with the given time, in insertion order. */
  function PositionsAt(log: seq<Record>, axis: Axis, time: Timestamp): seq<nat> {
    if log == [] then []
    else
      var n := |log| - 1;
      PositionsAt(log[..n], axis, time) + if TimeOf(log[n], axis) == time then [n] else []
  }

  /** Position p comes before position q on the axis: earlier time, or same time and inserted earlier. */
  predicate Precedes(log: seq<Record>, axis: Axis, p: nat, q: nat)
    requires p < |log| && q < |log|
  {
    var a, b := TimeOf(log[p], axis).Rank(), TimeOf(log[q], axis).Rank();
    a < b || (a == b && p < q)
  }

  predicate Within(ps: seq<nat>, n: nat) {
    forall i :: 0 <= i < |ps| ==> ps[i] < n
  }

  ghost predicate Ordered(log: seq<Record>, axis: Axis, ps: seq<nat>) {
    && Within(ps, |log|)
    && forall i, j :: 0 <= i < j < |ps| ==> Precedes(log, axis, ps[i], ps[j])
  }

  function SeqNos(log: seq<Record>, ps: seq<nat>): seq<nat>
    requires Within(ps, |log|)
  {
    seq(|ps|, i requires 0 <= i < |ps| => log[ps[i]].seqNo)
  }

  lemma {:induction false} PositionsAtAll(log: seq<Record>, axis: Axis, time: Timestamp)
    ensures forall p: nat :: p in PositionsAt(log, axis, time) <==> p < |log| && TimeOf(log[p], axis) == time
    ensures Ordered(log, axis, PositionsAt(log, axis, time))
  {
    if log != [] {
      var n := |log| - 1;
      PositionsAtAll(log[..n], axis, time);
      var before := PositionsAt(log[..n], axis, time);
      forall i, j | 0 <= i < j < |before|
        ensures Precedes(log, axis, before[i], before[j])
      {
        assert before[i] in before && before[j] in before;
        assert Precedes(log[..n], axis, before[i], before[j]);
        assert log[..n][before[i]] == log[before[i]] && log[..n][before[j]] == log[before[j]];
      }
    }
  }

  /** Exactly the records that satisfy `pick`, each once, ordered along the axis. */
  ghost predicate Lists(log: seq<Record>, axis: Axis, pick: Record -> bool, out: seq<nat>) {
    exists ps ::
      && Ordered(log, axis, ps)
      && out == SeqNos(log, ps)
      && forall p: nat :: p < |log| ==> (p in ps <==> pick(log[p]))
  }

  // ---------------------------------------------------------------- the index

  type TimeMap = map<Timestamp, seq<nat>>

  /** Each time of the log has its sequence numbers in insertion order. */
  ghost predicate Indexes(log: seq<Record>, axis: Axis, m: TimeMap) {
    && (forall p :: 0 <= p < |log| ==> TimeOf(log[p], axis) in m)
    && (forall time :: time in m ==> m[time] != [] && Within(PositionsAt(log, axis, time), |log|)
                                     && m[time] == SeqNos(log, PositionsAt(log, axis, time)))
  }

  lemma {:induction false} NoPositions(log: seq<Record>, axis: Axis, time: Timestamp)
    requires forall p :: 0 <= p < |log| ==> TimeOf(log[p], axis) != time
    ensures PositionsAt(log, axis, time) == []
  {
    if log != [] { NoPositions(log[..|log| - 1], axis, time); }
  }

  /** One more record extends the entry of its own time only. */
  lemma EntryGrows(log: seq<Record>, axis: Axis, time: Timestamp, r: Record)
    ensures Within(PositionsAt(log, axis, time), |log|) && Within(PositionsAt(log + [r], axis, time), |log| + 1)
    ensures SeqNos(log + [r], PositionsAt(log + [r], axis, time)) ==
            SeqNos(log, PositionsAt(log, axis, time)) + if TimeOf(r, axis) == time then [r.seqNo] else []
  {
    PositionsAtAll(log, axis, time);
    assert (log + [r])[..|log|] == log;
    var ps := PositionsAt(log, axis, time);
    assert forall i :: 0 <= i < |ps| ==> (log + [r])[ps[i]] == log[ps[i]];
  }

  lemma IndexGrows(log: seq<Record>, axis: Axis, m: TimeMap, r: Record)
    requires Indexes(log, axis, m)
    ensures var time := TimeOf(r, axis);
            Indexes(log + [r], axis, m[time := (if time in m then m[time] else []) + [r.seqNo]])
  {
    var more, t := log + [r], TimeOf(r, axis);
    var m' := m[t := (if t in m then m[t] else []) + [r.seqNo]];
    forall time | time in m'
      ensures m'[time] != [] && Within(PositionsAt(more, axis, time), |more|)
      ensures m'[time] == SeqNos(more, PositionsAt(more, axis, time))
    {
      EntryGrows(log, axis, time, r);
      if time !in m { NoPositions(log, axis, time); }
    }
    forall p | 0 <= p < |more|
      ensures TimeOf(more[p], axis) in m'
    {
      assert p < |log| ==> more[p] == log[p];
    }
  }

  lemma {:induction false} LeastTime(times: set<Timestamp>) returns (t: Timestamp)
    requires times != {}
    ensures t in times && forall x :: x in times ==> t.Rank() <= x.Rank()
  {
    t :| t in times;
    if times != {t} {
      var r := LeastTime(times - {t});
      if r.Rank() < t.Rank() { t := r; }
    }
  }

  /** Appending the positions of a later time keeps the order. */
  lemma OrderedAppend(log: seq<Record>, axis: Axis, ps: seq<nat>, time: Timestamp)
    requires Ordered(log, axis, ps)
    requires forall i :: 0 <= i < |ps| ==> TimeOf(log[ps[i]], axis).Rank() < time.Rank()
    ensures Ordered(log, axis, ps + PositionsAt(log, axis, time)) && Within(PositionsAt(log, axis, time), |log|)
    ensures SeqNos(log, ps + PositionsAt(log, axis, time)) ==
            SeqNos(log, ps) + SeqNos(log, PositionsAt(log, axis, time))
  {
    PositionsAtAll(log, axis, time);
    var more := PositionsAt(log, axis, time);
    assert forall i :: 0 <= i < |more| ==> more[i] in more;
  }

  lemma IndexIsTotal(log: seq<Record>, m: TimeMap)
    requires Indexes(log, Transaction, m)
    ensures m == map[] ==> log == []
  {
    if log != [] { assert TimeOf(log[0], Transaction) in m; }
  }

  lemma LatestEntry(log: seq<Record>, m: TimeMap, latest: Timestamp)
    requires Indexes(log, Transaction, m) && latest in m
    requires forall x :: x in m ==> x.Rank() <= latest.Rank()
    ensures m[latest] != [] && Lists(log, Transaction, (r: Record) => r.bounds.transaction == latest, m[latest])
    ensures forall p :: 0 <= p < |log| ==> log[p].bounds.transaction.AtMost(latest)
  {
    PositionsAtAll(log, Transaction, latest);
    forall p | 0 <= p < |log|
      ensures log[p].bounds.transaction.AtMost(latest)
    {
      assert TimeOf(log[p], Transaction) in m;
    }
  }

  lemma RanksAreAtMost(log: seq<Record>, axis: Axis, t: Timestamp)
    ensures forall p :: 0 <= p < |log| ==> (TimeOf(log[p], axis).Rank() <= t.Rank() <==> TimeOf(log[p], axis).AtMost(t))
  {
  }

  lemma {:induction false} LatestTime(times: set<Timestamp>) returns (t: Timestamp)
    requires times != {}
    ensures t in times && forall x :: x in times ==> x.Rank() <= t.Rank()
  {
    t :| t in times;
    if times != {t} {
      var r := LatestTime(times - {t});
      if t.Rank() < r.Rank() { t := r; }
    }
  }

  /** Keep the members of a set, in order. */
  function Retain(xs: seq<nat>, keep: set<nat>): seq<nat> {
    if xs == [] then []
    else Retain(xs[..|xs| - 1], keep) + if xs[|xs| - 1] in keep then [xs[|xs| - 1]] else []
  }

  /** Some record with this number began by t. */
  ghost predicate StartedNumber(log: seq<Record>, seqNo: nat, t: Timestamp) {
    exists p :: 0 <= p < |log| && log[p].seqNo == seqNo && log[p].bounds.validStart.AtMost(t)
  }

  /** Recorded by `transaction`, and some record of the same number began by `valid`. */
  ghost function NumberBegan(log: seq<Record>, valid: Timestamp, transaction: Timestamp): Record -> bool {
    (r: Record) => StartedNumber(log, r.seqNo, valid) && r.bounds.transaction.AtMost(transaction)
  }

  ghost function RetainPositions(log: seq<Record>, ps: seq<nat>, keep: set<nat>): seq<nat>
    requires Within(ps, |log|)
  {
    if ps == [] then []
    else
      RetainPositions(log, ps[..|ps| - 1], keep) +
      if log[ps[|ps| - 1]].seqNo in keep then [ps[|ps| - 1]] else []
  }

  lemma {:induction false} RetainMembers(log: seq<Record>, ps: seq<nat>, keep: set<nat>)
    requires Within(ps, |log|)
    ensures Within(RetainPositions(log, ps, keep), |log|)
    ensures forall p :: p in RetainPositions(log, ps, keep) <==> p in ps && log[p].seqNo in keep
  {
    if ps != [] {
      var n := |ps| - 1;
      RetainMembers(log, ps[..n], keep);
      assert ps == ps[..n] + [ps[n]];
    }
  }

  lemma {:induction false} RetainMatches(log: seq<Record>, ps: seq<nat>, keep: set<nat>)
    requires Within(ps, |log|)
    ensures Within(RetainPositions(log, ps, keep), |log|)
    ensures Retain(SeqNos(log, ps), keep) == SeqNos(log, RetainPositions(log, ps, keep))
  {
    RetainMembers(log, ps, keep);
    if ps != [] {
      var n := |ps| - 1;
      RetainMatches(log, ps[..n], keep);
      assert SeqNos(log, ps)[..n] == SeqNos(log, ps[..n]);
    }
  }

  lemma {:induction false} RetainOrdered(log: seq<Record>, axis: Axis, ps: seq<nat>, keep: set<nat>)
    requires Ordered(log, axis, ps)
    ensures Ordered(log, axis, RetainPositions(log, ps, keep))
  {
    RetainMembers(log, ps, keep);
    if ps != [] {
      var n := |ps| - 1;
      RetainOrdered(log, axis, ps[..n], keep);
      RetainMembers(log, ps[..n], keep);
      var kept := RetainPositions(log, ps[..n], keep);
      forall i | 0 <= i < |kept|
        ensures Precedes(log, axis, kept[i], ps[n])
      {
        assert kept[i] in kept;
        var j :| 0 <= j < n && ps[j] == kept[i];
      }
    }
  }

  lemma StartedSeqNos(log: seq<Record>, vs: seq<nat>, t: Timestamp, started: set<nat>)
    requires Within(vs, |log|)
    requires forall p: nat :: p in vs <==> p < |log| && log[p].bounds.validStart.AtMost(t)
    requires started == set x | x in SeqNos(log, vs)
    ensures forall seqNo :: seqNo in started <==> StartedNumber(log, seqNo, t)
  {
    forall seqNo
      ensures seqNo in started <==> StartedNumber(log, seqNo, t)
    {
      if seqNo in started {
        var i :| 0 <= i < |vs| && SeqNos(log, vs)[i] == seqNo;
        assert vs[i] in vs && log[vs[i]].seqNo == seqNo;
      }
      if p :| 0 <= p < |log| && log[p].seqNo == seqNo && log[p].bounds.validStart.AtMost(t) {
        var i :| 0 <= i < |vs| && vs[i] == p;
        assert SeqNos(log, vs)[i] in SeqNos(log, vs);
      }
    }
  }

  lemma Intersected(log: seq<Record>, vs: seq<nat>, ts: seq<nat>, valid: Timestamp, transaction: Timestamp,
                    started: set<nat>)
    requires Within(vs, |log|) && started == set x | x in SeqNos(log, vs)
    requires forall p: nat :: p in vs <==> p < |log| && TimeOf(log[p], ValidStart).Rank() <= valid.Rank()
    requires Ordered(log, Transaction, ts)
    requires forall p: nat :: p in ts <==> p < |log| && TimeOf(log[p], Transaction).Rank() <= transaction.Rank()
    ensures Lists(log, Transaction, NumberBegan(log, valid, transaction), Retain(SeqNos(log, ts), started))
  {
    RanksAreAtMost(log, ValidStart, valid);
    RanksAreAtMost(log, Transaction, transaction);
    StartedSeqNos(log, vs, valid, started);
    RetainMembers(log, ts, started);
    RetainMatches(log, ts, started);
    RetainOrdered(log, Transaction, ts, started);
    hide Ordered, SeqNos;
    var ps, pick := RetainPositions(log, ts, started), NumberBegan(log, valid, transaction);
    assert forall p: nat :: p < |log| ==> (p in ps <==> pick(log[p]));
  }

  class TemporalIndex {
    var validTimeIndex: TimeMap
    var transactionIndex: TimeMap
    /** Everything ever inserted, in order. */
    ghost var log: seq<Record>

    ghost predicate Valid()
      reads this
    {
      Indexes(log, ValidStart, validTimeIndex) && Indexes(log, Transaction, transactionIndex)
    }

    constructor ()
      ensures Valid() && log == []
    {
      validTimeIndex, transactionIndex, log := map[], map[], [];
    }

    method Insert(bounds: TemporalBounds, seqNo: nat)
      requires Valid()
      modifies this
      ensures Valid() && log == old(log) + [Record(bounds, seqNo)]
    {
      hide Indexes;
      IndexGrows(log, ValidStart, validTimeIndex, Record(bounds, seqNo));
      IndexGrows(log, Transaction, transactionIndex, Record(bounds, seqNo));
      var v, t := bounds.validStart, bounds.transaction;
      validTimeIndex := validTimeIndex[v := (if v in validTimeIndex then validTimeIndex[v] else []) + [seqNo]];
      transactionIndex := transactionIndex[t := (if t in transactionIndex then transactionIndex[t] else []) + [seqNo]];
      log := log + [Record(bounds, seqNo)];
    }

    /** The entries of one index up to and including t, by ascending time. */
    method UpTo(m: TimeMap, ghost axis: Axis, t: Timestamp) returns (out: seq<nat>, ghost ps: seq<nat>)
      requires Indexes(log, axis, m)
      ensures Ordered(log, axis, ps) && out == SeqNos(log, ps)
      ensures forall p: nat :: p in ps <==> p < |log| && TimeOf(log[p], axis).Rank() <= t.Rank()
    {
      var rest := set k | k in m && k.Rank() <= t.Rank();
      ghost var all, records := rest, log;
      out, ps := [], [];
      while rest != {}
        invariant rest <= all && Ordered(records, axis, ps) && out == SeqNos(records, ps)
        invariant forall p: nat :: p in ps <==> p < |records| && TimeOf(records[p], axis) in all - rest
        invariant forall k, j :: k in all - rest && j in rest ==> k.Rank() < j.Rank()
        decreases |rest|
      {
        ghost var w := LeastTime(rest);
        var k :| k in rest && forall x :: x in rest ==> k.Rank() <= x.Rank();
        PositionsAtAll(records, axis, k);
        assert forall i :: 0 <= i < |ps| ==> ps[i] in ps;
        OrderedAppend(records, axis, ps, k);
        forall x | x in rest && x != k
          ensures k.Rank() < x.Rank()
        {
          AtMostIsRank(k, x);
        }
        out, ps, rest := out + m[k], ps + PositionsAt(records, axis, k), rest - {k};
      }
    }

    method QueryAsOfValid(t: Timestamp) returns (out: seq<nat>)
      requires Valid()
      ensures Lists(log, ValidStart, (r: Record) => r.bounds.validStart.AtMost(t), out)
    {
      ghost var ps;
      out, ps := UpTo(validTimeIndex, ValidStart, t);
      RanksAreAtMost(log, ValidStart, t);
    }

    method QueryAsOfTransaction(t: Timestamp) returns (out: seq<nat>)
      requires Valid()
      ensures Lists(log, Transaction, (r: Record) => r.bounds.transaction.AtMost(t), out)
    {
      ghost var ps;
      out, ps := UpTo(transactionIndex, Transaction, t);
      RanksAreAtMost(log, Transaction, t);
    }

    /** The entries of the latest transaction time. */
    method QueryCurrent() returns (out: seq<nat>, ghost latest: Timestamp)
      requires Valid()
      ensures log == [] ==> out == []
      ensures log != [] ==> out != [] && Lists(log, Transaction, (r: Record) => r.bounds.transaction == latest, out)
      ensures forall p :: 0 <= p < |log| ==> log[p].bounds.transaction.AtMost(latest)
    {
      out, latest := [], Timestamp(0, 0);
      IndexIsTotal(log, transactionIndex);
      if transactionIndex != map[] {
        ghost var w := LatestTime(transactionIndex.Keys);
        var last :| last in transactionIndex && forall x :: x in transactionIndex ==> x.Rank() <= last.Rank();
        out, latest := transactionIndex[last], last;
        LatestEntry(log, transactionIndex, last);
      }
    }

    /** The records of the transaction query whose number also occurs in the valid-time query. */
    method QueryBitemporal(valid: Timestamp, transaction: Timestamp) returns (out: seq<nat>)
      requires Valid()
      ensures Lists(log, Transaction, NumberBegan(log, valid, transaction), out)
    {
      var started, vs := UpTo(validTimeIndex, ValidStart, valid);
      var validResults := set x | x in started;
      var recorded, ts := UpTo(transactionIndex, Transaction, transaction);
      out := Retain(recorded, validResults);
      Intersected(log, vs, ts, valid, transaction, validResults);
    }
  }

  // ---------------------------------------------------------------- what a bitemporal query means

  ghost predicate DistinctSeqNos(log: seq<Record>) {
    forall i, j :: 0 <= i < j < |log| ==> log[i].seqNo != log[j].seqNo
  }

  /** Recorded by `transaction` and begun by `valid`. */
  function Began(valid: Timestamp, transaction: Timestamp): Record -> bool {
    (r: Record) => r.bounds.validStart.AtMost(valid) && r.bounds.transaction.AtMost(transaction)
  }

  /** Recorded by `transaction` and valid at `valid`. */
  function ValidThen(valid: Timestamp, transaction: Timestamp): Record -> bool {
    (r: Record) => r.bounds.ValidContains(valid) && r.bounds.transaction.AtMost(transaction)
  }

  /** With distinct numbers, two conditions list the same numbers exactly when they pick the
      same records. */
  lemma SamePick(log: seq<Record>, axis: Axis, a: Record -> bool, b: Record -> bool, out: seq<nat>)
    requires DistinctSeqNos(log) && Lists(log, axis, a, out)
    ensures Lists(log, axis, b, out) <==> forall p :: 0 <= p < |log| ==> (a(log[p]) <==> b(log[p]))
  {
    var ps :| Ordered(log, axis, ps) && out == SeqNos(log, ps) &&
              forall p: nat :: p < |log| ==> (p in ps <==> a(log[p]));
    if Lists(log, axis, b, out) {
      var qs :| Ordered(log, axis, qs) && out == SeqNos(log, qs) &&
                forall p: nat :: p < |log| ==> (p in qs <==> b(log[p]));
      forall i | 0 <= i < |ps|
        ensures ps[i] == qs[i]
      {
        assert SeqNos(log, ps)[i] == SeqNos(log, qs)[i];
      }
      assert ps == qs;
    }
  }

  /** With distinct numbers the query lists the records that began by `valid` and were
      recorded by `transaction`. */
  lemma BitemporalRecords(log: seq<Record>, valid: Timestamp, transaction: Timestamp, out: seq<nat>)
    requires DistinctSeqNos(log)
    requires Lists(log, Transaction, NumberBegan(log, valid, transaction), out)
    ensures Lists(log, Transaction, Began(valid, transaction), out)
  {
    forall p: nat | p < |log|
      ensures StartedNumber(log, log[p].seqNo, valid) <==> log[p].bounds.validStart.AtMost(valid)
    {
    }
    SamePick(log, Transaction, NumberBegan(log, valid, transaction),
             Began(valid, transaction), out);
  }

  /** Ends of valid time are ignored: the query lists the records that were valid at `valid`
      exactly when none of those it lists had ended by then. */
  lemma EndsIgnoredIff(log: seq<Record>, valid: Timestamp, transaction: Timestamp, out: seq<nat>)
    requires DistinctSeqNos(log)
    requires Lists(log, Transaction, Began(valid, transaction), out)
    ensures Lists(log, Transaction, ValidThen(valid, transaction), out)
            <==> forall p :: 0 <= p < |log| && log[p].bounds.validStart.AtMost(valid)
                             && log[p].bounds.transaction.AtMost(transaction)
                             ==> !log[p].bounds.validEnd.AtMost(valid)
  {
    SamePick(log, Transaction, Began(valid, transaction),
             ValidThen(valid, transaction), out);
  }
}
