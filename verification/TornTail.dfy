/** What a torn frame at the end of the log does to later appends, and the repair: cut it off on opening. */
module TornTail {
  import opened Common
  import opened Codec
  import opened Wal

  // ---------------------------------------------------------------- opening keeps a torn tail

  lemma UnfinishedFrame(e: WalEntry, torn: seq<byte>, more: seq<byte>)
    requires Fits(e) && torn <= Frame(e) && 4 <= |torn| && |torn| + |more| < |Frame(e)|
    ensures Replay(torn + more) == Ok([])
  {
    hide Frame;
    Header(e);
    assert (torn + more)[..4] == Frame(e)[..4];
  }

  lemma StillTorn(es: seq<WalEntry>, e: WalEntry, torn: seq<byte>, more: seq<byte>)
    requires AllFit(es) && Fits(e) && torn <= Frame(e) && 4 <= |torn| && |torn| + |more| < |Frame(e)|
    ensures Replay(Frames(es) + torn + more) == Ok(es)
  {
    hide Frame, Frames, Replay;
    UnfinishedFrame(e, torn, more);
    ReplayFrames(es, torn + more);
    assert es + [] == es;
    assert Frames(es) + torn + more == Frames(es) + (torn + more);
  }

  /** Opening keeps a torn tail, so later frames land behind it. As long as they do not
      fill the torn frame, an acknowledged append is not recovered and its number is
      assigned a second time. */
  lemma TornTailLosesAppends(es: seq<WalEntry>, e: WalEntry, torn: seq<byte>, op: WalOp, l: Log)
    requires AllFit(es) && Fits(e)
    requires torn <= Frame(e) && l == Log(Frames(es) + torn, NextSeq(es))
    requires 4 <= |torn| && |torn| + |Frame(WalEntry(l.nextSeq, op))| < |Frame(e)|
    ensures OpenLog(l.file) == Ok(l)
    ensures Replay(AppendLog(l, op).file) == Ok(es)
    ensures OpenLog(AppendLog(l, op).file) == Ok(Log(AppendLog(l, op).file, l.nextSeq))
  {
    hide Frame;
    StillTorn(es, e, torn, []);
    StillTorn(es, e, torn, Frame(WalEntry(l.nextSeq, op)));
    assert l.file + [] == l.file;
  }

  /** An operation whose entry has n + 44 bytes. */
  function Filler(n: nat): WalOp {
    Delete(seq(n, _ => 0), FabricId(seq(16, _ => 0)))
  }

  lemma {:induction false} FromLeConcat(a: seq<byte>, b: seq<byte>)
    ensures FromLe(a + b) == FromLe(a) + Pow256(|a|) * FromLe(b)
  {
    if a == [] {
      assert a + b == b;
    } else {
      FromLeConcat(a[1..], b);
      assert (a + b)[1..] == a[1..] + b;
      assert Pow256(|a|) == 256 * Pow256(|a| - 1);
      assert 256 * (Pow256(|a| - 1) * FromLe(b)) == (256 * Pow256(|a| - 1)) * FromLe(b);
    }
  }

  lemma {:induction false} ToLePrefix(n: nat, width: nat, w: nat)
    requires w <= width
    ensures ToLe(n, width)[..w] == ToLe(n, w)
  {
    if w > 0 { ToLePrefix(n / 256, width - 1, w - 1); }
  }

  /** A torn tail of one to three bytes shifts the next length prefix. */
  lemma ShiftedHeader(torn: seq<byte>, e: WalEntry)
    requires 1 <= |torn| <= 3 && EntrySize(e) < Pow256(4 - |torn|) && EntrySize(e) < U32
    requires Pow256(|torn|) * EntrySize(e) > MAX_ENTRY
    ensures Replay(torn + Frame(e)).Err?
  {
    var size, file, w := EntrySize(e), torn + Frame(e), 4 - |torn|;
    hide EncodeEntry, EntrySize, ToLe, FromLe, Pow256;
    ToLePrefix(size, 4, w);
    LeRoundTrip(size, w);
    FromLeConcat(torn, ToLe(size, w));
    assert file[..4] == torn + Frame(e)[..w] == torn + ToLe(size, w);
  }

  lemma FirstEntry(file: seq<byte>, es: seq<WalEntry>)
    requires Replay(file) == Ok(es) && es != []
    ensures |file| >= 4 && |file| >= 4 + FromLe(file[..4])
    ensures DecodeEntry(file[4..4 + FromLe(file[..4])]) == Some(es[0])
  {
    hide DecodeEntry, FromLe;
  }

  /** If a frame behind a torn one is recovered, it was read out of the torn frame's length. */
  lemma ReadInsideTorn(e: WalEntry, torn: seq<byte>, next: WalEntry)
    requires Fits(e) && torn <= Frame(e) && |torn| >= 4
    requires Replay(torn + Frame(next)) == Ok([next])
    ensures |torn| + |Frame(next)| >= 4 + EntrySize(e)
    ensures DecodeEntry((torn + Frame(next))[4..4 + EntrySize(e)]) == Some(next)
  {
    hide DecodeEntry, EncodeEntry, Frame, FromLe, Replay;
    FirstEntry(torn + Frame(next), [next]);
    Header(e);
    assert (torn + Frame(next))[..4] == torn[..4] == Frame(e)[..4];
  }

  /** An entry is never longer than the bytes it was decoded from. */
  lemma DecodedSize(bs: seq<byte>)
    ensures DecodeEntry(bs).Some? ==> EntrySize(DecodeEntry(bs).value) <= |bs|
  {
    hide FromLe;
  }

  lemma TagBytes(e: WalEntry)
    ensures |EncodeEntry(e)| >= 12
    ensures FromLe(EncodeEntry(e)[8..12]) == 1 <==> e.op.Delete?
  {
    var tag := match e.op case Insert(_, _, _) => 0 case Delete(_, _) => 1 case Update(_, _, _) => 2;
    Widths();
    LeRoundTrip(tag, 4);
    hide FromLe, ToLe, Pow256, PutBytes, PutId;
    assert EncodeEntry(e)[8..] == EncodeOp(e.op);
    assert EncodeEntry(e)[8..12] == EncodeEntry(e)[8..][..4];
    assert EncodeOp(e.op)[..4] == ToLe(tag, 4);
  }

  lemma DecodedTag(bs: seq<byte>)
    requires DecodeEntry(bs).Some? && |bs| >= 12
    ensures FromLe(bs[8..12]) == 1 <==> DecodeEntry(bs).value.op.Delete?
  {
    hide FromLe, TakeBytes, TakeId;
    assert bs[8..][..4] == bs[8..12];
  }

  /** The first twelve bytes of an entry determine whether it is a delete. */
  lemma SameKind(bs: seq<byte>, e: WalEntry)
    requires |bs| >= 12 && bs[..12] == EncodeEntry(e)[..12]
    requires DecodeEntry(bs).Some?
    ensures DecodeEntry(bs).value.op.Delete? <==> e.op.Delete?
  {
    hide *;
    TagBytes(e);
    DecodedTag(bs);
    assert bs[8..12] == bs[..12][8..] == EncodeEntry(e)[..12][8..] == EncodeEntry(e)[8..12];
  }

  lemma LosesLonger(e: WalEntry, torn: seq<byte>, next: WalEntry)
    requires Fits(e) && torn <= Frame(e) && |torn| >= 4 && EntrySize(next) > EntrySize(e)
    ensures Replay(torn + Frame(next)) != Ok([next])
  {
    if Replay(torn + Frame(next)) == Ok([next]) {
      hide Frame, Replay, EncodeEntry, DecodeEntry;
      ReadInsideTorn(e, torn, next);
      DecodedSize((torn + Frame(next))[4..4 + EntrySize(e)]);
      assert false;
    }
  }

  lemma TornStart(e: WalEntry, torn: seq<byte>, more: seq<byte>, n: nat)
    requires EntrySize(e) < U32 && torn <= Frame(e) && |torn| >= 16 && 16 <= n <= |torn + more|
    ensures |EncodeEntry(e)| >= 12 && (torn + more)[4..n][..12] == EncodeEntry(e)[..12]
  {
    Header(e);
    hide EncodeEntry, EntrySize;
    assert Frame(e)[4..] == EncodeEntry(e);
    hide Frame;
    assert (torn + more)[4..n][..12] == torn[4..16] == Frame(e)[4..16] == Frame(e)[4..][..12];
  }

  lemma LosesOtherKind(e: WalEntry, torn: seq<byte>, next: WalEntry)
    requires Fits(e) && torn <= Frame(e) && 4 <= |torn| < |Frame(e)| && EntrySize(e) > 100
    requires EntrySize(next) <= 52 && (next.op.Delete? <==> !e.op.Delete?)
    ensures Replay(torn + Frame(next)) != Ok([next])
  {
    if Replay(torn + Frame(next)) == Ok([next]) {
      ReadInsideTorn(e, torn, next);
      Header(e);
      Header(next);
      hide Replay, EncodeEntry, DecodeEntry, EntrySize, Frame;
      TornStart(e, torn, Frame(next), 4 + EntrySize(e));
      SameKind((torn + Frame(next))[4..4 + EntrySize(e)], e);
      assert false;
    }
  }

  /** Behind any torn tail some append of an acceptable size is not recovered. */
  lemma TornTailLosesSome(e: WalEntry, torn: seq<byte>, seqNo: nat) returns (op: WalOp)
    requires Fits(e) && torn <= Frame(e) && torn != [] && torn != Frame(e) && seqNo < U64
    ensures Fits(WalEntry(seqNo, op)) && Replay(torn + Frame(WalEntry(seqNo, op))) != Ok([WalEntry(seqNo, op)])
  {
    hide Frame, Replay, EncodeEntry, DecodeEntry;
    if |torn| < 4 {
      op := Filler(if |torn| == 1 then 0x4_0000 else if |torn| == 2 then 0x400 else 0);
      ShiftedHeader(torn, WalEntry(seqNo, op));
    } else if EntrySize(e) < MAX_ENTRY {
      op := Filler(MAX_ENTRY - 44);
      LosesLonger(e, torn, WalEntry(seqNo, op));
    } else {
      op := if e.op.Delete? then Insert([], e.op.rowId, []) else Filler(0);
      LosesOtherKind(e, torn, WalEntry(seqNo, op));
    }
  }

  lemma PrependOne(es: seq<WalEntry>, r: Result<seq<WalEntry>, WalError>, e: WalEntry)
    ensures Prepend(es, r) == Ok(es + [e]) <==> r == Ok([e])
  {
    if Prepend(es, r) == Ok(es + [e]) {
      assert r.value == (es + r.value)[|es|..] == [e];
    }
  }

  lemma ReplayOne(e: WalEntry)
    requires Fits(e)
    ensures Replay(Frame(e)) == Ok([e])
  {
    hide Frame;
    ReplayFrame(e, []);
    assert Frame(e) + [] == Frame(e) && [e] + [] == [e];
  }

  /** Behind a tail left by a crash every append is recovered exactly when the tail is empty:
      what opening the log would have to cut off. */
  lemma AppendsRecoveredIff(es: seq<WalEntry>, e: WalEntry, torn: seq<byte>, l: Log)
    requires AllFit(es) && Fits(e) && torn <= Frame(e) && torn != Frame(e)
    requires l == Log(Frames(es) + torn, NextSeq(es)) && l.nextSeq < U64
    ensures OpenLog(l.file) == Ok(l)
    ensures (forall op :: Fits(WalEntry(l.nextSeq, op)) ==>
                            Replay(AppendLog(l, op).file) == Ok(es + [WalEntry(l.nextSeq, op)]))
            <==> torn == []
  {
    hide Frame, Frames, Replay, Fits;
    ReplayTorn(es, e, |torn|);
    assert Frame(e)[..|torn|] == torn;
    forall op: WalOp
      ensures Replay(AppendLog(l, op).file) == Prepend(es, Replay(torn + Frame(WalEntry(l.nextSeq, op))))
    {
      ReplayFrames(es, torn + Frame(WalEntry(l.nextSeq, op)));
      assert Frames(es) + torn + Frame(WalEntry(l.nextSeq, op)) == Frames(es) + (torn + Frame(WalEntry(l.nextSeq, op)));
    }
    if torn == [] {
      forall op | Fits(WalEntry(l.nextSeq, op))
        ensures Replay(AppendLog(l, op).file) == Ok(es + [WalEntry(l.nextSeq, op)])
      {
        ReplayOne(WalEntry(l.nextSeq, op));
        assert torn + Frame(WalEntry(l.nextSeq, op)) == Frame(WalEntry(l.nextSeq, op));
      }
    } else {
      var op := TornTailLosesSome(e, torn, l.nextSeq);
      PrependOne(es, Replay(torn + Frame(WalEntry(l.nextSeq, op))), WalEntry(l.nextSeq, op));
    }
  }

  // ---------------------------------------------------------------- the repaired log

  /** How many bytes of a file the replay consumed. */
  function Consumed(file: seq<byte>): (n: nat)
    ensures n <= |file|
    decreases |file|
  {
    if |file| < 4 then 0
    else
      var len := FromLe(file[..4]);
      if len > MAX_ENTRY || |file| < 4 + len || DecodeEntry(file[4..4 + len]).None? then 0
      else 4 + len + Consumed(file[4 + len..])
  }

  /** Opening with the repair: drop what the replay could not consume. */
  function OpenRepaired(file: seq<byte>): Result<Log, WalError> {
    match Replay(file)
    case Ok(es) => Ok(Log(file[..Consumed(file)], NextSeq(es)))
    case Err(e) => Err(e)
  }

  lemma ConsumedFrame(e: WalEntry, rest: seq<byte>)
    requires Fits(e)
    ensures Consumed(Frame(e) + rest) == |Frame(e)| + Consumed(rest)
  {
    var body := EncodeEntry(e);
    var file := Frame(e) + rest;
    Header(e);
    assert file[..4] == Frame(e)[..4];
    assert file[4..4 + |body|] == body && file[4 + |body|..] == rest;
    EntryRoundTrip(e);
  }

  lemma {:induction false} ConsumedFrames(es: seq<WalEntry>, rest: seq<byte>)
    requires AllFit(es)
    ensures Consumed(Frames(es) + rest) == |Frames(es)| + Consumed(rest)
  {
    hide Frame;
    if es == [] {
      assert Frames(es) + rest == rest;
    } else {
      var init, e := es[..|es| - 1], es[|es| - 1];
      assert es == init + [e];
      FramesSnoc(init, e, rest);
      ConsumedFrames(init, Frame(e) + rest);
      ConsumedFrame(e, rest);
    }
  }

  lemma ConsumedTorn(e: WalEntry, j: nat)
    requires Fits(e) && j < |Frame(e)|
    ensures Consumed(Frame(e)[..j]) == 0
  {
    Header(e);
    if j >= 4 {
      assert Frame(e)[..j][..4] == Frame(e)[..4];
    }
  }

  lemma RepairedWhole(es: seq<WalEntry>)
    requires AllFit(es)
    ensures OpenRepaired(Frames(es)) == Ok(Log(Frames(es), NextSeq(es)))
  {
    hide Frame;
    ReplayWhole(es);
    ConsumedFrames(es, []);
    assert Frames(es) + [] == Frames(es);
  }

  lemma RepairedTorn(es: seq<WalEntry>, e: WalEntry, j: nat)
    requires AllFit(es) && Fits(e) && j < |Frame(e)|
    ensures OpenRepaired(Frames(es) + Frame(e)[..j]) == Ok(Log(Frames(es), NextSeq(es)))
  {
    hide Frame;
    ReplayTorn(es, e, j);
    ConsumedFrames(es, Frame(e)[..j]);
    ConsumedTorn(e, j);
  }

  /** After a crash that leaves the first k bytes, the repaired open leaves whole frames only. */
  lemma RepairedOpen(es: seq<WalEntry>, k: nat)
    requires AllFit(es) && k <= |Frames(es)|
    ensures var whole := es[..WholeFrames(es, k)];
            OpenRepaired(Frames(es)[..k]) == Ok(Log(Frames(whole), NextSeq(whole)))
  {
    hide Frame, Frames, Fits, OpenRepaired;
    var n := WholeFrames(es, k);
    if k == |Frames(es)| {
      AllWhole(es);
      hide WholeFrames;
      assert Frames(es)[..k] == Frames(es) && es[..n] == es;
      RepairedWhole(es);
    } else {
      PrefixOfFrames(es, k);
      RepairedTorn(es[..n], es[n], k - |Frames(es[..n])|);
    }
  }

  datatype CrashStep = AppendOp(op: WalOp) | Crash(keep: nat)

  /** The operations that survive a run with crashes. */
  function Surviving(run: seq<CrashStep>): seq<WalOp> {
    if run == [] then []
    else
      var ops := Surviving(run[..|run| - 1]);
      match run[|run| - 1]
      case AppendOp(op) => ops + [op]
      case Crash(k) => ops[..WholeFrames(Numbered(ops), k)]
  }

  function RunRepaired(run: seq<CrashStep>): Result<Log, WalError> {
    if run == [] then OpenRepaired([])
    else
      match RunRepaired(run[..|run| - 1])
      case Err(e) => Err(e)
      case Ok(l) =>
        match run[|run| - 1]
        case AppendOp(op) => Ok(AppendLog(l, op))
        case Crash(k) => OpenRepaired(l.file[..Min(k, |l.file|)])
  }

  predicate OpFits(op: WalOp) {
    OpSize(op) + 8 <= MAX_ENTRY
  }

  lemma NothingSurvives()
    ensures Numbered([]) == [] && AllFit([]) && Frames([]) == []
  {
  }

  lemma AppendAfter(ops: seq<WalOp>, op: WalOp)
    requires AllFit(Numbered(ops)) && OpFits(op) && |ops| + 1 < U64
    ensures AllFit(Numbered(ops + [op]))
    ensures AppendLog(Log(Frames(Numbered(ops)), |ops| + 1), op) == Log(Frames(Numbered(ops + [op])), |ops| + 2)
  {
    hide Frame;
    NumberedSnoc(ops, op);
  }

  lemma NumberedPrefix(ops: seq<WalOp>, n: nat)
    requires n <= |ops| && AllFit(Numbered(ops))
    ensures Numbered(ops)[..n] == Numbered(ops[..n]) && AllFit(Numbered(ops[..n]))
  {
    hide Fits;
    assert Numbered(ops)[..n] == Numbered(ops[..n]);
  }

  lemma WholeFramesClamp(es: seq<WalEntry>, k: nat)
    ensures WholeFrames(es, Min(k, |Frames(es)|)) == WholeFrames(es, k)
  {
  }

  lemma CrashAfter(ops: seq<WalOp>, k: nat)
    requires AllFit(Numbered(ops))
    ensures var file := Frames(Numbered(ops));
            var left := ops[..WholeFrames(Numbered(ops), k)];
            && AllFit(Numbered(left))
            && OpenRepaired(file[..Min(k, |file|)]) == Ok(Log(Frames(Numbered(left)), |left| + 1))
  {
    hide Frame, OpenRepaired, Fits;
    var es := Numbered(ops);
    WholeFramesClamp(es, k);
    RepairedOpen(es, Min(k, |Frames(es)|));
    NumberedPrefix(ops, WholeFrames(es, k));
  }

  /** With the repair, sequence numbers stay 1, 2, .. over any run of appends and crashes,
      and exactly the operations whose frames were whole survive. */
  lemma {:induction false} RepairedRun(run: seq<CrashStep>)
    requires |run| + 1 < U64
    requires forall i :: 0 <= i < |run| && run[i].AppendOp? ==> OpFits(run[i].op)
    ensures |Surviving(run)| <= |run| && AllFit(Numbered(Surviving(run)))
    ensures RunRepaired(run) == Ok(Log(Frames(Numbered(Surviving(run))), |Surviving(run)| + 1))
  {
    hide Frame, Frames, OpenRepaired, WholeFrames, AppendLog;
    if run == [] {
      RepairedWhole(Numbered([]));
      NothingSurvives();
    } else {
      hide Numbered, AllFit;
      var init := run[..|run| - 1];
      RepairedRun(init);
      match run[|run| - 1]
      case AppendOp(op) =>
        assert OpFits(run[|run| - 1].op);
        AppendAfter(Surviving(init), op);
      case Crash(k) =>
        CrashAfter(Surviving(init), k);
    }
  }
}
