/** The write-ahead log: length-prefixed frames in one append-only file. */
module Wal {
  import opened Common
  import opened Codec

  /** Longest entry that a replay accepts: 64 MiB. */
  const MAX_ENTRY: nat := 64 * 1024 * 1024

  datatype WalError = EntryTooLong(len: nat) | Undecodable

  /** The length prefix is a u32; a longer length loses its high bits. */
  function Frame(e: WalEntry): seq<byte> {
    ToLe(EntrySize(e) % U32, 4) + EncodeEntry(e)
  }

  function Frames(es: seq<WalEntry>): seq<byte> {
    if es == [] then [] else Frames(es[..|es| - 1]) + Frame(es[|es| - 1])
  }

  function Prepend(es: seq<WalEntry>, r: Result<seq<WalEntry>, WalError>): Result<seq<WalEntry>, WalError> {
    match r
    case Ok(rest) => Ok(es + rest)
    case Err(e) => Err(e)
  }

  /** The entries of a log file, up to the first incomplete frame. */
  function Replay(file: seq<byte>): Result<seq<WalEntry>, WalError>
    decreases |file|
  {
    if |file| < 4 then Ok([])
    else
      var len := FromLe(file[..4]);
      if len > MAX_ENTRY then Err(EntryTooLong(len))
      else if |file| < 4 + len then Ok([])
      else
        match DecodeEntry(file[4..4 + len])
        case None => Err(Undecodable)
        case Some(e) => Prepend([e], Replay(file[4 + len..]))
  }

  // ---------------------------------------------------------------- recovery of whole and torn logs

  /** An entry that a replay accepts. */
  predicate Fits(e: WalEntry) {
    e.seqNo < U64 && EntrySize(e) <= MAX_ENTRY
  }

  predicate AllFit(es: seq<WalEntry>) {
    forall i :: 0 <= i < |es| ==> Fits(es[i])
  }

  lemma TakeAcross(a: seq<byte>, b: seq<byte>, c: seq<byte>, k: nat)
    requires |a| <= k <= |a| + |b|
    ensures (a + b + c)[..k] == a + b[..k - |a|]
  {
  }

  /** The length prefix of a frame reads back as the length of its entry. */
  lemma Header(e: WalEntry)
    requires EntrySize(e) < U32
    ensures |Frame(e)| == 4 + EntrySize(e) && FromLe(Frame(e)[..4]) == EntrySize(e)
  {
    hide EncodeEntry;
    Widths();
    LeRoundTrip(EntrySize(e), 4);
    TakeAcross(ToLe(EntrySize(e), 4), EncodeEntry(e), [], 4);
    assert Frame(e) + [] == Frame(e);
  }

  lemma ReplayFrame(e: WalEntry, rest: seq<byte>)
    requires Fits(e)
    ensures Replay(Frame(e) + rest) == Prepend([e], Replay(rest))
  {
    var body := EncodeEntry(e);
    var file := Frame(e) + rest;
    Header(e);
    assert file[..4] == Frame(e)[..4];
    assert file[4..4 + |body|] == body && file[4 + |body|..] == rest;
    EntryRoundTrip(e);
  }

  lemma PrependTwice(a: seq<WalEntry>, b: seq<WalEntry>, r: Result<seq<WalEntry>, WalError>)
    ensures Prepend(a, Prepend(b, r)) == Prepend(a + b, r)
    ensures Prepend([], r) == r
  {
    if r.Ok? {
      assert a + (b + r.value) == (a + b) + r.value;
      assert [] + r.value == r.value;
    }
  }

  lemma FramesSnoc(es: seq<WalEntry>, e: WalEntry, rest: seq<byte>)
    ensures Frames(es + [e]) + rest == Frames(es) + (Frame(e) + rest)
  {
    hide Frame;
    assert (es + [e])[..|es|] == es;
  }

  lemma {:induction false} ReplayFrames(es: seq<WalEntry>, rest: seq<byte>)
    requires AllFit(es)
    ensures Replay(Frames(es) + rest) == Prepend(es, Replay(rest))
  {
    hide Frame;
    if es == [] {
      assert Frames(es) + rest == rest;
      PrependTwice([], [], Replay(rest));
    } else {
      var init, e := es[..|es| - 1], es[|es| - 1];
      assert es == init + [e];
      calc {
        Replay(Frames(es) + rest);
        { FramesSnoc(init, e, rest); }
        Replay(Frames(init) + (Frame(e) + rest));
        { ReplayFrames(init, Frame(e) + rest); }
        Prepend(init, Replay(Frame(e) + rest));
        { ReplayFrame(e, rest); }
        Prepend(init, Prepend([e], Replay(rest)));
        { PrependTwice(init, [e], Replay(rest)); }
        Prepend(es, Replay(rest));
      }
    }
  }

  /** A proper prefix of a frame yields nothing. */
  lemma TornFrame(e: WalEntry, j: nat)
    requires Fits(e) && j < |Frame(e)|
    ensures Replay(Frame(e)[..j]) == Ok([])
  {
    Header(e);
    var torn := Frame(e)[..j];
    if j >= 4 {
      assert torn[..4] == Frame(e)[..4];
    }
  }

  lemma PrefixOfInit(es: seq<WalEntry>, n: nat)
    requires n < |es|
    ensures es[..|es| - 1][..n] == es[..n]
    ensures es[..n + 1] == if n + 1 < |es| then es[..|es| - 1][..n + 1] else es
  {
  }

  lemma NoFrames()
    ensures Frames([]) == []
  {
  }

  /** How many frames lie wholly inside the first k bytes. */
  function WholeFrames(es: seq<WalEntry>, k: nat): (n: nat)
    ensures n <= |es| && |Frames(es[..n])| <= k
    ensures n < |es| ==> k < |Frames(es[..n + 1])|
  {
    hide Frame, Frames;
    assert es[..|es|] == es && Frames([]) == [] by { NoFrames(); }
    if es == [] || |Frames(es)| <= k then |es|
    else
      var n := WholeFrames(es[..|es| - 1], k);
      PrefixOfInit(es, n);
      n
  }

  lemma {:induction false} FramesPrefix(es: seq<WalEntry>, n: nat)
    requires n <= |es|
    ensures |Frames(es[..n])| <= |Frames(es)| && Frames(es)[..|Frames(es[..n])|] == Frames(es[..n])
  {
    hide Frame;
    if n == |es| {
      assert es[..n] == es;
    } else {
      var m := |es| - 1;
      FramesPrefix(es[..m], n);
      assert es[..m][..n] == es[..n];
    }
  }

  /** Replaying whole frames and a piece of the next. */
  lemma ReplayTorn(es: seq<WalEntry>, e: WalEntry, j: nat)
    requires AllFit(es) && Fits(e) && j < |Frame(e)|
    ensures Replay(Frames(es) + Frame(e)[..j]) == Ok(es)
  {
    hide Frame;
    ReplayFrames(es, Frame(e)[..j]);
    TornFrame(e, j);
    assert es + [] == es;
  }

  lemma ReplayWhole(es: seq<WalEntry>)
    requires AllFit(es)
    ensures Replay(Frames(es)) == Ok(es)
  {
    hide Frame;
    ReplayFrames(es, []);
    assert Frames(es) + [] == Frames(es) && es + [] == es;
  }

  lemma SplitFrames(es: seq<WalEntry>, n: nat) returns (rest: seq<byte>)
    requires n < |es|
    ensures Frames(es) == Frames(es[..n]) + Frame(es[n]) + rest
  {
    hide Frame;
    FramesPrefix(es, n + 1);
    assert es[..n + 1][..n] == es[..n];
    rest := Frames(es)[|Frames(es[..n + 1])|..];
  }

  lemma PrefixOfFrames(es: seq<WalEntry>, k: nat)
    requires k < |Frames(es)|
    ensures WholeFrames(es, k) < |es|
    ensures var n := WholeFrames(es, k);
            k - |Frames(es[..n])| < |Frame(es[n])|
            && Frames(es)[..k] == Frames(es[..n]) + Frame(es[n])[..k - |Frames(es[..n])|]
  {
    hide Frame;
    var n := WholeFrames(es, k);
    assert es[..|es|] == es;
    var rest := SplitFrames(es, n);
    assert |Frames(es[..n + 1])| == |Frames(es[..n])| + |Frame(es[n])| by {
      assert es[..n + 1][..n] == es[..n];
    }
    TakeAcross(Frames(es[..n]), Frame(es[n]), rest, k);
  }

  lemma AllWhole(es: seq<WalEntry>)
    ensures WholeFrames(es, |Frames(es)|) == |es|
  {
  }

  /** Crash recovery: a replay of the first k bytes of a log gives exactly the entries
      whose frames lie wholly inside them. */
  lemma CrashPrefix(es: seq<WalEntry>, k: nat)
    requires AllFit(es) && k <= |Frames(es)|
    ensures Replay(Frames(es)[..k]) == Ok(es[..WholeFrames(es, k)])
  {
    hide Frame, Frames, Replay, WholeFrames, Fits;
    if k == |Frames(es)| {
      ReplayWhole(es);
      AllWhole(es);
      assert Frames(es)[..k] == Frames(es);
      assert es[..|es|] == es;
    } else {
      PrefixOfFrames(es, k);
      var n := WholeFrames(es, k);
      ReplayTorn(es[..n], es[n], k - |Frames(es[..n])|);
    }
  }

  /** An entry over the limit, which append accepts, stops every later replay. */
  lemma OversizedStopsReplay(es: seq<WalEntry>, e: WalEntry, rest: seq<byte>)
    requires AllFit(es) && MAX_ENTRY < EntrySize(e) < U32
    ensures Replay(Frames(es) + Frame(e) + rest) == Err(EntryTooLong(EntrySize(e)))
  {
    var tail := Frame(e) + rest;
    Header(e);
    assert tail[..4] == Frame(e)[..4];
    ReplayFrames(es, tail);
    assert Frames(es) + Frame(e) + rest == Frames(es) + tail;
  }

  lemma ReplayStops(file: seq<byte>, len: nat)
    requires |file| >= 4 + len && FromLe(file[..4]) == len
    requires DecodeEntry(file[4..4 + len]) == None
    ensures Replay(file).Err?
  {
    hide DecodeEntry, FromLe;
  }

  lemma WrappedFrame(e: WalEntry, rest: seq<byte>)
    ensures var file, len := Frame(e) + rest, EntrySize(e) % U32;
            |file| >= 4 + len && file[..4] == ToLe(len, 4) && file[4..4 + len] == EncodeEntry(e)[..len]
  {
    var a, b := ToLe(EntrySize(e) % U32, 4), EncodeEntry(e);
    assert Frame(e) + rest == a + (b + rest);
    hide *;
    assert (a + (b + rest))[4..] == b + rest;
  }

  /** A length that needs more than 32 bits is cut down, and what is left does not decode. */
  lemma WrappedLengthStopsReplay(e: WalEntry, rest: seq<byte>)
    requires e.seqNo < U64 && U32 <= EntrySize(e) < U64
    ensures Replay(Frame(e) + rest).Err?
  {
    var file, len := Frame(e) + rest, EntrySize(e) % U32;
    assert |EncodeEntry(e)| == EntrySize(e);
    Widths();
    hide *;
    LeRoundTrip(len, 4);
    CutEntry(e, len);
    WrappedFrame(e, rest);
    ReplayStops(file, len);
  }

  lemma MisfitStopsReplay(es: seq<WalEntry>, e: WalEntry, rest: seq<byte>)
    requires AllFit(es) && e.seqNo < U64 && MAX_ENTRY < EntrySize(e) < U64
    ensures Replay(Frames(es) + Frame(e) + rest).Err?
  {
    hide Frame, Replay;
    if EntrySize(e) < U32 {
      OversizedStopsReplay(es, e, rest);
    } else {
      WrappedLengthStopsReplay(e, rest);
      ReplayFrames(es, Frame(e) + rest);
      assert Frames(es) + Frame(e) + rest == Frames(es) + (Frame(e) + rest);
    }
  }

  lemma FirstMisfit(es: seq<WalEntry>) returns (n: nat)
    requires !AllFit(es)
    ensures n < |es| && !Fits(es[n]) && AllFit(es[..n])
  {
    n := 0;
    while Fits(es[n])
      invariant n < |es| && AllFit(es[..n])
      decreases |es| - n
    {
      n := n + 1;
    }
  }

  /** A log is recovered exactly when none of its entries is over the limit. */
  lemma RecoveredIffAllFit(es: seq<WalEntry>)
    requires forall i :: 0 <= i < |es| ==> es[i].seqNo < U64 && EntrySize(es[i]) < U64
    ensures Replay(Frames(es)) == Ok(es) <==> forall i :: 0 <= i < |es| ==> |EncodeEntry(es[i])| <= 67108864
    ensures Replay(Frames(es)).Ok? <==> forall i :: 0 <= i < |es| ==> |EncodeEntry(es[i])| <= 67108864
  {
    if AllFit(es) {
      ReplayWhole(es);
    } else {
      var n := FirstMisfit(es);
      var rest := SplitFrames(es, n);
      MisfitStopsReplay(es[..n], es[n], rest);
    }
  }

  // ---------------------------------------------------------------- the log object

  /** The file of a log and the next sequence number to assign. */
  datatype Log = Log(file: seq<byte>, nextSeq: nat)

  function NextSeq(es: seq<WalEntry>): nat {
    if es == [] then 1 else es[|es| - 1].seqNo + 1
  }

  function OpenLog(file: seq<byte>): Result<Log, WalError> {
    match Replay(file)
    case Ok(es) => Ok(Log(file, NextSeq(es)))
    case Err(e) => Err(e)
  }

  function AppendLog(l: Log, op: WalOp): Log {
    Log(l.file + Frame(WalEntry(l.nextSeq, op)), l.nextSeq + 1)
  }

  class WriteAheadLog {
    var file: seq<byte>
    var nextSeq: nat

    ghost function State(): Log
      reads this
    {
      Log(file, nextSeq)
    }

    constructor (file: seq<byte>)
      ensures State() == Log(file, 1)
    {
      this.file, nextSeq := file, 1;
    }

    /** Open the log over the bytes found on disk; they are kept as they are. */
    static method Open(file: seq<byte>) returns (r: Result<WriteAheadLog, WalError>)
      ensures match OpenLog(file)
              case Ok(l) => r.Ok? && fresh(r.value) && r.value.State() == l
              case Err(e) => r == Err(e)
    {
      var wal := new WriteAheadLog(file);
      var entries := wal.ReplayInternal();
      match entries {
        case Err(e) => return Err(e);
        case Ok(es) =>
          if es != [] { wal.nextSeq := es[|es| - 1].seqNo + 1; }
          return Ok(wal);
      }
    }

    /** Write one frame; the caller's counter must not be exhausted. */
    method Append(op: WalOp) returns (seqNo: nat)
      requires nextSeq + 1 < U64
      modifies this
      ensures State() == AppendLog(old(State()), op) && seqNo == old(nextSeq)
    {
      hide EncodeEntry, ToLe;
      var bytes := EncodeEntry(WalEntry(nextSeq, op));
      var len := |bytes| % U32;
      file := file + ToLe(len, 4);
      file := file + bytes;
      assert file == old(file) + Frame(WalEntry(nextSeq, op));
      seqNo := nextSeq;
      nextSeq := nextSeq + 1;
    }

    /** Read frames from the start until one is incomplete. */
    method ReplayInternal() returns (r: Result<seq<WalEntry>, WalError>)
      ensures r == Replay(file)
    {
      var entries, rest := [], file;
      PrependTwice([], [], Replay(file));
      while true
        invariant Replay(file) == Prepend(entries, Replay(rest))
        decreases |rest|
      {
        assert entries + [] == entries;
        if |rest| < 4 { return Ok(entries); }
        var len := FromLe(rest[..4]);
        if len > MAX_ENTRY { return Err(EntryTooLong(len)); }
        if |rest| - 4 < len { return Ok(entries); }
        match DecodeEntry(rest[4..4 + len]) {
          case None => return Err(Undecodable);
          case Some(entry) =>
            PrependTwice(entries, [entry], Replay(rest[4 + len..]));
            entries, rest := entries + [entry], rest[4 + len..];
        }
      }
    }
  }

  // ---------------------------------------------------------------- sequence numbers over runs

  datatype LogStep = Append(op: WalOp) | Reopen

  function RunLog(run: seq<LogStep>): Result<Log, WalError> {
    if run == [] then OpenLog([])
    else
      match RunLog(run[..|run| - 1])
      case Err(e) => Err(e)
      case Ok(l) => if run[|run| - 1].Append? then Ok(AppendLog(l, run[|run| - 1].op)) else OpenLog(l.file)
  }

  function Appended(run: seq<LogStep>): seq<WalOp> {
    if run == [] then []
    else Appended(run[..|run| - 1]) + if run[|run| - 1].Append? then [run[|run| - 1].op] else []
  }

  /** The entries 1, 2, .. for the given operations. */
  function Numbered(ops: seq<WalOp>): seq<WalEntry> {
    seq(|ops|, i requires 0 <= i < |ops| => WalEntry(i + 1, ops[i]))
  }

  lemma NumberedSnoc(ops: seq<WalOp>, op: WalOp)
    ensures Numbered(ops + [op]) == Numbered(ops) + [WalEntry(|ops| + 1, op)]
    ensures Frames(Numbered(ops + [op])) == Frames(Numbered(ops)) + Frame(WalEntry(|ops| + 1, op))
    ensures AllFit(Numbered(ops + [op])) ==> AllFit(Numbered(ops))
  {
    hide Frame;
    var es := Numbered(ops + [op]);
    assert es == Numbered(ops) + [WalEntry(|ops| + 1, op)];
    assert es[..|ops|] == Numbered(ops);
    if AllFit(es) {
      forall i | 0 <= i < |ops|
        ensures Fits(Numbered(ops)[i])
      {
        assert Numbered(ops)[i] == es[i];
      }
    }
  }

  lemma OpenNumbered(ops: seq<WalOp>)
    requires AllFit(Numbered(ops))
    ensures OpenLog(Frames(Numbered(ops))) == Ok(Log(Frames(Numbered(ops)), |ops| + 1))
  {
    hide Frame, Frames, Replay, Fits, AllFit;
    ReplayWhole(Numbered(ops));
  }

  lemma NothingToFit()
    ensures Numbered([]) == [] && AllFit([])
  {
  }

  /** Over any run of appends and clean reopens the log holds the operations numbered
      1, 2, .. without gaps, and the counter continues after them. */
  lemma {:induction false} SequenceNumbers(run: seq<LogStep>)
    requires AllFit(Numbered(Appended(run)))
    ensures RunLog(run) == Ok(Log(Frames(Numbered(Appended(run))), |Appended(run)| + 1))
  {
    hide Frame, Frames, Replay, Fits, AllFit, OpenLog;
    if run == [] {
      NothingToFit();
      NoFrames();
      OpenNumbered([]);
    } else {
      hide Numbered;
      var init, last := run[..|run| - 1], run[|run| - 1];
      match last
      case Append(op) =>
        NumberedSnoc(Appended(init), op);
        SequenceNumbers(init);
      case Reopen =>
        assert Appended(run) == Appended(init);
        SequenceNumbers(init);
        OpenNumbered(Appended(init));
    }
  }
}
