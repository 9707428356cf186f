/** The storage engine of one node: log first, then apply to the memory table. */
module Engine {
  import opened Common
  import opened Codec
  import opened Wal
  import opened MemTable

  // ---------------------------------------------------------------- writes and their meaning

  datatype Write = Put(table: seq<byte>, row: PolyRow) | Del(table: seq<byte>, id: FabricId)

  function KeyOf(w: Write): RowKey {
    match w
    case Put(t, row) => RowKey(t, row.id)
    case Del(t, id) => RowKey(t, id)
  }

  function ValueOf(w: Write): InternalValue {
    match w
    case Put(_, row) => Active(row)
    case Del(_, id) => Tombstone(id)
  }

  function OpOf(w: Write): WalOp {
    match w
    case Put(t, row) => Insert(t, row.id, EncodeValue(Active(row)))
    case Del(t, id) => Delete(t, id)
  }

  /** The table after a history of writes. */
  function Applied(h: seq<Write>): Table {
    if h == [] then map[]
    else Applied(h[..|h| - 1])[EncodeKey(KeyOf(h[|h| - 1])) := ValueOf(h[|h| - 1])]
  }

  /** The row that the last write to (table, id) left, if any. */
  function LastWrite(h: seq<Write>, table: seq<byte>, id: FabricId): Option<PolyRow> {
    if h == [] then None
    else
      var w := h[|h| - 1];
      if KeyOf(w) != RowKey(table, id) then LastWrite(h[..|h| - 1], table, id)
      else if w.Put? then Some(w.row) else None
  }

  /** The write inserts or deletes the row with this id in this table. */
  predicate Concerns(w: Write, table: seq<byte>, id: FabricId) {
    match w
    case Put(t, row) => t == table && row.id == id
    case Del(t, x) => t == table && x == id
  }

  /** Write i put the row, and no later write concerns it. */
  ghost predicate LeftBy(h: seq<Write>, i: nat, table: seq<byte>, row: PolyRow) {
    i < |h| && h[i] == Put(table, row) && forall j :: i < j < |h| ==> !Concerns(h[j], table, row.id)
  }

  lemma LeftEarlier(h: seq<Write>, i: nat, w: Write, table: seq<byte>, row: PolyRow)
    requires i < |h|
    ensures LeftBy(h + [w], i, table, row) <==> LeftBy(h, i, table, row) && !Concerns(w, table, row.id)
  {
    assert forall j :: 0 <= j < |h| ==> (h + [w])[j] == h[j];
    assert (h + [w])[|h|] == w;
  }

  /** A row is found exactly when some write put it and no later write concerns it. */
  lemma {:induction false} LastWriteIff(h: seq<Write>, table: seq<byte>, row: PolyRow)
    ensures LastWrite(h, table, row.id) == Some(row) <==> exists i: nat :: LeftBy(h, i, table, row)
    ensures forall id :: LastWrite(h, table, id).Some? ==> LastWrite(h, table, id).value.id == id
  {
    if h != [] {
      var n := |h| - 1;
      assert h == h[..n] + [h[n]];
      LastWriteIff(h[..n], table, row);
      if i: nat :| LeftBy(h[..n], i, table, row) && !Concerns(h[n], table, row.id) {
        LeftEarlier(h[..n], i, h[n], table, row);
        assert LeftBy(h, i, table, row);
      }
      if i: nat :| LeftBy(h, i, table, row) && i < n {
        LeftEarlier(h[..n], i, h[n], table, row);
      }
      assert LeftBy(h, n, table, row) <==> h[n] == Put(table, row);
    }
  }

  function Materialize(v: InternalValue): Option<PolyRow> {
    match v
    case Active(row) => Some(row)
    case Tombstone(_) => None
  }

  function Lookup(t: Table, key: RowKey): Option<PolyRow> {
    if EncodeKey(key) in t then Materialize(t[EncodeKey(key)]) else None
  }

  /** Reading the table gives the last write, because no two rows share a key. */
  lemma {:induction false} LookupIsLastWrite(h: seq<Write>, table: seq<byte>, id: FabricId)
    ensures Lookup(Applied(h), RowKey(table, id)) == LastWrite(h, table, id)
  {
    hide EncodeKey;
    if h != [] {
      LookupIsLastWrite(h[..|h| - 1], table, id);
      EncodeKeyInjective(KeyOf(h[|h| - 1]), RowKey(table, id));
    }
  }

  /** Every cell of the table belongs to the row its value names. */
  lemma {:induction false} CellsAreRows(h: seq<Write>, k: seq<byte>)
    requires k in Applied(h)
    ensures exists w: Write :: w in h && k == EncodeKey(KeyOf(w)) && Applied(h)[k] == ValueOf(w)
  {
    hide EncodeKey;
    var n := |h| - 1;
    if k != EncodeKey(KeyOf(h[n])) {
      CellsAreRows(h[..n], k);
      var w :| w in h[..n] && k == EncodeKey(KeyOf(w)) && Applied(h[..n])[k] == ValueOf(w);
      assert w in h;
    }
  }

  // ---------------------------------------------------------------- the log tells the same story

  function ApplyOp(t: Table, op: WalOp): Table {
    match op
    case Delete(table, id) => t[EncodeKey(RowKey(table, id)) := Tombstone(id)]
    case _ =>
      match DecodeValue(op.data)
      case Some(v) => t[EncodeKey(RowKey(op.table, op.rowId)) := v]
      case None => t
  }

  /** The table that a replayed log describes. */
  function FoldLog(es: seq<WalEntry>): Table {
    if es == [] then map[] else ApplyOp(FoldLog(es[..|es| - 1]), es[|es| - 1].op)
  }

  /** What the writes append to the log, numbered from `first`. */
  function Logged(first: nat, h: seq<Write>): seq<WalEntry> {
    seq(|h|, i requires 0 <= i < |h| => WalEntry(first + i, OpOf(h[i])))
  }

  lemma LoggedSnoc(first: nat, h: seq<Write>, w: Write)
    ensures Logged(first, h + [w]) == Logged(first, h) + [WalEntry(first + |h|, OpOf(w))]
    ensures Frames(Logged(first, h + [w])) == Frames(Logged(first, h)) + Frame(WalEntry(first + |h|, OpOf(w)))
  {
    hide Frame, OpOf;
    var es := Logged(first, h + [w]);
    assert es == Logged(first, h) + [WalEntry(first + |h|, OpOf(w))];
    assert es[..|h|] == Logged(first, h);
  }

  lemma {:induction false} FoldIsApplied(first: nat, h: seq<Write>)
    ensures FoldLog(Logged(first, h)) == Applied(h)
  {
    hide EncodeKey, EncodeValue, DecodeValue;
    if h != [] {
      var init, w := h[..|h| - 1], h[|h| - 1];
      assert h == init + [w];
      FoldIsApplied(first, init);
      LoggedSnoc(first, init, w);
      assert Logged(first, h)[..|init|] == Logged(first, init);
      if w.Put? { ValueRoundTrip(Active(w.row)); }
    }
  }

  /** Replaying the log of a fresh engine and applying the entries gives the memory table. */
  lemma ReplayRebuildsTable(h: seq<Write>)
    requires AllFit(Logged(1, h))
    ensures Replay(Frames(Logged(1, h))) == Ok(Logged(1, h))
    ensures FoldLog(Logged(1, h)) == Applied(h)
  {
    ReplayWhole(Logged(1, h));
    FoldIsApplied(1, h);
  }

  /** g wrote or deleted the row. */
  ghost predicate Touched(g: seq<Write>, table: seq<byte>, id: FabricId) {
    exists w :: w in g && KeyOf(w) == RowKey(table, id)
  }

  /** The later history decides, unless it does not touch the row. */
  lemma {:induction false} LastWriteOfConcat(h: seq<Write>, g: seq<Write>, table: seq<byte>, id: FabricId)
    ensures LastWrite(h + g, table, id) ==
            if Touched(g, table, id) then LastWrite(g, table, id) else LastWrite(h, table, id)
    ensures !Touched(g, table, id) ==> LastWrite(g, table, id) == None
  {
    if g == [] {
      assert h + g == h;
    } else {
      var init, last := g[..|g| - 1], g[|g| - 1];
      LastWriteOfConcat(h, init, table, id);
      assert (h + g)[..|h + g| - 1] == h + init;
      assert g == init + [last];
      assert Touched(g, table, id) <==> Touched(init, table, id) || KeyOf(last) == RowKey(table, id);
    }
  }

  /** Reopening over the log of h continues its numbers with an empty table, while folding the
      log would give every last row back. */
  lemma ReopenKeepsNumbers(h: seq<Write>, table: seq<byte>, id: FabricId)
    requires AllFit(Logged(1, h))
    ensures OpenLog(Frames(Logged(1, h))) == Ok(Log(Frames(Logged(1, h)), |h| + 1))
    ensures Lookup(FoldLog(Logged(1, h)), RowKey(table, id)) == LastWrite(h, table, id)
  {
    hide EncodeKey, Frame, Frames, Replay, FoldLog, Applied, Lookup, LastWrite, AllFit;
    ReplayRebuildsTable(h);
    LookupIsLastWrite(h, table, id);
  }

  /** With writes h before reopening and g after it, a read (which sees g only) gives the last
      write of all exactly when g touched the row or h left none. */
  lemma ReadSurvivesReopenIff(h: seq<Write>, g: seq<Write>, table: seq<byte>, id: FabricId)
    ensures LastWrite(g, table, id) == LastWrite(h + g, table, id) <==>
            Touched(g, table, id) || LastWrite(h, table, id) == None
  {
    LastWriteOfConcat(h, g, table, id);
  }

  // ---------------------------------------------------------------- the engine

  function RowIds(rows: seq<PolyRow>): set<FabricId> {
    set row | row in rows :: row.id
  }

  /** The active rows among the cells, the first for each id. */
  function Collected(cells: seq<Cell>): seq<PolyRow> {
    if cells == [] then []
    else
      var rows := Collected(cells[..|cells| - 1]);
      var row := Materialize(cells[|cells| - 1].value);
      if row.Some? && row.value.id !in RowIds(rows) then rows + [row.value] else rows
  }

  lemma CollectedNext(cells: seq<Cell>, i: nat)
    requires i < |cells|
    ensures var rows, row := Collected(cells[..i]), Materialize(cells[i].value);
            Collected(cells[..i + 1]) ==
            if row.Some? && row.value.id !in RowIds(rows) then rows + [row.value] else rows
  {
    assert cells[..i + 1][..i] == cells[..i];
  }

  lemma RowIdsSnoc(rows: seq<PolyRow>, row: PolyRow)
    ensures RowIds(rows + [row]) == RowIds(rows) + {row.id}
  {
    assert row in rows + [row];
  }

  class StorageEngine {
    const wal: WriteAheadLog
    const active: MemTable
    var sequence: nat
    /** The log file found when the engine was opened, and the first number it assigned. */
    ghost const initialFile: seq<byte>
    ghost const first: nat
    /** The writes since then. */
    ghost var history: seq<Write>

    ghost predicate Valid()
      reads this, wal, active
    {
      && wal.file == initialFile + Frames(Logged(first, history))
      && wal.nextSeq == first + |history| && first >= 1
      && sequence == wal.nextSeq - 1
      && active.data == Applied(history)
    }

    constructor (wal: WriteAheadLog, maxSize: nat, cellSize: nat)
      requires wal.nextSeq >= 1
      ensures Valid() && history == [] && this.wal == wal && fresh(active)
      ensures initialFile == wal.file && first == wal.nextSeq
    {
      this.wal := wal;
      active := new MemTable(maxSize, cellSize);
      sequence := wal.nextSeq - 1;
      initialFile, first, history := wal.file, wal.nextSeq, [];
      new;
      assert Logged(first, history) == [];
    }

    /** Only the sequence number is recovered: the memory table starts empty. */
    static method Open(file: seq<byte>, maxSize: nat, cellSize: nat) returns (r: Result<StorageEngine, WalError>)
      ensures match OpenLog(file)
              case Ok(l) =>
                && r.Ok? && fresh(r.value) && fresh(r.value.wal) && fresh(r.value.active)
                && r.value.Valid() && r.value.history == []
                && r.value.initialFile == file && r.value.first == l.nextSeq
              case Err(e) => r == Err(e)
    {
      var w := WriteAheadLog.Open(file);
      match w {
        case Err(e) => return Err(e);
        case Ok(wal) =>
          var engine := new StorageEngine(wal, maxSize, cellSize);
          return Ok(engine);
      }
    }

    method Insert(table: seq<byte>, row: PolyRow) returns (id: FabricId)
      requires Valid() && wal.nextSeq + 1 < U64
      modifies this, wal, active
      ensures Valid() && history == old(history) + [Put(table, row)] && id == row.id
    {
      hide EncodeKey, EncodeValue, Frame;
      LoggedSnoc(first, history, Put(table, row));
      var data := EncodeValue(Active(row));
      var seqNo := wal.Append(WalOp.Insert(table, row.id, data));
      var below := active.Insert(RowKey(table, row.id), Active(row));
      sequence := seqNo;
      history := history + [Put(table, row)];
      assert history[..|history| - 1] == old(history);
      id := row.id;
    }

    method Delete(table: seq<byte>, id: FabricId) returns (done: bool)
      requires Valid() && wal.nextSeq + 1 < U64
      modifies this, wal, active
      ensures Valid() && history == old(history) + [Del(table, id)] && done
    {
      hide EncodeKey, Frame;
      LoggedSnoc(first, history, Del(table, id));
      var seqNo := wal.Append(WalOp.Delete(table, id));
      var below := active.Insert(RowKey(table, id), Tombstone(id));
      sequence := seqNo;
      history := history + [Del(table, id)];
      assert history[..|history| - 1] == old(history);
      done := true;
    }

    /** The row that the last write since opening left. */
    method Get(table: seq<byte>, id: FabricId) returns (r: Option<PolyRow>)
      requires Valid()
      ensures r == LastWrite(history, table, id)
    {
      LookupIsLastWrite(history, table, id);
      var v := active.Get(RowKey(table, id));
      if v.Some? { return Materialize(v.value); }
      return None;
    }

    /** Rows from the table's first key on, one for each row id. The range has no upper end. */
    method ScanTable(table: seq<byte>) returns (results: seq<PolyRow>)
      requires Valid()
      ensures exists cells :: IsScan(Applied(history), Some(table + [0]), None, cells) && results == Collected(cells)
    {
      var scanned := active.Scan(Some(table + [0]), None);
      hide IsScan, Applied;
      results := [];
      var seen: set<FabricId> := {};
      for i := 0 to |scanned|
        invariant results == Collected(scanned[..i]) && seen == RowIds(results)
      {
        CollectedNext(scanned, i);
        hide Collected, RowIds, Materialize;
        var row := Materialize(scanned[i].value);
        if row.Some? && row.value.id !in seen {
          RowIdsSnoc(results, row.value);
          seen, results := seen + {row.value.id}, results + [row.value];
        }
      }
      assert scanned[..|scanned|] == scanned;
    }
  }
}
