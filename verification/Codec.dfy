/** The byte layouts of the storage engine: row keys, stored values and log entries. */
module Codec {
  import opened Common

  const U32: nat := 0x1_0000_0000

  const U64: nat := 0x1_0000_0000_0000_0000

  // ---------------------------------------------------------------- little-endian numbers

  /** The low `width` bytes of n, least significant first. */
  function ToLe(n: nat, width: nat): (r: seq<byte>)
    ensures |r| == width
  {
    if width == 0 then [] else [n % 256] + ToLe(n / 256, width - 1)
  }

  function FromLe(bs: seq<byte>): nat {
    if bs == [] then 0 else bs[0] + 256 * FromLe(bs[1..])
  }

  function Pow256(width: nat): (p: nat)
    ensures p >= 1
  {
    if width == 0 then 1 else 256 * Pow256(width - 1)
  }

  lemma {:induction false} LeRoundTrip(n: nat, width: nat)
    requires n < Pow256(width)
    ensures FromLe(ToLe(n, width)) == n
  {
    if width > 0 {
      LeRoundTrip(n / 256, width - 1);
      assert ToLe(n, width)[1..] == ToLe(n / 256, width - 1);
    }
  }

  lemma ToLeStep(n: nat, width: nat)
    ensures ToLe(n, width + 1) == [n % 256] + ToLe(n / 256, width) && ToLe(n, 0) == []
  {
  }

  lemma Quarters(n: nat)
    ensures n / 0x100 / 256 == n / 0x1_0000 && n / 0x1_0000 / 256 == n / 0x100_0000
    ensures n / 0x100_0000 / 256 == n / 0x1_0000_0000
  {
  }

  /** The four lowest bytes come first, the least significant of them in front. */
  lemma FourBytes(n: nat, more: nat)
    ensures ToLe(n, 4 + more) ==
            [n % 256, n / 0x100 % 256, n / 0x1_0000 % 256, n / 0x100_0000 % 256] + ToLe(n / 0x1_0000_0000, more)
  {
    hide ToLe;
    Quarters(n);
    ToLeStep(n, 3 + more);
    ToLeStep(n / 0x100, 2 + more);
    ToLeStep(n / 0x1_0000, 1 + more);
    ToLeStep(n / 0x100_0000, more);
  }

  lemma Widths()
    ensures Pow256(4) == U32 && Pow256(8) == U64
  {
    assert Pow256(4) == U32;
    assert Pow256(8) == 0x1_0000_0000 * Pow256(4);
  }

  // ---------------------------------------------------------------- parsing

  datatype Parsed<T> = Parsed(value: T, rest: seq<byte>)

  /** A fixed-width number at the front. */
  function TakeLe(bs: seq<byte>, width: nat): Option<Parsed<nat>> {
    if |bs| < width then None else Some(Parsed(FromLe(bs[..width]), bs[width..]))
  }

  /** A byte string prefixed with its length as a u64. */
  function TakeBytes(bs: seq<byte>): Option<Parsed<seq<byte>>> {
    match TakeLe(bs, 8)
    case None => None
    case Some(p) =>
      if |p.rest| < p.value then None else Some(Parsed(p.rest[..p.value], p.rest[p.value..]))
  }

  function TakeId(bs: seq<byte>): Option<Parsed<FabricId>> {
    match TakeBytes(bs)
    case None => None
    case Some(p) => if |p.value| == 16 then Some(Parsed(FabricId(p.value), p.rest)) else None
  }

  function PutBytes(s: seq<byte>): seq<byte> {
    ToLe(|s|, 8) + s
  }

  function PutId(id: FabricId): seq<byte> {
    PutBytes(id.uuid)
  }

  lemma TakeLePut(n: nat, width: nat, rest: seq<byte>)
    requires n < Pow256(width)
    ensures TakeLe(ToLe(n, width) + rest, width) == Some(Parsed(n, rest))
  {
    LeRoundTrip(n, width);
    var bs := ToLe(n, width) + rest;
    assert bs[..width] == ToLe(n, width) && bs[width..] == rest;
  }

  lemma TakeBytesPut(s: seq<byte>, rest: seq<byte>)
    requires |s| < U64
    ensures TakeBytes(PutBytes(s) + rest) == Some(Parsed(s, rest))
  {
    Widths();
    TakeLePut(|s|, 8, s + rest);
    assert PutBytes(s) + rest == ToLe(|s|, 8) + (s + rest);
    assert (s + rest)[..|s|] == s && (s + rest)[|s|..] == rest;
  }

  lemma TakeIdPut(id: FabricId, rest: seq<byte>)
    ensures TakeId(PutId(id) + rest) == Some(Parsed(id, rest))
  {
    TakeBytesPut(id.uuid, rest);
  }

  // ---------------------------------------------------------------- rows and row keys

  /** A row: its id and the serialized remaining fields. */
  datatype PolyRow = PolyRow(id: FabricId, body: seq<byte>)

  datatype InternalValue = Active(row: PolyRow) | Tombstone(rowId: FabricId)

  /** A table name (as UTF-8 bytes) and a row id. */
  datatype RowKey = RowKey(table: seq<byte>, rowId: FabricId)

  function EncodeKey(k: RowKey): seq<byte> {
    k.table + [0] + k.rowId.uuid
  }

  /** No two rows share a key, whatever bytes the table names contain. */
  lemma EncodeKeyInjective(a: RowKey, b: RowKey)
    ensures EncodeKey(a) == EncodeKey(b) <==> a == b
  {
    var x, y := EncodeKey(a), EncodeKey(b);
    assert x[|x| - 16..] == a.rowId.uuid && x[..|x| - 17] == a.table;
    assert y[|y| - 16..] == b.rowId.uuid && y[..|y| - 17] == b.table;
  }

  function EncodeValue(v: InternalValue): seq<byte> {
    match v
    case Active(row) => ToLe(0, 4) + PutId(row.id) + row.body
    case Tombstone(id) => ToLe(1, 4) + PutId(id)
  }

  function DecodeValue(bs: seq<byte>): Option<InternalValue> {
    match TakeLe(bs, 4)
    case None => None
    case Some(tag) =>
      match TakeId(tag.rest)
      case None => None
      case Some(id) =>
        if tag.value == 0 then Some(Active(PolyRow(id.value, id.rest)))
        else if tag.value == 1 then Some(Tombstone(id.value))
        else None
  }

  lemma ValueRoundTrip(v: InternalValue)
    ensures DecodeValue(EncodeValue(v)) == Some(v)
  {
    match v
    case Active(row) =>
      TakeLePut(0, 4, PutId(row.id) + row.body);
      TakeIdPut(row.id, row.body);
      assert EncodeValue(v) == ToLe(0, 4) + (PutId(row.id) + row.body);
    case Tombstone(id) =>
      TakeLePut(1, 4, PutId(id));
      TakeIdPut(id, []);
      assert PutId(id) + [] == PutId(id);
  }

  // ---------------------------------------------------------------- log entries

  datatype WalOp =
    | Insert(table: seq<byte>, rowId: FabricId, data: seq<byte>)
    | Delete(table: seq<byte>, rowId: FabricId)
    | Update(table: seq<byte>, rowId: FabricId, data: seq<byte>)

  datatype WalEntry = WalEntry(seqNo: nat, op: WalOp)

  function OpSize(op: WalOp): nat {
    match op
    case Delete(table, id) => |table| + 36
    case Insert(table, id, data) => |table| + |data| + 44
    case Update(table, id, data) => |table| + |data| + 44
  }

  /** Serialized length of an entry. */
  function EntrySize(e: WalEntry): nat {
    OpSize(e.op) + 8
  }

  function EncodeOp(op: WalOp): (r: seq<byte>)
    ensures |r| == OpSize(op)
  {
    match op
    case Insert(table, id, data) => ToLe(0, 4) + (PutBytes(table) + (PutId(id) + PutBytes(data)))
    case Delete(table, id) => ToLe(1, 4) + (PutBytes(table) + PutId(id))
    case Update(table, id, data) => ToLe(2, 4) + (PutBytes(table) + (PutId(id) + PutBytes(data)))
  }

  function EncodeEntry(e: WalEntry): (r: seq<byte>)
    ensures |r| == EntrySize(e)
  {
    ToLe(e.seqNo, 8) + EncodeOp(e.op)
  }

  function DecodeOp(bs: seq<byte>): Option<WalOp> {
    match TakeLe(bs, 4)
    case None => None
    case Some(tag) =>
      match TakeBytes(tag.rest)
      case None => None
      case Some(table) =>
        match TakeId(table.rest)
        case None => None
        case Some(id) =>
          if tag.value == 1 then Some(Delete(table.value, id.value))
          else if tag.value > 2 then None
          else
            match TakeBytes(id.rest)
            case None => None
            case Some(data) =>
              Some(if tag.value == 0 then Insert(table.value, id.value, data.value)
                   else Update(table.value, id.value, data.value))
  }

  /** Bytes after the entry are ignored. */
  function DecodeEntry(bs: seq<byte>): Option<WalEntry> {
    match TakeLe(bs, 8)
    case None => None
    case Some(n) =>
      match DecodeOp(n.rest)
      case None => None
      case Some(op) => Some(WalEntry(n.value, op))
  }

  lemma DeleteRoundTrip(table: seq<byte>, id: FabricId)
    requires |table| < U64
    ensures DecodeOp(EncodeOp(Delete(table, id))) == Some(Delete(table, id))
  {
    Widths();
    TakeLePut(1, 4, PutBytes(table) + PutId(id));
    TakeBytesPut(table, PutId(id));
    TakeIdPut(id, []);
    assert PutId(id) + [] == PutId(id);
  }

  lemma DataOpRoundTrip(op: WalOp, tag: nat)
    requires !op.Delete? && tag == (if op.Insert? then 0 else 2)
    requires |op.table| < U64 && |op.data| < U64
    ensures DecodeOp(EncodeOp(op)) == Some(op)
  {
    Widths();
    TakeLePut(tag, 4, PutBytes(op.table) + (PutId(op.rowId) + PutBytes(op.data)));
    TakeBytesPut(op.table, PutId(op.rowId) + PutBytes(op.data));
    TakeIdPut(op.rowId, PutBytes(op.data));
    TakeBytesPut(op.data, []);
    assert PutBytes(op.data) + [] == PutBytes(op.data);
  }

  lemma OpRoundTrip(op: WalOp)
    requires OpSize(op) < U64
    ensures DecodeOp(EncodeOp(op)) == Some(op)
  {
    match op
    case Delete(table, id) => DeleteRoundTrip(table, id);
    case Insert(table, id, data) => DataOpRoundTrip(op, 0);
    case Update(table, id, data) => DataOpRoundTrip(op, 2);
  }

  lemma EntryRoundTrip(e: WalEntry)
    requires e.seqNo < U64 && EntrySize(e) < U64
    ensures DecodeEntry(EncodeEntry(e)) == Some(e)
  {
    Widths();
    TakeLePut(e.seqNo, 8, EncodeOp(e.op));
    OpRoundTrip(e.op);
  }

  // ---------------------------------------------------------------- cut-off encodings

  /** Reading a number from the first k bytes of its encoding and what follows. */
  lemma CutLe(n: nat, width: nat, rest: seq<byte>, k: nat)
    requires n < Pow256(width) && k <= width + |rest|
    ensures TakeLe((ToLe(n, width) + rest)[..k], width) ==
            if k < width then None else Some(Parsed(n, rest[..k - width]))
  {
    if k >= width {
      TakeLePut(n, width, rest[..k - width]);
      assert (ToLe(n, width) + rest)[..k] == ToLe(n, width) + rest[..k - width];
    }
  }

  lemma CutBytes(s: seq<byte>, rest: seq<byte>, k: nat)
    requires |s| < U64 && k <= 8 + |s| + |rest|
    ensures TakeBytes((PutBytes(s) + rest)[..k]) ==
            if k < 8 + |s| then None else Some(Parsed(s, rest[..k - 8 - |s|]))
  {
    hide ToLe, FromLe, Pow256;
    Widths();
    assert PutBytes(s) + rest == ToLe(|s|, 8) + (s + rest);
    CutLe(|s|, 8, s + rest, k);
    if k >= 8 + |s| {
      assert (s + rest)[..k - 8] == s + rest[..k - 8 - |s|];
    }
  }

  lemma CutId(id: FabricId, rest: seq<byte>, k: nat)
    requires k <= 24 + |rest|
    ensures TakeId((PutId(id) + rest)[..k]) == if k < 24 then None else Some(Parsed(id, rest[..k - 24]))
  {
    hide PutBytes, TakeBytes;
    CutBytes(id.uuid, rest, k);
  }

  lemma PutLengths(s: seq<byte>, id: FabricId)
    ensures |PutBytes(s)| == 8 + |s| && |PutId(id)| == 24
  {
  }

  lemma NoTag(bs: seq<byte>)
    requires TakeLe(bs, 4) == None
    ensures DecodeOp(bs) == None
  {
  }

  lemma NoTable(bs: seq<byte>, tag: nat, fields: seq<byte>)
    requires TakeLe(bs, 4) == Some(Parsed(tag, fields)) && TakeBytes(fields) == None
    ensures DecodeOp(bs) == None
  {
  }

  /** The tag and the table name are complete, the rest is cut after j bytes. */
  lemma CutRow(op: WalOp, tag: nat, data: seq<byte>, bs: seq<byte>, fields: seq<byte>, j: nat)
    requires OpSize(op) < U64 && 12 + |op.table| + j < OpSize(op) && (tag == 1 <==> op.Delete?)
    requires data == (if op.Delete? then [] else PutBytes(op.data)) && j <= |PutId(op.rowId) + data|
    requires TakeLe(bs, 4) == Some(Parsed(tag, fields))
    requires TakeBytes(fields) == Some(Parsed(op.table, (PutId(op.rowId) + data)[..j]))
    ensures DecodeOp(bs) == None
  {
    PutLengths(op.table, op.rowId);
    if !op.Delete? { PutLengths(op.data, op.rowId); }
    hide ToLe, TakeLe, PutBytes, TakeBytes, PutId, TakeId, Pow256;
    CutId(op.rowId, data, j);
    if j >= 24 {
      CutBytes(op.data, [], j - 24);
      assert data + [] == data;
    }
  }

  lemma CutFields(op: WalOp, tag: nat, data: seq<byte>, k: nat)
    requires OpSize(op) < U64 && k < OpSize(op) && tag < 256 && (tag == 1 <==> op.Delete?)
    requires data == if op.Delete? then [] else PutBytes(op.data)
    ensures DecodeOp((ToLe(tag, 4) + (PutBytes(op.table) + (PutId(op.rowId) + data)))[..k]) == None
  {
    var n, fields := |op.table|, PutBytes(op.table) + (PutId(op.rowId) + data);
    PutLengths(op.table, op.rowId);
    if !op.Delete? { PutLengths(op.data, op.rowId); }
    Widths();
    hide ToLe, TakeLe, PutBytes, TakeBytes, PutId, TakeId, Pow256, DecodeOp;
    CutLe(tag, 4, fields, k);
    if k < 4 {
      NoTag((ToLe(tag, 4) + fields)[..k]);
    } else {
      CutBytes(op.table, PutId(op.rowId) + data, k - 4);
      if k < 12 + n {
        NoTable((ToLe(tag, 4) + fields)[..k], tag, fields[..k - 4]);
      } else {
        CutRow(op, tag, data, (ToLe(tag, 4) + fields)[..k], fields[..k - 4], k - 12 - n);
      }
    }
  }

  /** No proper prefix of an encoded operation decodes to anything. */
  lemma CutOp(op: WalOp, k: nat)
    requires OpSize(op) < U64 && k < OpSize(op)
    ensures DecodeOp(EncodeOp(op)[..k]) == None
  {
    hide PutBytes, PutId, TakeBytes, TakeId, TakeLe, ToLe;
    Widths();
    var tag := match op case Insert(_, _, _) => 0 case Delete(_, _) => 1 case Update(_, _, _) => 2;
    var data := if op.Delete? then [] else PutBytes(op.data);
    var ids := PutId(op.rowId) + data;
    var bs := ToLe(tag, 4) + (PutBytes(op.table) + ids);
    assert EncodeOp(op) == bs by {
      assert PutId(op.rowId) + [] == PutId(op.rowId);
    }
    CutFields(op, tag, data, k);
  }

  /** No proper prefix of an encoded entry decodes to anything. */
  lemma CutEntry(e: WalEntry, k: nat)
    requires e.seqNo < U64 && EntrySize(e) < U64 && k < EntrySize(e)
    ensures DecodeEntry(EncodeEntry(e)[..k]) == None
  {
    hide EncodeOp, DecodeOp, ToLe, TakeLe, OpSize;
    Widths();
    CutLe(e.seqNo, 8, EncodeOp(e.op), k);
    if k >= 8 {
      CutOp(e.op, k - 8);
    }
  }
}
