/** The in-memory table: values by encoded row key, read in key order. */
module MemTable {
  import opened Common
  import opened ByteOrder
  import opened Codec

  type Table = map<seq<byte>, InternalValue>

  datatype Cell = Cell(key: seq<byte>, value: InternalValue)

  predicate InRange(key: seq<byte>, start: Option<seq<byte>>, end: Option<seq<byte>>) {
    (start.Some? ==> !Less(key, start.value)) && (end.Some? ==> Less(key, end.value))
  }

  ghost predicate AscendingKeys(cells: seq<Cell>) {
    forall i, j :: 0 <= i < j < |cells| ==> Less(cells[i].key, cells[j].key)
  }

  /** The cells of a range, each once, in key order. */
  ghost predicate IsScan(t: Table, start: Option<seq<byte>>, end: Option<seq<byte>>, cells: seq<Cell>) {
    && AscendingKeys(cells)
    && forall c :: c in cells <==> c.key in t && t[c.key] == c.value && InRange(c.key, start, end)
  }

  lemma TailCells(a: seq<Cell>, c: Cell)
    requires AscendingKeys(a) && a != []
    ensures c in a[1..] <==> c in a && c != a[0]
  {
    if c in a[1..] {
      var i :| 1 <= i < |a| && a[i] == c;
      LessAsymmetric(a[0].key, a[i].key);
    }
  }

  lemma FirstIsLeast(a: seq<Cell>, b: seq<Cell>)
    requires AscendingKeys(a) && AscendingKeys(b) && a != [] && b != []
    requires forall c :: c in a <==> c in b
    ensures a[0] == b[0]
  {
    assert a[0] in b && b[0] in a;
    var i :| 0 <= i < |b| && b[i] == a[0];
    var j :| 0 <= j < |a| && a[j] == b[0];
    if i > 0 && j > 0 {
      LessAsymmetric(b[0].key, b[i].key);
      assert false;
    }
  }

  lemma {:induction false} SameCells(a: seq<Cell>, b: seq<Cell>)
    requires AscendingKeys(a) && AscendingKeys(b) && forall c :: c in a <==> c in b
    ensures a == b
  {
    assert b != [] ==> b[0] in b;
    if a != [] {
      assert a[0] in b;
      FirstIsLeast(a, b);
      forall c
        ensures c in a[1..] <==> c in b[1..]
      {
        TailCells(a, c);
        TailCells(b, c);
      }
      SameCells(a[1..], b[1..]);
      assert a == [a[0]] + a[1..] && b == [b[0]] + b[1..];
    }
  }

  /** There is only one way to list a range. */
  lemma {:induction false} ScanUnique(t: Table, start: Option<seq<byte>>, end: Option<seq<byte>>,
                                      a: seq<Cell>, b: seq<Cell>)
    requires IsScan(t, start, end, a) && IsScan(t, start, end, b)
    ensures a == b
  {
    SameCells(a, b);
  }

  lemma {:induction false} LeastExists(keys: set<seq<byte>>) returns (k: seq<byte>)
    requires keys != {}
    ensures k in keys && forall x :: x in keys ==> !Less(x, k)
  {
    k :| k in keys;
    if keys == {k} {
      LessIrreflexive(k);
    } else {
      var r := LeastExists(keys - {k});
      if Less(r, k) {
        LessAsymmetric(r, k);
        k := r;
      } else {
        forall x | x in keys
          ensures !Less(x, k)
        {
          if x == k { LessIrreflexive(k); } else { NotGreaterTransitive(k, r, x); }
        }
      }
    }
  }

  class MemTable {
    var data: Table
    var approximateSize: nat
    const maxSize: nat
    /** Size charged for every insertion. */
    const cellSize: nat

    constructor (maxSize: nat, cellSize: nat)
      ensures data == map[] && approximateSize == 0
      ensures this.maxSize == maxSize && this.cellSize == cellSize
    {
      this.maxSize, this.cellSize := maxSize, cellSize;
      data, approximateSize := map[], 0;
    }

    /** The key bytes: table name, delimiter, row id. */
    method BuildKey(key: RowKey) returns (buf: seq<byte>)
      ensures buf == EncodeKey(key)
    {
      buf := key.table;
      buf := buf + [0];
      buf := buf + key.rowId.uuid;
    }

    /** Store a value. A full table still takes it, and says so. */
    method Insert(key: RowKey, value: InternalValue) returns (below: bool)
      modifies this
      ensures data == old(data)[EncodeKey(key) := value]
      ensures approximateSize == old(approximateSize) + cellSize
      ensures below <==> approximateSize <= maxSize
    {
      approximateSize := approximateSize + cellSize;
      var k := BuildKey(key);
      data := data[k := value];
      below := !(approximateSize > maxSize);
    }

    function Get(key: RowKey): (r: Option<InternalValue>)
      reads this
    {
      var k := EncodeKey(key);
      if k in data then Some(data[k]) else None
    }

    /** List a range in key order; a range that ends before it starts is a caller error. */
    method Scan(start: Option<seq<byte>>, end: Option<seq<byte>>) returns (cells: seq<Cell>)
      requires start.Some? && end.Some? ==> !Less(end.value, start.value)
      ensures IsScan(data, start, end, cells)
    {
      cells := [];
      var rest := set k | k in data && InRange(k, start, end);
      ghost var all := rest;
      while rest != {}
        invariant rest <= all && AscendingKeys(cells)
        invariant forall c :: c in cells <==> c.key in all - rest && data[c.key] == c.value
        invariant forall c, k :: c in cells && k in rest ==> Less(c.key, k)
        decreases |rest|
      {
        ghost var least := LeastExists(rest);
        var k :| k in rest && forall x :: x in rest ==> !Less(x, k);
        forall x | x in rest && x != k
          ensures Less(k, x)
        {
          LessTotal(k, x);
        }
        cells, rest := cells + [Cell(k, data[k])], rest - {k};
      }
    }

    /** Hand out everything in key order and start empty. */
    method Drain() returns (cells: seq<Cell>)
      modifies this
      ensures IsScan(old(data), None, None, cells)
      ensures data == map[] && approximateSize == 0
    {
      cells := Scan(None, None);
      data, approximateSize := map[], 0;
    }
  }
}
