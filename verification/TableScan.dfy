/** Which rows a table scan returns. */
module TableScan {
  import opened Common
  import opened ByteOrder
  import opened Codec
  import opened MemTable
  import opened Engine

  predicate NulFree(s: seq<byte>) {
    forall i :: 0 <= i < |s| ==> s[i] != 0
  }

  /** The keys in [t 00, t 01) are exactly those that begin with t 00, whatever bytes t contains. */
  lemma {:induction false} RangeIsPrefix(t: seq<byte>, k: seq<byte>)
    ensures InRange(k, Some(t + [0]), Some(t + [1])) <==> t + [0] <= k
  {
    var lo, hi := t + [0], t + [1];
    if t == [] {
      assert lo == [0] && hi == [1];
      assert k != [] ==> !Less(k[1..], lo[1..]) && !Less(k[1..], hi[1..]);
    } else if k != [] && k[0] == t[0] {
      RangeIsPrefix(t[1..], k[1..]);
      assert lo[1..] == t[1..] + [0] && hi[1..] == t[1..] + [1];
      assert k == [t[0]] + k[1..] && lo == [t[0]] + lo[1..];
    }
  }

  /** Key bytes of another table that begin with t 00: the name itself does, or it is a part of t and
      the id continues t. */
  predicate Intrudes(t: seq<byte>, key: RowKey) {
    key.table != t && t + [0] <= EncodeKey(key)
  }

  /** The keys in the range are those of table t and those that intrude. */
  lemma PrefixRange(t: seq<byte>, key: RowKey)
    ensures InRange(EncodeKey(key), Some(t + [0]), Some(t + [1])) <==> key.table == t || Intrudes(t, key)
  {
    RangeIsPrefix(t, EncodeKey(key));
    assert EncodeKey(RowKey(t, key.rowId)) == (t + [0]) + key.rowId.uuid;
  }

  /** A NUL-free name intrudes on no other NUL-free name. */
  lemma NulFreeKeysApart(t: seq<byte>, key: RowKey)
    requires NulFree(t) && NulFree(key.table)
    ensures !Intrudes(t, key)
  {
    var k, n := EncodeKey(key), |key.table|;
    if t + [0] <= k {
      assert forall i :: 0 <= i < |t| ==> k[i] == (t + [0])[i] == t[i];
      assert forall i :: 0 <= i < n ==> k[i] == key.table[i];
      assert k[|t|] == (t + [0])[|t|] == 0 && k[n] == 0;
      assert n == |t|;
      assert key.table == k[..n] == t;
    }
  }

  /** Within a table the key order is the id order. */
  lemma KeysOrderedById(t: seq<byte>, a: FabricId, b: FabricId)
    ensures Less(EncodeKey(RowKey(t, a)), EncodeKey(RowKey(t, b))) <==> Before(a, b)
  {
    LessPrefix(t + [0], a.uuid, b.uuid);
  }

  /** No write of the history has a key of another table in the range of t. */
  ghost predicate Undisturbed(h: seq<Write>, t: seq<byte>) {
    forall w :: w in h ==> !Intrudes(t, KeyOf(w))
  }

  /** In particular when all names are NUL-free. */
  lemma NulFreeUndisturbed(h: seq<Write>, t: seq<byte>)
    requires NulFree(t) && forall w :: w in h ==> NulFree(KeyOf(w).table)
    ensures Undisturbed(h, t)
  {
    forall w | w in h
      ensures !Intrudes(t, KeyOf(w))
    {
      NulFreeKeysApart(t, KeyOf(w));
    }
  }

  /** `rows` are the live rows of table t, in id order. */
  ghost predicate LiveRows(h: seq<Write>, t: seq<byte>, rows: seq<PolyRow>) {
    && (forall i, j :: 0 <= i < j < |rows| ==> Before(rows[i].id, rows[j].id))
    && (forall row: PolyRow :: row in rows <==> LastWrite(h, t, row.id) == Some(row))
  }

  // ---------------------------------------------------------------- collecting rows from cells

  lemma {:induction false} CollectedPrefix(cells: seq<Cell>, n: nat)
    requires n <= |cells|
    ensures Collected(cells[..n]) <= Collected(cells)
  {
    if n < |cells| {
      CollectedPrefix(cells[..|cells| - 1], n);
      assert cells[..|cells| - 1][..n] == cells[..n];
    } else {
      assert cells[..n] == cells;
    }
  }

  /** A collected row is the value of some cell; every active cell has its id collected. */
  lemma {:induction false} CollectedRows(cells: seq<Cell>)
    ensures forall row :: row in Collected(cells) ==> exists c :: c in cells && c.value == Active(row)
    ensures forall c :: c in cells && c.value.Active? ==> c.value.row.id in RowIds(Collected(cells))
  {
    if cells != [] {
      var init, last := cells[..|cells| - 1], cells[|cells| - 1];
      CollectedRows(init);
      assert cells == init + [last];
      forall row | row in Collected(cells)
        ensures exists c :: c in cells && c.value == Active(row)
      {
        if row in Collected(init) {
          var c :| c in init && c.value == Active(row);
          assert c in cells;
        } else {
          assert last in cells;
        }
      }
    }
  }

  lemma {:induction false} CollectedIdsDiffer(cells: seq<Cell>)
    ensures forall i, j :: 0 <= i < j < |Collected(cells)| ==> Collected(cells)[i].id != Collected(cells)[j].id
  {
    if cells != [] { CollectedIdsDiffer(cells[..|cells| - 1]); }
  }

  lemma NotBeforeItself(id: FabricId)
    ensures !Before(id, id)
  {
    LessIrreflexive(id.uuid);
  }

  /** Cells of one table keep their order when collected. */
  lemma {:induction false} CollectedAscends(t: seq<byte>, cells: seq<Cell>)
    requires AscendingKeys(cells)
    requires forall c :: c in cells && c.value.Active? ==> c.key == EncodeKey(RowKey(t, c.value.row.id))
    ensures forall i, j :: 0 <= i < j < |Collected(cells)| ==> Before(Collected(cells)[i].id, Collected(cells)[j].id)
    ensures forall c, row :: c in cells && c.value == Active(row) ==> row in Collected(cells)
  {
    hide EncodeKey, Less, Before;
    if cells != [] {
      var init, last := cells[..|cells| - 1], cells[|cells| - 1];
      assert cells == init + [last];
      CollectedAscends(t, init);
      CollectedRows(init);
      if last.value.Active? {
        forall row | row in Collected(init)
          ensures Before(row.id, last.value.row.id)
        {
          var c :| c in init && c.value == Active(row);
          var i :| 0 <= i < |init| && init[i] == c;
          assert cells[i] == c && Less(c.key, last.key);
          KeysOrderedById(t, row.id, last.value.row.id);
        }
        NotBeforeItself(last.value.row.id);
      }
    }
  }

  // ---------------------------------------------------------------- a scan bounded to one table

  /** What a cell of the table says about the history. */
  lemma CellMeaning(h: seq<Write>, t: seq<byte>, c: Cell) returns (key: RowKey)
    requires Undisturbed(h, t) && c.key in Applied(h) && Applied(h)[c.key] == c.value
    ensures !Intrudes(t, key) && c.key == EncodeKey(key)
    ensures c.value.Active? ==> c.value.row.id == key.rowId
    ensures LastWrite(h, key.table, key.rowId) == Materialize(c.value)
  {
    hide EncodeKey;
    CellsAreRows(h, c.key);
    var w: Write :| w in h && c.key == EncodeKey(KeyOf(w)) && Applied(h)[c.key] == ValueOf(w);
    key := KeyOf(w);
    LookupIsLastWrite(h, key.table, key.rowId);
  }

  lemma {:induction false} LastWriteHasId(h: seq<Write>, t: seq<byte>, id: FabricId)
    ensures LastWrite(h, t, id).Some? ==> LastWrite(h, t, id).value.id == id
  {
    if h != [] { LastWriteHasId(h[..|h| - 1], t, id); }
  }

  /** With the upper bound t 01, a scan returns exactly the live rows of t, in id order. */
  lemma BoundedScan(h: seq<Write>, t: seq<byte>, own: seq<Cell>)
    requires Undisturbed(h, t)
    requires IsScan(Applied(h), Some(t + [0]), Some(t + [1]), own)
    ensures LiveRows(h, t, Collected(own))
  {
    hide EncodeKey, Applied;
    CollectedRows(own);
    forall c | c in own && c.value.Active?
      ensures c.key == EncodeKey(RowKey(t, c.value.row.id)) && LastWrite(h, t, c.value.row.id) == Some(c.value.row)
    {
      var key := CellMeaning(h, t, c);
      PrefixRange(t, key);
    }
    CollectedAscends(t, own);
    forall row: PolyRow | LastWrite(h, t, row.id) == Some(row)
      ensures row in Collected(own)
    {
      var key := RowKey(t, row.id);
      LookupIsLastWrite(h, t, row.id);
      PrefixRange(t, key);
      assert Cell(EncodeKey(key), Active(row)) in own;
    }
  }

  /** Only the given tables are written. */
  ghost predicate WritesTo(h: seq<Write>, tables: set<seq<byte>>) {
    forall w :: w in h ==> KeyOf(w).table in tables
  }

  /** Whatever is written to the given tables, the bounded scan of t is exact. */
  ghost predicate BoundSeparates(t: seq<byte>, tables: set<seq<byte>>) {
    forall h, own ::
      WritesTo(h, tables) && IsScan(Applied(h), Some(t + [0]), Some(t + [1]), own) ==> LiveRows(h, t, Collected(own))
  }

  /** A single row of another table whose key lies in the range is returned as a row of t. */
  lemma StrangerReturned(t: seq<byte>, end: Option<seq<byte>>, table: seq<byte>, row: PolyRow)
    requires table != t && InRange(EncodeKey(RowKey(table, row.id)), Some(t + [0]), end)
    ensures var h, cells := [Put(table, row)], [Cell(EncodeKey(RowKey(table, row.id)), Active(row))];
            IsScan(Applied(h), Some(t + [0]), end, cells) && !LiveRows(h, t, Collected(cells))
  {
    hide EncodeKey, InRange;
    var key := RowKey(table, row.id);
    var h, cells := [Put(table, row)], [Cell(EncodeKey(key), Active(row))];
    assert h[..0] == [] && Applied(h) == map[][EncodeKey(key) := Active(row)];
    assert cells[..0] == [] && Collected(cells) == [row];
    assert row in Collected(cells) && LastWrite(h, t, row.id) == None;
  }

  /** The bound t 01 keeps the given tables out of a scan of t exactly when none of their keys
      begins with t 00, as NUL-free names ensure. */
  lemma BoundSeparatesIff(t: seq<byte>, tables: set<seq<byte>>)
    ensures BoundSeparates(t, tables) <==> forall u, id :: u in tables ==> !Intrudes(t, RowKey(u, id))
  {
    if u, id :| u in tables && Intrudes(t, RowKey(u, id)) {
      var row := PolyRow(id, []);
      PrefixRange(t, RowKey(u, id));
      StrangerReturned(t, Some(t + [1]), u, row);
      assert WritesTo([Put(u, row)], tables);
    } else {
      forall h, own | WritesTo(h, tables) && IsScan(Applied(h), Some(t + [0]), Some(t + [1]), own)
        ensures LiveRows(h, t, Collected(own))
      {
        assert forall w :: w in h ==> KeyOf(w) == RowKey(KeyOf(w).table, KeyOf(w).rowId);
        assert Undisturbed(h, t);
        BoundedScan(h, t, own);
      }
    }
  }

  // ---------------------------------------------------------------- the scan without an upper bound

  /** The cells of table t at the front of a scan. */
  function OwnCells(cells: seq<Cell>, t: seq<byte>): (n: nat)
    ensures n <= |cells|
    ensures forall i :: 0 <= i < n ==> Less(cells[i].key, t + [1])
    ensures n < |cells| ==> !Less(cells[n].key, t + [1])
  {
    if cells == [] then 0
    else
      var init := cells[..|cells| - 1];
      var n := OwnCells(init, t);
      if n == |init| && Less(cells[|init|].key, t + [1]) then n + 1 else n
  }

  lemma CellsAfterOwn(cells: seq<Cell>, t: seq<byte>, i: nat)
    requires AscendingKeys(cells) && OwnCells(cells, t) <= i < |cells|
    ensures !Less(cells[i].key, t + [1])
  {
    var n := OwnCells(cells, t);
    if i > n && Less(cells[i].key, t + [1]) {
      LessTransitive(cells[n].key, cells[i].key, t + [1]);
      assert false;
    }
  }

  lemma OwnCellsAreBounded(data: Table, t: seq<byte>, cells: seq<Cell>)
    requires IsScan(data, Some(t + [0]), None, cells)
    ensures IsScan(data, Some(t + [0]), Some(t + [1]), cells[..OwnCells(cells, t)])
  {
    var n := OwnCells(cells, t);
    forall c
      ensures c in cells[..n] <==> c in cells && Less(c.key, t + [1])
    {
      if c in cells && Less(c.key, t + [1]) {
        var i :| 0 <= i < |cells| && cells[i] == c;
        if i >= n { CellsAfterOwn(cells, t, i); }
        assert cells[..n][i] == c;
      }
    }
  }

  /** The scan begins with exactly the live rows of the table, in id order. */
  lemma ScanBeginsWithTable(h: seq<Write>, t: seq<byte>, cells: seq<Cell>)
    requires Undisturbed(h, t) && IsScan(Applied(h), Some(t + [0]), None, cells)
    ensures LiveRows(h, t, Collected(cells[..OwnCells(cells, t)]))
    ensures Collected(cells[..OwnCells(cells, t)]) <= Collected(cells)
  {
    OwnCellsAreBounded(Applied(h), t, cells);
    BoundedScan(h, t, cells[..OwnCells(cells, t)]);
    CollectedPrefix(cells, OwnCells(cells, t));
  }

  /** Row `id` is live in table u, whose key lies after all keys of t. */
  ghost predicate LiveLater(h: seq<Write>, t: seq<byte>, u: seq<byte>, id: FabricId) {
    u != t && !Less(EncodeKey(RowKey(u, id)), t + [1]) && LastWrite(h, u, id).Some?
  }

  /** Behind the rows of t come live rows of later tables whose ids are not live in t. */
  lemma ScanContinuesWithOthers(h: seq<Write>, t: seq<byte>, cells: seq<Cell>, j: nat) returns (u: seq<byte>)
    requires Undisturbed(h, t) && IsScan(Applied(h), Some(t + [0]), None, cells)
    requires |Collected(cells[..OwnCells(cells, t)])| <= j < |Collected(cells)|
    ensures LastWrite(h, t, Collected(cells)[j].id) == None
    ensures LiveLater(h, t, u, Collected(cells)[j].id)
    ensures LastWrite(h, u, Collected(cells)[j].id) == Some(Collected(cells)[j])
  {
    hide EncodeKey, Applied;
    var own, all := Collected(cells[..OwnCells(cells, t)]), Collected(cells);
    var row := all[j];
    ScanBeginsWithTable(h, t, cells);
    CollectedIdsDiffer(cells);
    LastWriteHasId(h, t, row.id);
    assert forall i :: 0 <= i < |own| ==> own[i] == all[i] && own[i].id != row.id;
    CollectedRows(cells);
    var c :| c in cells && c.value == Active(row);
    var key := CellMeaning(h, t, c);
    u := key.table;
    PrefixRange(t, key);
  }

  lemma LaterRowCollected(h: seq<Write>, t: seq<byte>, cells: seq<Cell>, u: seq<byte>, id: FabricId)
    requires IsScan(Applied(h), Some(t + [0]), None, cells) && LiveLater(h, t, u, id)
    ensures id in RowIds(Collected(cells))
  {
    hide EncodeKey, Applied;
    var key := EncodeKey(RowKey(u, id));
    LookupIsLastWrite(h, u, id);
    LastWriteHasId(h, u, id);
    LessPrefix(t, [0], [1]);
    if Less(key, t + [0]) { LessTransitive(key, t + [0], t + [1]); }
    assert Cell(key, Applied(h)[key]) in cells;
    CollectedRows(cells);
  }

  /** The scan returns the rows of t and no others exactly when every id that is live in a
      later table is also live in t. */
  lemma ScanExactIff(h: seq<Write>, t: seq<byte>, cells: seq<Cell>)
    requires Undisturbed(h, t) && IsScan(Applied(h), Some(t + [0]), None, cells)
    ensures LiveRows(h, t, Collected(cells))
            <==> forall u, id :: LiveLater(h, t, u, id) ==> LastWrite(h, t, id).Some?
  {
    hide EncodeKey, Applied;
    var own, all := Collected(cells[..OwnCells(cells, t)]), Collected(cells);
    ScanBeginsWithTable(h, t, cells);
    if |own| < |all| {
      var u := ScanContinuesWithOthers(h, t, cells, |own|);
      assert LiveLater(h, t, u, all[|own|].id) && LastWrite(h, t, all[|own|].id).None?;
      assert all[|own|] in all;
    } else {
      assert own == all;
      forall u, id | LiveLater(h, t, u, id)
        ensures LastWrite(h, t, id).Some?
      {
        LaterRowCollected(h, t, cells, u, id);
        var row :| row in all && row.id == id;
        assert LastWrite(h, t, row.id) == Some(row);
      }
    }
  }

  /** Whatever is written to the given tables, the scan of t is exact. */
  ghost predicate ScanSeparates(t: seq<byte>, tables: set<seq<byte>>) {
    forall h, cells ::
      WritesTo(h, tables) && IsScan(Applied(h), Some(t + [0]), None, cells) ==> LiveRows(h, t, Collected(cells))
  }

  lemma OthersBefore(h: seq<Write>, t: seq<byte>, tables: set<seq<byte>>)
    requires WritesTo(h, tables)
    requires forall u, id :: u in tables && u != t ==> Less(EncodeKey(RowKey(u, id)), t + [0])
    ensures Undisturbed(h, t) && forall u, id :: !LiveLater(h, t, u, id)
  {
    hide EncodeKey;
    forall w | w in h
      ensures !Intrudes(t, KeyOf(w))
    {
      RangeIsPrefix(t, EncodeKey(KeyOf(w)));
      assert KeyOf(w) == RowKey(KeyOf(w).table, KeyOf(w).rowId);
    }
    forall u, id
      ensures !LiveLater(h, t, u, id)
    {
      LastWriteOfConcat([], h, u, id);
      LessPrefix(t, [0], [1]);
      if Less(EncodeKey(RowKey(u, id)), t + [0]) {
        LessTransitive(EncodeKey(RowKey(u, id)), t + [0], t + [1]);
      }
    }
  }

  /** Over all histories the scan of t, which has no upper bound, is exact exactly when t is the last of
      the tables in key order. */
  lemma ScanSeparatesIff(t: seq<byte>, tables: set<seq<byte>>)
    ensures ScanSeparates(t, tables) <==>
            forall u, id :: u in tables && u != t ==> Less(EncodeKey(RowKey(u, id)), t + [0])
  {
    hide EncodeKey, Applied, LiveRows;
    if u, id :| u in tables && u != t && !Less(EncodeKey(RowKey(u, id)), t + [0]) {
      var row := PolyRow(id, []);
      StrangerReturned(t, None, u, row);
      assert WritesTo([Put(u, row)], tables);
    } else {
      forall h, cells | WritesTo(h, tables) && IsScan(Applied(h), Some(t + [0]), None, cells)
        ensures LiveRows(h, t, Collected(cells))
      {
        OthersBefore(h, t, tables);
        ScanExactIff(h, t, cells);
      }
    }
  }
}
