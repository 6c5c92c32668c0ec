/**
  A scraped film record is a Python dict: an ordered field -> cell mapping. The data processor
  first turns the list of dicts into a pandas DataFrame, whose columns are every field in order
  of first appearance and whose rows hold NaN where a record lacks a field; a frame row is
  modelled as a record over exactly those columns.
*/
module Records {
  import opened Wrappers
  import opened Text

  /** A cell: text, an integer, or missing (None / NaN). */
  datatype Cell = Str(s: string) | Int(n: int) | Missing

  type Record = seq<(string, Cell)>

  function Keys(rec: Record): seq<string> {
    seq(|rec|, i requires 0 <= i < |rec| => rec[i].0)
  }

  /** row.values, in column order. */
  function Values(rec: Record): seq<Cell> {
    seq(|rec|, i requires 0 <= i < |rec| => rec[i].1)
  }

  predicate DistinctKeys(rec: Record) {
    forall i, j :: 0 <= i < j < |rec| ==> rec[i].0 != rec[j].0
  }

  /** rec.get(key) */
  function Get(rec: Record, key: string): Option<Cell> {
    if |rec| == 0 then None
    else if rec[0].0 == key then Some(rec[0].1)
    else Get(rec[1..], key)
  }

  /** A key is found exactly when some field has it, and what is found is that field's value. */
  lemma {:induction false} GetFound(rec: Record, key: string)
    ensures Get(rec, key).Some? <==> key in Keys(rec)
    ensures Get(rec, key).Some? ==> exists i :: 0 <= i < |rec| && rec[i] == (key, Get(rec, key).value)
  {
    if |rec| > 0 {
      assert Keys(rec) == [rec[0].0] + Keys(rec[1..]);
      if rec[0].0 != key {
        GetFound(rec[1..], key);
        if Get(rec, key).Some? {
          var i :| 0 <= i < |rec[1..]| && rec[1..][i] == (key, Get(rec, key).value);
          assert rec[i + 1] == (key, Get(rec, key).value);
        }
      }
    }
  }

  /** row[key] of a frame row: NaN where the field is absent. */
  function CellAt(rec: Record, key: string): Cell {
    match Get(rec, key)
    case Some(c) => c
    case None => Missing
  }

  /** rec[key] = value: an existing field keeps its position and takes the new value; a new one goes last. */
  function Put(rec: Record, key: string, value: Cell): (r: Record)
    ensures key in Keys(rec) ==> Keys(r) == Keys(rec)
    ensures key !in Keys(rec) ==> Keys(r) == Keys(rec) + [key]
  {
    if |rec| == 0 then [(key, value)]
    else if rec[0].0 == key then
      var r := [(key, value)] + rec[1..];
      assert Keys(rec)[0] == key;
      assert Keys(r) == Keys(rec);
      r
    else
      var tail := Put(rec[1..], key, value);
      var r := [rec[0]] + tail;
      assert Keys(rec) == [rec[0].0] + Keys(rec[1..]);
      assert Keys(r) == [rec[0].0] + Keys(tail);
      r
  }

  /** After rec[key] = value, the key reads back as value and every other key as before. */
  lemma {:induction false} GetPut(rec: Record, key: string, value: Cell, other: string)
    ensures Get(Put(rec, key, value), key) == Some(value)
    ensures other != key ==> Get(Put(rec, key, value), other) == Get(rec, other)
  {
    if |rec| > 0 && rec[0].0 != key {
      GetPut(rec[1..], key, value, other);
      assert Put(rec, key, value)[1..] == Put(rec[1..], key, value);
    } else if |rec| > 0 {
      assert Put(rec, key, value)[1..] == rec[1..];
    }
  }

  /** Assignment never creates a duplicate field. */
  lemma PutDistinct(rec: Record, key: string, value: Cell)
    requires DistinctKeys(rec)
    ensures DistinctKeys(Put(rec, key, value))
  {
    var r := Put(rec, key, value);
    assert forall i :: 0 <= i < |r| ==> Keys(r)[i] == r[i].0;
    assert forall i :: 0 <= i < |rec| ==> Keys(rec)[i] == rec[i].0;
  }

  /** The assignments rec[k] = v of `writes`, made in order. */
  function PutAll(rec: Record, writes: seq<(string, Cell)>): Record {
    if |writes| == 0 then rec
    else Put(PutAll(rec, writes[..|writes| - 1]), writes[|writes| - 1].0, writes[|writes| - 1].1)
  }

  /** The value the last write of `key` stores, or `initial` when no write names it. */
  function LastValue(writes: seq<(string, Cell)>, key: string, initial: Option<Cell>): Option<Cell> {
    if |writes| == 0 then initial
    else if writes[|writes| - 1].0 == key then Some(writes[|writes| - 1].1)
    else LastValue(writes[..|writes| - 1], key, initial)
  }

  lemma {:induction false} GetPutAll(rec: Record, writes: seq<(string, Cell)>, key: string)
    ensures Get(PutAll(rec, writes), key) == LastValue(writes, key, Get(rec, key))
  {
    if |writes| > 0 {
      var n := |writes| - 1;
      GetPutAll(rec, writes[..n], key);
      GetPut(PutAll(rec, writes[..n]), writes[n].0, writes[n].1, key);
    }
  }

  lemma {:induction false} LastValueUnwritten(writes: seq<(string, Cell)>, key: string, initial: Option<Cell>)
    requires forall i :: 0 <= i < |writes| ==> writes[i].0 != key
    ensures LastValue(writes, key, initial) == initial
  {
    if |writes| > 0 {
      var n := |writes| - 1;
      assert writes[n].0 != key;
      assert forall i :: 0 <= i < n ==> writes[..n][i] == writes[i];
      LastValueUnwritten(writes[..n], key, initial);
    }
  }

  lemma {:induction false} LastValueAt(writes: seq<(string, Cell)>, key: string, initial: Option<Cell>, i: nat)
    requires i < |writes| && writes[i].0 == key
    requires forall j :: i < j < |writes| ==> writes[j].0 != key
    ensures LastValue(writes, key, initial) == Some(writes[i].1)
  {
    var n := |writes| - 1;
    if i < n {
      assert writes[n].0 != key;
      assert forall j :: 0 <= j < n ==> writes[..n][j] == writes[j];
      LastValueAt(writes[..n], key, initial, i);
    }
  }

  /** After a run of assignments each key holds its last assigned value; unassigned keys keep theirs. */
  lemma LastWriteWins(rec: Record, writes: seq<(string, Cell)>, key: string)
    ensures (forall i :: 0 <= i < |writes| ==> writes[i].0 != key) ==> Get(PutAll(rec, writes), key) == Get(rec, key)
    ensures forall i :: 0 <= i < |writes| && writes[i].0 == key && (forall j :: i < j < |writes| ==> writes[j].0 != key)
              ==> Get(PutAll(rec, writes), key) == Some(writes[i].1)
  {
    GetPutAll(rec, writes, key);
    if forall i :: 0 <= i < |writes| ==> writes[i].0 != key {
      LastValueUnwritten(writes, key, Get(rec, key));
    }
    forall i | 0 <= i < |writes| && writes[i].0 == key && (forall j :: i < j < |writes| ==> writes[j].0 != key)
      ensures Get(PutAll(rec, writes), key) == Some(writes[i].1)
    {
      LastValueAt(writes, key, Get(rec, key), i);
    }
  }

  lemma {:induction false} PutAllDistinct(rec: Record, writes: seq<(string, Cell)>)
    requires DistinctKeys(rec)
    ensures DistinctKeys(PutAll(rec, writes))
  {
    if |writes| > 0 {
      var n := |writes| - 1;
      PutAllDistinct(rec, writes[..n]);
      PutDistinct(PutAll(rec, writes[..n]), writes[n].0, writes[n].1);
    }
  }

  /** str(value) as pandas shows it: the text itself, the decimal integer, or "nan". */
  function CellText(c: Cell): string {
    match c
    case Str(s) => s
    case Int(n) => IntToString(n)
    case Missing => "nan"
  }

  /** Python truthiness of a cell value. */
  predicate Truthy(c: Cell) {
    match c
    case Str(s) => s != ""
    case Int(n) => n != 0
    case Missing => false
  }

  // ---------------------------------------------------------------- pd.DataFrame(list_of_dicts)

  /** `cols` extended by those of `ks` not yet present, in order. */
  function AddColumns(cols: seq<string>, ks: seq<string>): (r: seq<string>)
    ensures forall c :: c in r <==> c in cols || c in ks
    ensures |cols| <= |r| && r[..|cols|] == cols
    decreases |ks|
  {
    if |ks| == 0 then cols
    else AddColumns(if ks[0] in cols then cols else cols + [ks[0]], ks[1..])
  }

  predicate Distinct(xs: seq<string>) {
    forall i, j :: 0 <= i < j < |xs| ==> xs[i] != xs[j]
  }

  lemma {:induction false} AddColumnsDistinct(cols: seq<string>, ks: seq<string>)
    requires Distinct(cols)
    ensures Distinct(AddColumns(cols, ks))
    decreases |ks|
  {
    if |ks| > 0 {
      AddColumnsDistinct(if ks[0] in cols then cols else cols + [ks[0]], ks[1..]);
    }
  }

  /** The frame's columns: every field of every record, in order of first appearance. */
  function Columns(data: seq<Record>): (cols: seq<string>)
    ensures forall c :: c in cols <==> exists i :: 0 <= i < |data| && c in Keys(data[i])
  {
    if |data| == 0 then []
    else
      var init := data[..|data| - 1];
      var cols := AddColumns(Columns(init), Keys(data[|data| - 1]));
      assert forall i :: 0 <= i < |init| ==> init[i] == data[i];
      cols
  }

  lemma {:induction false} ColumnsDistinct(data: seq<Record>)
    ensures Distinct(Columns(data))
  {
    if |data| > 0 {
      ColumnsDistinct(data[..|data| - 1]);
      AddColumnsDistinct(Columns(data[..|data| - 1]), Keys(data[|data| - 1]));
    }
  }

  /** One frame row: the record's value, or NaN, under every column. */
  function AlignRow(rec: Record, cols: seq<string>): (row: Record)
    ensures Keys(row) == cols
    ensures forall k :: k in cols ==> Get(row, k) == Some(CellAt(rec, k))
  {
    var row := seq(|cols|, i requires 0 <= i < |cols| => (cols[i], CellAt(rec, cols[i])));
    assert Keys(row) == cols;
    forall k | k in cols ensures Get(row, k) == Some(CellAt(rec, k)) {
      var i :| 0 <= i < |cols| && cols[i] == k;
      FirstOccurrence(row, k, i);
    }
    row
  }

  lemma FirstOccurrence(rec: Record, key: string, i: nat)
    requires i < |rec| && rec[i].0 == key
    ensures exists j :: 0 <= j <= i && rec[j].0 == key && Get(rec, key) == Some(rec[j].1)
  {
    if rec[0].0 != key {
      FirstOccurrence(rec[1..], key, i - 1);
      var j :| 0 <= j <= i - 1 && rec[1..][j].0 == key && Get(rec[1..], key) == Some(rec[1..][j].1);
      assert rec[j + 1] == rec[1..][j];
    }
  }

  /** The value at an index whose key no earlier field has is what Get finds. */
  lemma {:induction false} GetAt(rec: Record, i: nat)
    requires i < |rec| && forall j :: 0 <= j < i ==> rec[j].0 != rec[i].0
    ensures Get(rec, rec[i].0) == Some(rec[i].1)
  {
    if i > 0 {
      GetAt(rec[1..], i - 1);
    }
  }

  /** With distinct keys, every field is found by its key. */
  lemma GetDistinct(rec: Record)
    requires DistinctKeys(rec)
    ensures forall i :: 0 <= i < |rec| ==> Get(rec, rec[i].0) == Some(rec[i].1)
  {
    forall i | 0 <= i < |rec| ensures Get(rec, rec[i].0) == Some(rec[i].1) {
      GetAt(rec, i);
    }
  }

  /** The rows df.iterrows() yields. */
  function Frame(data: seq<Record>): (rows: seq<Record>)
    ensures |rows| == |data|
    ensures forall i :: 0 <= i < |rows| ==> Keys(rows[i]) == Columns(data)
  {
    var cols := Columns(data);
    seq(|data|, i requires 0 <= i < |data| => AlignRow(data[i], cols))
  }

  /** Every frame row holds, under each column, the record's own value, or NaN where it has none. */
  lemma FrameCellAt(data: seq<Record>, i: nat, key: string)
    requires i < |data| && key in Columns(data)
    ensures CellAt(Frame(data)[i], key) == CellAt(data[i], key)
  {
    assert Frame(data)[i] == AlignRow(data[i], Columns(data));
  }
}
