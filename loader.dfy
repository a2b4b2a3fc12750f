/**
  The spreadsheet loader (`EsData.load` and `EsData.convert_data_type`): the
  first row of the active sheet names the fields, every later row that holds
  at least one value becomes a record keyed by those names.
 */
module Loader {
  import opened Options
  import opened Cells

  /** The active worksheet as openpyxl presents it: `max_row` rows of
      `max_column` cells each, the first of them the header row. */
  type Sheet = seq<seq<Value>>

  predicate Width(rows: seq<seq<Value>>, w: nat) {
    forall r :: r in rows ==> |r| == w
  }

  ghost predicate Rectangular(sheet: Sheet) {
    |sheet| >= 1 && Width(sheet, |sheet[0]|)
  }

  /** openpyxl's `data_type` of a cell: 'd' for dates, 's' for text, 'b' for
      booleans and 'n' for numbers and empty cells. */
  function CellType(v: Value): char {
    match v
    case Null => 'n'
    case Text(_) => 's'
    case Number(_) => 'n'
    case Flag(_) => 'b'
    case Moment(_) => 'd'
  }

  /** A date-typed cell becomes 19 characters of text; any other cell passes
      through. */
  function ConvertDataType(cellType: char, v: Value): (r: Value)
    requires cellType == 'd' ==> v.Moment?
    ensures cellType == 'd' ==> r.Text? && |r.s| == 19
    ensures cellType != 'd' ==> r == v
  {
    if cellType == 'd' then
      FormatDateRoundTrip(v.t);
      Text(FormatDate(v.t))
    else v
  }

  function FieldValue(v: Value): Value {
    ConvertDataType(CellType(v), v)
  }

  /** What a cell holds once loaded: no date survives as a date, a date
      becomes text that reads back as the same date up to the second, an
      empty cell stays empty and every other value is unchanged. */
  lemma FieldValueSpec(v: Value)
    ensures v.Moment? <==> CellType(v) == 'd'
    ensures !FieldValue(v).Moment?
    ensures v.Moment? ==> FieldValue(v) == Text(FormatDate(v.t))
    ensures v.Moment? ==> ParseDate(FieldValue(v).s) == Some(v.t.(microsecond := 0))
    ensures !v.Moment? ==> FieldValue(v) == v
    ensures FieldValue(v) == Null <==> v == Null
  {
    if v.Moment? {
      FormatDateRoundTrip(v.t);
    }
  }

  /** The record built from the first `n` cells of a row, each stored under
      its column's header name (a later column overwrites an earlier one of
      the same name, as a dictionary assignment does). */
  function RowDict(header: seq<Key>, row: seq<Value>, n: nat): Record
    requires n <= |header| == |row|
  {
    if n == 0 then map[]
    else RowDict(header, row, n - 1)[header[n - 1] := FieldValue(row[n - 1])]
  }

  /** The record of a row has exactly the header names as fields. */
  lemma {:induction false} RowDictKeys(header: seq<Key>, row: seq<Value>, n: nat)
    requires n <= |header| == |row|
    ensures RowDict(header, row, n).Keys == set j | 0 <= j < n :: header[j]
  {
    if n > 0 {
      RowDictKeys(header, row, n - 1);
      HeaderNamesStep(header, n);
    }
  }

  lemma HeaderNamesStep(header: seq<Key>, n: nat)
    requires 0 < n <= |header|
    ensures (set j | 0 <= j < n :: header[j]) == (set j | 0 <= j < n - 1 :: header[j]) + {header[n - 1]}
  {
  }

  /** Each field of a row's record holds the converted value of the last
      column bearing its name. */
  lemma {:induction false} RowDictValues(header: seq<Key>, row: seq<Value>, n: nat, j: nat)
    requires n <= |header| == |row|
    requires j < n && forall j' :: j < j' < n ==> header[j'] != header[j]
    ensures header[j] in RowDict(header, row, n)
    ensures RowDict(header, row, n)[header[j]] == FieldValue(row[j])
  {
    var before := RowDict(header, row, n - 1);
    assert RowDict(header, row, n) == before[header[n - 1] := FieldValue(row[n - 1])];
    if j < n - 1 {
      RowDictValues(header, row, n - 1, j);
      assert header[n - 1] != header[j];
    }
  }

  predicate AllNull(row: seq<Value>) {
    forall j :: 0 <= j < |row| ==> row[j] == Null
  }

  /** The data rows that hold at least one value, in sheet order. */
  function Kept(data: seq<seq<Value>>): (k: seq<seq<Value>>)
    ensures forall r :: r in k ==> r in data
    ensures forall w :: Width(data, w) ==> Width(k, w)
  {
    if data == [] then []
    else Kept(data[..|data| - 1]) + (if AllNull(data[|data| - 1]) then [] else [data[|data| - 1]])
  }

  lemma KeptStep(data: seq<seq<Value>>, k: nat)
    requires k < |data|
    ensures Kept(data[..k + 1]) == Kept(data[..k]) + (if AllNull(data[k]) then [] else [data[k]])
  {
    assert data[..k + 1][..k] == data[..k];
  }

  /** Keeping rows commutes with concatenation, so kept rows stay in order. */
  lemma {:induction false} KeptAppend(a: seq<seq<Value>>, b: seq<seq<Value>>)
    ensures Kept(a + b) == Kept(a) + Kept(b)
  {
    if b != [] {
      var b' := b[..|b| - 1];
      assert (a + b)[..|a + b| - 1] == a + b';
      KeptAppend(a, b');
    } else {
      assert a + b == a;
    }
  }

  /** A row is kept exactly when it holds a value; nothing else is added. */
  lemma {:induction false} KeptMembers(data: seq<seq<Value>>)
    ensures forall r :: r in Kept(data) <==> r in data && !AllNull(r)
    ensures |Kept(data)| <= |data|
  {
    if data != [] {
      var init := data[..|data| - 1];
      KeptMembers(init);
      assert data == init + [data[|data| - 1]];
    }
  }

  /** A sheet without empty rows is kept whole. */
  lemma {:induction false} KeptAll(data: seq<seq<Value>>)
    requires forall i :: 0 <= i < |data| ==> !AllNull(data[i])
    ensures Kept(data) == data
  {
    if data != [] {
      var init := data[..|data| - 1];
      assert forall i :: 0 <= i < |init| ==> !AllNull(init[i]) by {
        assert forall i :: 0 <= i < |init| ==> init[i] == data[i];
      }
      KeptAll(init);
      assert data == init + [data[|data| - 1]];
    }
  }

  /** The records of the given rows, one per row and in the same order. */
  function Records(header: seq<Key>, rows: seq<seq<Value>>): (rs: seq<Record>)
    requires Width(rows, |header|)
    ensures |rs| == |rows|
    ensures forall i :: 0 <= i < |rows| ==> rs[i] == RowDict(header, rows[i], |header|)
  {
    if rows == [] then []
    else
      var init, last := rows[..|rows| - 1], rows[|rows| - 1];
      assert rows == init + [last];
      var rs := Records(header, init);
      assert |last| == |header| by {
        assert last in rows;
      }
      rs + [RowDict(header, last, |header|)]
  }

  lemma RecordsStep(header: seq<Key>, rows: seq<seq<Value>>, row: seq<Value>)
    requires Width(rows, |header|) && |row| == |header|
    ensures Width(rows + [row], |header|)
    ensures Records(header, rows + [row]) == Records(header, rows) + [RowDict(header, row, |header|)]
  {
    assert (rows + [row])[..|rows|] == rows;
  }

  predicate HasBlank(header: seq<Value>) {
    exists j :: 0 <= j < |header| && header[j] == Null
  }

  /** What `load` returns for a sheet. */
  function Loaded(sheet: Sheet): (rows: seq<Record>)
    requires Rectangular(sheet)
    ensures !HasBlank(sheet[0]) ==> |rows| == |Kept(sheet[1..])|
  {
    if HasBlank(sheet[0]) then []
    else
      assert Width(sheet[1..], |sheet[0]|);
      Records(sheet[0], Kept(sheet[1..]))
  }

  /** A sheet whose header row is complete loads one record per data row
      that holds a value, in sheet order, and every record has exactly the
      header names as its fields, each holding the converted cell of the last
      column bearing that name. */
  lemma LoadedRecords(sheet: Sheet, i: nat)
    requires Rectangular(sheet) && !HasBlank(sheet[0])
    requires i < |Kept(sheet[1..])|
    ensures |Loaded(sheet)| == |Kept(sheet[1..])|
    ensures |Kept(sheet[1..])[i]| == |sheet[0]|
    ensures Loaded(sheet)[i].Keys == set j | 0 <= j < |sheet[0]| :: sheet[0][j]
    ensures forall j :: 0 <= j < |sheet[0]| && (forall j' :: j < j' < |sheet[0]| ==> sheet[0][j'] != sheet[0][j])
              ==> Loaded(sheet)[i][sheet[0][j]] == FieldValue(Kept(sheet[1..])[i][j])
  {
    var header, row := sheet[0], Kept(sheet[1..])[i];
    assert Width(sheet[1..], |header|);
    assert row in Kept(sheet[1..]);
    RowDictKeys(header, row, |header|);
    forall j | 0 <= j < |header| && (forall j' :: j < j' < |header| ==> header[j'] != header[j])
      ensures Loaded(sheet)[i][header[j]] == FieldValue(row[j])
    {
      RowDictValues(header, row, |header|, j);
    }
  }

  /** One pass of the inner loop of `EsData.load`: the record of a data row,
      and whether every one of its cells is empty. */
  method ReadRow(keys: seq<Key>, row: seq<Value>) returns (rowDict: Record, allNull: bool)
    requires |row| == |keys|
    ensures rowDict == RowDict(keys, row, |keys|)
    ensures allNull == AllNull(row)
  {
    rowDict := map[];
    allNull := true;
    var c := 0;
    while c < |keys|
      invariant 0 <= c <= |keys|
      invariant rowDict == RowDict(keys, row, c)
      invariant allNull <==> forall c' :: 0 <= c' < c ==> row[c'] == Null
    {
      rowDict := rowDict[keys[c] := ConvertDataType(CellType(row[c]), row[c])];
      if row[c] != Null {
        allNull := false;
      }
      c := c + 1;
    }
  }

  /** `EsData.load`: an empty header cell aborts the load with no rows;
      otherwise each data row holding a value becomes a record. */
  method Load(sheet: Sheet) returns (rows: seq<Record>)
    requires Rectangular(sheet)
    ensures HasBlank(sheet[0]) ==> rows == []
    ensures rows == Loaded(sheet)
  {
    var header := sheet[0];
    var keys: seq<Key> := [];
    var j := 0;
    while j < |header|
      invariant 0 <= j <= |header|
      invariant keys == header[..j]
      invariant forall c :: 0 <= c < j ==> header[c] != Null
    {
      if header[j] == Null {
        return [];
      }
      keys := keys + [header[j]];
      j := j + 1;
    }
    assert keys == header;
    var data := sheet[1..];
    assert Width(data, |header|);
    rows := [];
    var i := 1;
    while i < |sheet|
      invariant 1 <= i <= |sheet|
      invariant Width(Kept(data[..i - 1]), |header|)
      invariant rows == Records(header, Kept(data[..i - 1]))
    {
      var row := sheet[i];
      assert row == data[i - 1] && row in data;
      var rowDict, allNull := ReadRow(keys, row);
      KeptStep(data, i - 1);
      if !allNull {
        RecordsStep(header, Kept(data[..i - 1]), row);
        rows := rows + [rowDict];
      }
      i := i + 1;
    }
    assert data[..i - 1] == data;
  }
}
