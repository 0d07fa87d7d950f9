/**
 * The settings tables of tutors, students, locations and subjects
 * (WebApp/src/components/Settings/EditableTable.jsx): a local copy of the server's
 * `{columns, records}` that cell edits, additions and deletions change in place, with cell edits
 * sent to the server through a 500 ms debouncer, and the column layout the table shows.
 */
module EditableTable {
  import opened Wrappers
  import opened Payload
  import opened Listing
  import LessonEdits

  /** A column as the server lists it: its name and `data_type`. */
  datatype Column = Column(name: string, dataType: string)

  /** The `{columns, records}` the table's query returns. */
  datatype TableData = TableData(columns: seq<Column>, records: seq<Body>)

  /** `record.key` and `record.id`; `None` is JavaScript's `undefined`. */
  function KeyOf(r: Body): Option<Json> {
    if "key" in r then Some(r["key"]) else None
  }

  function IdOf(r: Body): Option<Json> {
    if "id" in r then Some(r["id"]) else None
  }

  // ---------------------------------------------------------------------------------------------
  // Server side: the column list of `GET /tutors` and the other settings tables
  // ---------------------------------------------------------------------------------------------

  /** The `data_type` the server reports for a cursor type code: `number` for code 3, else `string`. */
  function ServerDataType(typeCode: int): (t: string)
    ensures t == "number" <==> typeCode == 3
    ensures t == "number" || t == "string"
  {
    if typeCode == 3 then "number" else "string"
  }

  /** The table compares a column numerically when its `data_type` is `int`. */
  predicate NumericSort(c: Column) {
    c.dataType == "int"
  }

  /**
   * The server never reports `int`, so every column the table shows is sorted as text, numeric
   * ones included.
   */
  lemma ServerColumnsSortAsText(name: string, typeCode: int)
    ensures !NumericSort(Column(name, ServerDataType(typeCode)))
  {
  }

  // ---------------------------------------------------------------------------------------------
  // Columns
  // ---------------------------------------------------------------------------------------------

  /** What the table shows, in order: data columns, then the download and delete columns. */
  datatype TableColumn =
    | DataColumn(title: string, dataIndex: string, numericSort: bool, colorPicker: bool)
    | DownloadColumn
    | DeleteColumn

  predicate Special(name: string) {
    name == "name" || name == "color" || name == "rate" || name == "sort_code" || name == "account_number"
  }

  function UpperChar(c: char): char {
    if 'a' <= c <= 'z' then (c as int - 32) as char else c
  }

  function Spaced(s: string): (r: string)
    ensures |r| == |s|
    ensures forall i :: 0 <= i < |s| ==> r[i] == if s[i] == '_' then ' ' else s[i]
  {
    if s == [] then [] else [if s[0] == '_' then ' ' else s[0]] + Spaced(s[1..])
  }

  /** The default title: underscores become spaces and the first letter is capitalised. */
  function Capitalised(name: string): (t: string)
    ensures |t| == |name| && '_' !in t
    ensures |name| > 0 ==> t[0] == UpperChar(if name[0] == '_' then ' ' else name[0])
    ensures forall i :: 0 < i < |name| ==> t[i] == if name[i] == '_' then ' ' else name[i]
  {
    var d := Spaced(name);
    if d == [] then [] else [UpperChar(d[0])] + d[1..]
  }

  /** The title of a column: three columns are renamed, the others capitalised. */
  function Title(name: string): (t: string)
    ensures name !in {"rate", "account_number", "sort_code"} ==> t == Capitalised(name)
  {
    if name == "rate" then "Hourly rate (£)"
    else if name == "account_number" then "Account number"
    else if name == "sort_code" then "Sort code"
    else Capitalised(name)
  }

  /** A data column: its title, numeric or text sorting, and a colour picker for `color`. */
  function Present(c: Column): (t: TableColumn)
    ensures t.DataColumn? && t.dataIndex == c.name && t.title == Title(c.name)
    ensures t.numericSort <==> NumericSort(c)
    ensures t.colorPicker <==> LessonEdits.Lower(c.name) == "color"
  {
    DataColumn(Title(c.name), c.name, NumericSort(c), LessonEdits.Lower(c.name) == "color")
  }

  function HasName(name: string): Column -> bool {
    (c: Column) => c.name == name
  }

  predicate Ordinary(c: Column) {
    !Special(c.name)
  }

  function Named(cols: seq<Column>, name: string): seq<Column> {
    match Find(cols, HasName(name))
    case Some(c) => [c]
    case None => []
  }

  /**
   * The order of the data columns: `name`, then the others as the server lists them, then `rate`,
   * `account_number`, `sort_code` and `color` (the first of each name only).
   */
  function Arranged(cols: seq<Column>): seq<Column> {
    Named(cols, "name") + Filter(cols, Ordinary)
      + Named(cols, "rate") + Named(cols, "account_number") + Named(cols, "sort_code") + Named(cols, "color")
  }

  /** The data columns for a list of server columns, in the same order. */
  function Presented(cols: seq<Column>): (r: seq<TableColumn>)
    ensures |r| == |cols| && forall i :: 0 <= i < |cols| ==> r[i] == Present(cols[i])
  {
    if cols == [] then [] else [Present(cols[0])] + Presented(cols[1..])
  }

  /** The data columns followed by a download column on the students table, then delete. */
  function WithActions(data: seq<TableColumn>, table: string): (r: seq<TableColumn>)
    ensures |r| == |data| + (if table == "student" then 2 else 1)
    ensures r[..|data|] == data && r[|r| - 1] == DeleteColumn
    ensures table == "student" ==> r[|r| - 2] == DownloadColumn
  {
    data + (if table == "student" then [DownloadColumn] else []) + [DeleteColumn]
  }

  /** `generateColumns()`. */
  function GenerateColumns(cols: seq<Column>, table: string): seq<TableColumn> {
    WithActions(Presented(Arranged(cols)), table)
  }

  /** Only the students table has a download column, and delete comes last. */
  lemma ActionColumns(data: seq<TableColumn>, table: string)
    requires forall t :: t in data ==> t.DataColumn?
    ensures DownloadColumn in WithActions(data, table) <==> table == "student"
    ensures DeleteColumn in WithActions(data, table)
  {
    var r := WithActions(data, table);
    assert r == data + (if table == "student" then [DownloadColumn] else []) + [DeleteColumn];
  }

  /** The column `Named` gives is the first column with that name. */
  lemma NamedIs(cols: seq<Column>, name: string, x: Column)
    ensures x in Named(cols, name) <==> Find(cols, HasName(name)) == Some(x)
    ensures x in Named(cols, name) ==> x in cols && x.name == name
  {
  }

  /**
   * The table shows a column exactly when the server lists it, a renamed or coloured one only in
   * its first occurrence.
   */
  lemma ArrangedKeepsColumns(cols: seq<Column>, x: Column)
    ensures x in Arranged(cols) <==>
              x in cols && (!Special(x.name) || Find(cols, HasName(x.name)) == Some(x))
  {
    NamedIs(cols, "name", x);
    NamedIs(cols, "rate", x);
    NamedIs(cols, "account_number", x);
    NamedIs(cols, "sort_code", x);
    NamedIs(cols, "color", x);
    if x in cols && Special(x.name) && Find(cols, HasName(x.name)) == Some(x) {
      assert x in Named(cols, x.name);
    }
  }

  /** With distinct names, every column the server lists is shown. */
  lemma ArrangedDistinct(cols: seq<Column>, x: Column)
    requires forall i, j :: 0 <= i < j < |cols| ==> cols[i].name != cols[j].name
    ensures x in Arranged(cols) <==> x in cols
  {
    ArrangedKeepsColumns(cols, x);
    if x in cols && Special(x.name) {
      forall y | y in cols && HasName(x.name)(y) ensures y == x {
        var i :| 0 <= i < |cols| && cols[i] == x;
        var j :| 0 <= j < |cols| && cols[j] == y;
        assert !(i < j) && !(j < i);
      }
      FindUnique(cols, HasName(x.name), x);
    }
  }

  /** `name` leads and `color` closes the data columns when the server lists them. */
  lemma ArrangedEnds(cols: seq<Column>)
    ensures (exists c :: c in cols && c.name == "name") ==> Arranged(cols)[0].name == "name"
    ensures (exists c :: c in cols && c.name == "color") ==> Arranged(cols)[|Arranged(cols)| - 1].name == "color"
  {
  }

  // ---------------------------------------------------------------------------------------------
  // Rows
  // ---------------------------------------------------------------------------------------------

  /** `{...item, ...row}`: the row's values win. */
  function Spread(item: Body, row: Body): (r: Body)
    ensures r.Keys == item.Keys + row.Keys
    ensures forall f :: f in row ==> r[f] == row[f]
    ensures forall f :: f in item && f !in row ==> r[f] == item[f]
  {
    item + row
  }

  /** `row.key === item.key`. */
  function SameKey(row: Body): Body -> bool {
    (item: Body) => KeyOf(item) == KeyOf(row)
  }

  /**
   * What an edit of `row` makes of the records: the first record with the row's key gets the
   * row's values; with no such record the last one is replaced by the row itself (an empty table
   * gets it as its only record), since `findIndex` answers -1 and `splice(-1, 1, …)` counts from
   * the end.
   */
  function UpdatedRecords(records: seq<Body>, row: Body): (r: seq<Body>)
    ensures |r| == if records == [] then 1 else |records|
  {
    var k := FindIndex(records, SameKey(row));
    if 0 <= k then records[k := Spread(records[k], row)]
    else if records == [] then [row]
    else records[|records| - 1 := row]
  }

  /** With a record of the row's key, splicing the merged record in at its index is the edit above. */
  lemma SpliceFound(records: seq<Body>, row: Body)
    requires 0 <= FindIndex(records, SameKey(row))
    ensures var k := FindIndex(records, SameKey(row));
            SpliceOne(records, k, Spread(records[k], row)) == UpdatedRecords(records, row)
  {
    var k := FindIndex(records, SameKey(row));
    SpliceInside(records, k, Spread(records[k], row));
  }

  /** With none, `findIndex` answers -1 and the splice puts the row itself last. */
  lemma SpliceMissing(records: seq<Body>, row: Body)
    requires FindIndex(records, SameKey(row)) < 0
    ensures SpliceOne(records, -1, Spread(map[], row)) == UpdatedRecords(records, row)
  {
    assert Spread(map[], row) == row;
    SpliceLast(records, row);
  }

  /**
   * The copy `handleUpdateCell` builds: the record at `findIndex`'s answer (none at -1) merged
   * with the row, spliced in at that index. It is the edit described above.
   */
  function Spliced(records: seq<Body>, row: Body): (r: seq<Body>)
    ensures r == UpdatedRecords(records, row)
  {
    var index := FindIndex(records, SameKey(row));
    var item: Body := if 0 <= index < |records| then records[index] else map[];
    if 0 <= index then
      SpliceFound(records, row);
      SpliceOne(records, index, Spread(item, row))
    else
      SpliceMissing(records, row);
      SpliceOne(records, index, Spread(item, row))
  }

  /** An edit of a row the table holds changes that row, by the row's values, and no other. */
  lemma {:induction false} EditKnownRow(records: seq<Body>, row: Body, k: nat)
    requires k < |records| && KeyOf(records[k]) == KeyOf(row)
    requires forall j :: 0 <= j < k ==> KeyOf(records[j]) != KeyOf(row)
    ensures UpdatedRecords(records, row) == records[k := Spread(records[k], row)]
  {
    assert records[k] in records && SameKey(row)(records[k]);
  }

  /**
   * A cell edit (`{...record, [name]: value}`) of a record whose key no earlier record shares
   * changes that one field of that record and nothing else.
   */
  lemma EditCellChangesOneField(records: seq<Body>, k: nat, name: string, value: Json)
    requires k < |records| && name != "key"
    requires forall j :: 0 <= j < k ==> KeyOf(records[j]) != KeyOf(records[k])
    ensures UpdatedRecords(records, records[k][name := value]) == records[k := records[k][name := value]]
  {
    var row := records[k][name := value];
    assert KeyOf(row) == KeyOf(records[k]);
    EditKnownRow(records, row, k);
    assert Spread(records[k], row) == row;
  }

  /**
   * An edit of a row whose key no record has overwrites the last record with the row, losing
   * that record locally.
   */
  lemma EditUnknownRowOverwritesLast(records: seq<Body>, row: Body)
    requires records != [] && forall x :: x in records ==> KeyOf(x) != KeyOf(row)
    ensures UpdatedRecords(records, row) == records[..|records| - 1] + [row]
  {
  }

  /** The update sent for an edit: `{id: row.id, data: row without id and key}`. */
  datatype CellUpdate = CellUpdate(id: Option<Json>, data: Body)

  function UpdateOf(row: Body): (u: CellUpdate)
    ensures u.id == IdOf(row)
    ensures "id" !in u.data && "key" !in u.data
    ensures forall f :: f in row && f != "id" && f != "key" <==> f in u.data
    ensures forall f :: f in u.data ==> u.data[f] == row[f]
  {
    CellUpdate(IdOf(row), row - {"id", "key"})
  }

  /** The record a new row starts from: a value per column, `color` and `rate` with defaults. */
  function DefaultValue(column: string, table: string): Json {
    if column == "rate" then JInt(20)
    else if column == "color" then JStr(if table == "tutor" then "Blue" else "Red")
    else JStr("")
  }

  function Defaults(cols: seq<Column>, table: string): (r: Body)
    ensures forall f :: f in r <==> exists c :: c in cols && c.name == f
    ensures forall f :: f in r ==> r[f] == DefaultValue(f, table)
  {
    if cols == [] then map[]
    else
      var last := cols[|cols| - 1];
      var init := cols[..|cols| - 1];
      assert forall c :: c in cols <==> c in init || c == last;
      Defaults(init, table)[last.name := DefaultValue(last.name, table)]
  }

  /** `{key: uuid, ...defaults}`: a column that were named `key` would replace the key. */
  function NewRecord(cols: seq<Column>, table: string, uuid: string): (r: Body)
    ensures forall f :: f in r <==> f == "key" || exists c :: c in cols && c.name == f
    ensures forall f :: f in r && f != "key" ==> r[f] == DefaultValue(f, table)
    ensures (forall c :: c in cols ==> c.name != "key") ==> r["key"] == JStr(uuid)
  {
    map["key" := JStr(uuid)] + Defaults(cols, table)
  }

  /** The page a record at position `i` is on, eight records to a page. */
  function PageOf(i: nat): (p: nat)
    ensures p >= 1 && (p - 1) * 8 <= i < p * 8
  {
    i / 8 + 1
  }

  /** `Math.ceil(n / 8)`, written with integers. */
  function LastPage(n: nat): nat {
    (n + 7) / 8
  }

  /** The page jumped to after an addition is the page of the new last record. */
  lemma LastPageHoldsLast(n: nat)
    requires n >= 1
    ensures LastPage(n) == PageOf(n - 1)
  {
  }

  /** The synchronising effect: the server's data replaces the local copy on first load, or after a failed change. */
  predicate Resyncs(data: Option<TableData>, local: TableData, isMutateError: bool) {
    data.Some? && (|local.columns| == 0 || (|data.value.records| != |local.records| && isMutateError))
  }

  /** The settings table of one kind of entity (`tutor`, `student`, `location`, `subject`). */
  class Table {
    const name: string
    var columns: seq<Column>
    var records: seq<Body>
    var currentPage: nat
    /** The cell update waiting in the debouncer. */
    var pending: Option<CellUpdate>
    /** What has reached `updateData`, `addData` and `deleteData`. */
    var updatesSent: seq<CellUpdate>
    var addsSent: seq<Body>
    var deletesSent: seq<Option<Json>>

    constructor (name: string, data: Option<TableData>)
      ensures this.name == name && currentPage == 1 && pending == None
      ensures data.Some? ==> columns == data.value.columns && records == data.value.records
      ensures data.None? ==> columns == [] && records == []
      ensures updatesSent == [] && addsSent == [] && deletesSent == []
    {
      this.name := name;
      var d := if data.Some? then data.value else TableData([], []);
      columns := d.columns;
      records := d.records;
      currentPage := 1;
      pending := None;
      updatesSent := [];
      addsSent := [];
      deletesSent := [];
    }

    /** `handleUpdateCell`: the records take the edit at once; the server's update is debounced. */
    method UpdateCell(row: Body)
      modifies this
      ensures records == UpdatedRecords(old(records), row)
      ensures pending == Some(UpdateOf(row))
      ensures columns == old(columns) && currentPage == old(currentPage)
      ensures updatesSent == old(updatesSent) && addsSent == old(addsSent) && deletesSent == old(deletesSent)
    {
      records := Spliced(records, row);
      var rest := row - {"id", "key"};
      pending := Some(CellUpdate(IdOf(row), rest));
    }

    /** The debouncer fires: the last pending update is sent, earlier ones never are. */
    method Flush()
      modifies this
      ensures pending == None
      ensures updatesSent == old(updatesSent) + (if old(pending).Some? then [old(pending).value] else [])
      ensures columns == old(columns) && records == old(records) && currentPage == old(currentPage)
      ensures addsSent == old(addsSent) && deletesSent == old(deletesSent)
    {
      if pending.Some? {
        updatesSent := updatesSent + [pending.value];
      }
      pending := None;
    }

    /** `handleAdd`: the new record is sent; the table changes only when the server answers. */
    method Add(uuid: string) returns (record: Body)
      modifies this
      ensures record == NewRecord(columns, name, uuid)
      ensures addsSent == old(addsSent) + [record]
      ensures columns == old(columns) && records == old(records) && currentPage == old(currentPage)
      ensures pending == old(pending) && updatesSent == old(updatesSent) && deletesSent == old(deletesSent)
    {
      var defaults := map[];
      var i := 0;
      while i < |columns|
        invariant 0 <= i <= |columns|
        invariant defaults == Defaults(columns[..i], name)
      {
        assert columns[..i + 1][..i] == columns[..i];
        defaults := defaults[columns[i].name := DefaultValue(columns[i].name, name)];
        i := i + 1;
      }
      assert columns[..i] == columns;
      record := map["key" := JStr(uuid)] + defaults;
      addsSent := addsSent + [record];
    }

    /** `onSuccess` of an addition: the record with the server's id is appended and shown. */
    method Added(record: Body, id: Json)
      modifies this
      ensures records == old(records) + [record["id" := id]]
      ensures currentPage == PageOf(|records| - 1)
      ensures columns == old(columns) && pending == old(pending)
      ensures updatesSent == old(updatesSent) && addsSent == old(addsSent) && deletesSent == old(deletesSent)
    {
      records := records + [record["id" := id]];
      currentPage := LastPage(|records|);
      LastPageHoldsLast(|records|);
    }

    /** `handleDeleteRow`: every record with that id goes, the others keep their order. */
    method DeleteRow(id: Option<Json>)
      modifies this
      ensures records == Filter(old(records), item => IdOf(item) != id)
      ensures deletesSent == old(deletesSent) + [id]
      ensures columns == old(columns) && currentPage == old(currentPage) && pending == old(pending)
      ensures updatesSent == old(updatesSent) && addsSent == old(addsSent)
    {
      records := Filter(records, item => IdOf(item) != id);
      deletesSent := deletesSent + [id];
    }

    /** The effect on `data`, the local copy and `isMutateError`. */
    method Sync(data: Option<TableData>, isMutateError: bool)
      modifies this
      ensures Resyncs(data, old(TableData(columns, records)), isMutateError) ==>
                columns == data.value.columns && records == data.value.records
      ensures !Resyncs(data, old(TableData(columns, records)), isMutateError) ==>
                columns == old(columns) && records == old(records)
      ensures currentPage == old(currentPage) && pending == old(pending)
      ensures updatesSent == old(updatesSent) && addsSent == old(addsSent) && deletesSent == old(deletesSent)
    {
      if data.Some? && (|columns| == 0 || (|data.value.records| != |records| && isMutateError)) {
        columns := data.value.columns;
        records := data.value.records;
      }
    }
  }

  /** A deletion removes exactly the records with that id and keeps every other one as often as it occurred. */
  lemma DeleteRemovesExactly(records: seq<Body>, id: Option<Json>, x: Body)
    ensures x in Filter(records, item => IdOf(item) != id) <==> x in records && IdOf(x) != id
    ensures multiset(Filter(records, item => IdOf(item) != id))[x] == if IdOf(x) == id then 0 else multiset(records)[x]
  {
    FilterCounts(records, item => IdOf(item) != id, x);
  }

  /** A record added with the server's id is removed by deleting that id. */
  lemma DeleteUndoesAdd(records: seq<Body>, record: Body, id: Json)
    ensures record["id" := id] !in Filter(records + [record["id" := id]], item => IdOf(item) != Some(id))
    ensures Filter(records + [record["id" := id]], item => IdOf(item) != Some(id)) ==
              Filter(records, item => IdOf(item) != Some(id))
  {
    var s := records + [record["id" := id]];
    assert s[..|s| - 1] == records;
  }
}
