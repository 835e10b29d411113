/** Time-series ingestion: typed columns, all-or-nothing inserts, and the bulk and simple message forms
    (app/services/tsdata.py and the two handlers of app/mqtt/router.py). */
module TimeSeries {
  import opened Prelude
  import opened Store
  import opened Topics

  /** What `datetime.fromtimestamp` makes of a number of seconds: an instant, a `ValueError` (caught by the
      handlers) or an overflow (not caught). */
  datatype Stamp = At(ts: int) | Rejected | Overflow

  /** The library conversions the code relies on, as parameters. */
  datatype Runtime = Runtime(
    parseInt: string -> Option<int>,
    parseFloat: string -> Option<real>,
    render: Json -> string,
    clock: int -> Stamp)

  // ---------- Typed columns ----------

  function Truncate(x: real): int {
    if x >= 0.0 then x.Floor else -((-x).Floor)
  }

  /** `int(v)`; none when it raises. */
  function ToInt(rt: Runtime, v: Json): Option<int> {
    match v
    case Bool(b) => Some(if b then 1 else 0)
    case Int(n) => Some(n)
    case Float(x) => Some(Truncate(x))
    case Str(s) => rt.parseInt(s)
    case _ => None
  }

  /** `float(v)`; none when it raises. */
  function ToFloat(rt: Runtime, v: Json): Option<real> {
    match v
    case Bool(b) => Some(if b then 1.0 else 0.0)
    case Int(n) => Some(n as real)
    case Float(x) => Some(x)
    case Str(s) => rt.parseFloat(s)
    case _ => None
  }

  /** A value as read back from one of the four typed columns. */
  datatype Cell = NoValue | IntCell(n: int) | FloatCell(x: real) | BoolCell(b: bool) | StrCell(s: string)

  /** The value that data type `dt` gives to `v`; none when the conversion raises. */
  function Typed(rt: Runtime, dt: string, v: Json): Option<Cell> {
    if dt == "int" then (match ToInt(rt, v) case None => None case Some(n) => Some(IntCell(n)))
    else if dt == "float" || dt == "number" then
      (match ToFloat(rt, v) case None => None case Some(x) => Some(FloatCell(x)))
    else if dt == "bool" then Some(BoolCell(Truthy(v)))
    else Some(StrCell(rt.render(v)))
  }

  datatype Column = ValueInt | ValueFloat | ValueBool | ValueStr

  function ValueColumn(dt: string): Column {
    if dt == "int" then ValueInt
    else if dt == "float" || dt == "number" then ValueFloat
    else if dt == "bool" then ValueBool
    else ValueStr
  }

  function ReadColumn(row: TsRow, column: Column): Cell {
    match column
    case ValueInt => if row.vInt.Some? then IntCell(row.vInt.value) else NoValue
    case ValueFloat => if row.vFloat.Some? then FloatCell(row.vFloat.value) else NoValue
    case ValueBool => if row.vBool.Some? then BoolCell(row.vBool.value) else NoValue
    case ValueStr => if row.vStr.Some? then StrCell(row.vStr.value) else NoValue
  }

  /** `_coerce`: all four columns start empty, and the data type's own is filled; none when it raises. */
  method Coerce(rt: Runtime, blank: TsRow, v: Json) returns (row: Option<TsRow>)
    requires blank == blank.(vInt := None, vFloat := None, vBool := None, vStr := None)
    ensures row.None? <==> Typed(rt, blank.dataType, v).None?
    ensures row.Some? ==>
      forall c :: ReadColumn(row.value, c) ==
        if c == ValueColumn(blank.dataType) then Typed(rt, blank.dataType, v).value else NoValue
    ensures row.Some? ==> row.value.(vInt := None, vFloat := None, vBool := None, vStr := None) == blank
  {
    var dt := blank.dataType;
    var columns := blank;
    if dt == "int" {
      var n := ToInt(rt, v);
      if n.None? { return None; }
      columns := columns.(vInt := n);
    } else if dt == "float" || dt == "number" {
      var x := ToFloat(rt, v);
      if x.None? { return None; }
      columns := columns.(vFloat := x);
    } else if dt == "bool" {
      columns := columns.(vBool := Some(Truthy(v)));
    } else {
      columns := columns.(vStr := Some(rt.render(v)));
    }
    return Some(columns);
  }

  // ---------- Inserting points ----------

  /** The parameter a series belongs to. */
  datatype Series = Series(node: NodeId, device: string, param: string)

  function RowOf(series: Series, dt: string, ts: int, cell: Cell): TsRow {
    TsRow(ts, series.node, series.device, series.param, dt,
          if cell.IntCell? then Some(cell.n) else None, if cell.FloatCell? then Some(cell.x) else None,
          if cell.BoolCell? then Some(cell.b) else None, if cell.StrCell? then Some(cell.s) else None)
  }

  /** The widths and ranges of the table's columns. */
  predicate Storable(row: TsRow) {
    |row.node| <= 64 && |row.device| <= 64 && |row.param| <= 64 && |row.dataType| <= 16 &&
    (row.vInt.Some? ==> -0x8000_0000_0000_0000 <= row.vInt.value < 0x8000_0000_0000_0000)
  }

  /** The row of one point; none when the type is not a string, the conversion raises or the row does not fit. */
  function PointRow(rt: Runtime, series: Series, dt: Json, ts: int, v: Json): Option<TsRow> {
    if !dt.Str? || Typed(rt, dt.s, v).None? then None
    else
      var row := RowOf(series, dt.s, ts, Typed(rt, dt.s, v).value);
      if Storable(row) then Some(row) else None
  }

  /** All the rows of an insert, or none. */
  function InsertRows(rt: Runtime, series: Series, dt: Json, points: seq<(int, Json)>): (rows: Option<seq<TsRow>>)
    ensures rows.Some? ==> |rows.value| == |points|
    ensures rows.Some? ==> forall i :: 0 <= i < |points| ==>
      PointRow(rt, series, dt, points[i].0, points[i].1) == Some(rows.value[i])
    ensures rows.None? ==> exists i :: 0 <= i < |points| && PointRow(rt, series, dt, points[i].0, points[i].1).None?
  {
    if points == [] then Some([])
    else
      var (front, last) := (points[..|points| - 1], points[|points| - 1]);
      match InsertRows(rt, series, dt, front)
      case None => None
      case Some(rows) =>
        match PointRow(rt, series, dt, last.0, last.1)
        case None => None
        case Some(row) => Some(rows + [row])
  }

  /** `insert_tsdata`: nothing is written unless every point converts and fits. */
  method InsertTsdata(
    db: Database, rt: Runtime, series: Series, dt: Json, points: seq<(int, Json)>) returns (r: Result<int>)
    modifies db`tsdata
    ensures match InsertRows(rt, series, dt, points)
      case Some(rows) => r == Ok(|points|) && db.tsdata == old(db.tsdata) + rows
      case None => r == Err(Crash) && db.tsdata == old(db.tsdata)
  {
    if points == [] { return Ok(0); }
    if !dt.Str? { return Err(Crash); }
    var rows: seq<TsRow> := [];
    for i := 0 to |points|
      invariant db.tsdata == old(db.tsdata)
      invariant InsertRows(rt, series, dt, points[..i]) == Some(rows)
    {
      var (ts, v) := points[i];
      var blank := TsRow(ts, series.node, series.device, series.param, dt.s, None, None, None, None);
      var row := Coerce(rt, blank, v);
      assert points[..i + 1][..i] == points[..i];
      if row.None? || !Storable(row.value) {
        if row.Some? { ReadBack(row.value, series, dt.s, Typed(rt, dt.s, v).value); }
        InsertFails(rt, series, dt, points, i);
        return Err(Crash);
      }
      ReadBack(row.value, series, dt.s, Typed(rt, dt.s, v).value);
      rows := rows + [row.value];
    }
    assert points[..|points|] == points;
    db.tsdata := db.tsdata + rows;
    return Ok(|rows|);
  }

  lemma InsertFails(rt: Runtime, series: Series, dt: Json, points: seq<(int, Json)>, i: nat)
    requires i < |points| && PointRow(rt, series, dt, points[i].0, points[i].1).None?
    ensures InsertRows(rt, series, dt, points).None?
  {
  }

  /** A row is determined by what its columns read. */
  lemma ReadBack(row: TsRow, series: Series, dt: string, cell: Cell)
    requires row.(vInt := None, vFloat := None, vBool := None, vStr := None) ==
      TsRow(row.ts, series.node, series.device, series.param, dt, None, None, None, None)
    requires cell != NoValue && ReadColumn(row, ValueColumn(dt)) == cell
    requires forall c :: c != ValueColumn(dt) ==> ReadColumn(row, c) == NoValue
    ensures row == RowOf(series, dt, row.ts, cell)
  {
    assert forall c :: ReadColumn(row, c) == NoValue || c == ValueColumn(dt);
    assert ReadColumn(row, ValueInt) == NoValue || ValueColumn(dt) == ValueInt;
    assert ReadColumn(row, ValueFloat) == NoValue || ValueColumn(dt) == ValueFloat;
    assert ReadColumn(row, ValueBool) == NoValue || ValueColumn(dt) == ValueBool;
    assert ReadColumn(row, ValueStr) == NoValue || ValueColumn(dt) == ValueStr;
  }

  /** The typed-column round trip: the column a query picks for the data type reads back exactly the
      converted value, and the other three hold nothing. */
  lemma ColumnRoundTrip(rt: Runtime, series: Series, dt: Json, ts: int, v: Json)
    requires PointRow(rt, series, dt, ts, v).Some?
    ensures
      var row := PointRow(rt, series, dt, ts, v).value;
      row.dataType == dt.s && row.ts == ts &&
      Some(ReadColumn(row, ValueColumn(row.dataType))) == Typed(rt, dt.s, v) &&
      ReadColumn(row, ValueColumn(row.dataType)) != NoValue &&
      forall c :: c != ValueColumn(row.dataType) ==> ReadColumn(row, c) == NoValue
  {
  }

  // ---------- Messages ----------

  /** What the `name` of an entry or message leads to. */
  datatype Name = Named(device: string, param: string) | Skipped | NameRaises

  function NameOf(fields: map<string, Json>): Name {
    match GetOr(fields, "name", Str(""))
    case Str(name) => (match Cut(name, '.') case None => Skipped case Some((d, p)) => Named(d, p))
    case Arr(items) => if Str(".") in items then NameRaises else Skipped
    case Obj(keys) => if "." in keys then NameRaises else Skipped
    case _ => NameRaises
  }

  function StampOf(rt: Runtime, fields: map<string, Json>): Stamp {
    if "t" !in fields then Rejected
    else match ToInt(rt, fields["t"])
      case None => Rejected
      case Some(n) => rt.clock(n)
  }

  function TypeOf(fields: map<string, Json>): Json {
    GetOr(fields, "dt", Str("int"))
  }

  /** `_handle_simple_tsdata`: the rows stored, or none when it raises. */
  function SimpleRows(rt: Runtime, node: NodeId, payload: Json): Option<seq<TsRow>> {
    if !payload.Obj? then Some([])
    else match NameOf(payload.fields)
      case NameRaises => None
      case Skipped => Some([])
      case Named(d, p) =>
        match StampOf(rt, payload.fields)
        case Rejected => Some([])
        case Overflow => None
        case At(ts) =>
          InsertRows(rt, Series(node, d, p), TypeOf(payload.fields), [(ts, GetOr(payload.fields, "v", Null))])
  }

  /** The elements a loop over `records` visits; none when there is nothing to loop over. Strings and
      objects are looped over too, but none of their elements is a record. */
  function RecordsOf(fields: map<string, Json>): Option<seq<Json>> {
    var records := GetOr(fields, "records", Null);
    if !Truthy(records) then Some([])
    else match records
      case Arr(items) => Some(items)
      case Str(_) => Some([])
      case Obj(_) => Some([])
      case _ => None
  }

  /** The points of the well-timed records; none when a time overflows. */
  function PointsOf(rt: Runtime, records: seq<Json>): Option<seq<(int, Json)>> {
    if records == [] then Some([])
    else
      var (front, r) := (PointsOf(rt, records[..|records| - 1]), records[|records| - 1]);
      if front.None? || !r.Obj? then front
      else match StampOf(rt, r.fields)
        case Rejected => front
        case Overflow => None
        case At(ts) => Some(front.value + [(ts, GetOr(r.fields, "v", Null))])
  }

  /** One entry of a bulk message: the rows stored, or none when it raises. */
  function EntryRows(rt: Runtime, node: NodeId, entry: Json): Option<seq<TsRow>> {
    if !entry.Obj? then None
    else match NameOf(entry.fields)
      case NameRaises => None
      case Skipped => Some([])
      case Named(d, p) =>
        var records := RecordsOf(entry.fields);
        if records.None? || PointsOf(rt, records.value).None? then None
        else
          var points := PointsOf(rt, records.value).value;
          if points == [] then Some([]) else InsertRows(rt, Series(node, d, p), TypeOf(entry.fields), points)
  }

  /** The rows stored by the entries of a bulk message: an entry that raises ends it. */
  function EntriesRows(rt: Runtime, node: NodeId, entries: seq<Json>): seq<TsRow> {
    if entries == [] then []
    else match EntryRows(rt, node, entries[0])
      case None => []
      case Some(rows) => rows + EntriesRows(rt, node, entries[1..])
  }

  /** `_handle_tsdata`. */
  function BulkRows(rt: Runtime, node: NodeId, payload: Json): seq<TsRow> {
    if !payload.Obj? then []
    else match GetOr(payload.fields, "ts_data", Null)
      case Arr(entries) => EntriesRows(rt, node, entries)
      case _ => []
  }

  method HandleSimpleTsdata(db: Database, rt: Runtime, node: NodeId, payload: Json)
    modifies db`tsdata
    ensures db.tsdata == old(db.tsdata) + MessageRows(rt, node, payload)
  {
    if !payload.Obj? { return; }
    match NameOf(payload.fields) {
      case NameRaises => return;
      case Skipped => return;
      case Named(d, p) =>
        match StampOf(rt, payload.fields) {
          case Rejected => return;
          case Overflow => return;
          case At(ts) =>
            var point := (ts, GetOr(payload.fields, "v", Null));
            var _ := InsertTsdata(db, rt, Series(node, d, p), TypeOf(payload.fields), [point]);
        }
    }
  }

  /** The inner loop of the bulk handler. */
  method CollectPoints(rt: Runtime, records: seq<Json>) returns (points: Option<seq<(int, Json)>>)
    ensures points == PointsOf(rt, records)
  {
    var collected: seq<(int, Json)> := [];
    for i := 0 to |records|
      invariant PointsOf(rt, records[..i]) == Some(collected)
    {
      assert records[..i + 1][..i] == records[..i];
      if records[i].Obj? {
        match StampOf(rt, records[i].fields) {
          case Rejected =>
          case Overflow =>
            OverflowSticks(rt, records, i);
            return None;
          case At(ts) => collected := collected + [(ts, GetOr(records[i].fields, "v", Null))];
        }
      }
    }
    assert records[..|records|] == records;
    return Some(collected);
  }

  lemma {:induction false} OverflowSticks(rt: Runtime, records: seq<Json>, i: nat)
    requires i < |records| && records[i].Obj? && StampOf(rt, records[i].fields) == Overflow
    ensures PointsOf(rt, records).None?
  {
    if i < |records| - 1 {
      OverflowSticks(rt, records[..|records| - 1], i);
    }
  }

  method HandleEntry(db: Database, rt: Runtime, node: NodeId, entry: Json) returns (raised: bool)
    modifies db`tsdata
    ensures match EntryRows(rt, node, entry)
      case Some(rows) => !raised && db.tsdata == old(db.tsdata) + rows
      case None => raised && db.tsdata == old(db.tsdata)
  {
    if !entry.Obj? { return true; }
    match NameOf(entry.fields) {
      case NameRaises => return true;
      case Skipped => return false;
      case Named(d, p) =>
        var records := RecordsOf(entry.fields);
        if records.None? { return true; }
        var points := CollectPoints(rt, records.value);
        if points.None? { return true; }
        if points.value == [] { return false; }
        var r := InsertTsdata(db, rt, Series(node, d, p), TypeOf(entry.fields), points.value);
        return r.Err?;
    }
  }

  method HandleTsdata(db: Database, rt: Runtime, node: NodeId, payload: Json)
    modifies db`tsdata
    ensures db.tsdata == old(db.tsdata) + BulkRows(rt, node, payload)
  {
    if !payload.Obj? { return; }
    var series := GetOr(payload.fields, "ts_data", Null);
    if !series.Arr? { return; }
    HandleEntries(db, rt, node, series.items);
  }

  method HandleEntries(db: Database, rt: Runtime, node: NodeId, entries: seq<Json>)
    modifies db`tsdata
    ensures db.tsdata == old(db.tsdata) + EntriesRows(rt, node, entries)
  {
    ghost var stored: seq<TsRow> := [];
    assert entries[0..] == entries;
    for i := 0 to |entries|
      invariant db.tsdata == old(db.tsdata) + stored
      invariant EntriesRows(rt, node, entries) == stored + EntriesRows(rt, node, entries[i..])
    {
      EntriesStep(rt, node, entries, i, stored);
      ghost var rows := EntryRows(rt, node, entries[i]);
      var raised := HandleEntry(db, rt, node, entries[i]);
      if raised { return; }
      AppendAssoc(old(db.tsdata), stored, rows.value);
      stored := stored + rows.value;
    }
  }

  lemma EntriesStep(rt: Runtime, node: NodeId, entries: seq<Json>, i: nat, stored: seq<TsRow>)
    requires i < |entries|
    ensures match EntryRows(rt, node, entries[i])
      case None => stored + EntriesRows(rt, node, entries[i..]) == stored
      case Some(rows) =>
        stored + EntriesRows(rt, node, entries[i..]) == (stored + rows) + EntriesRows(rt, node, entries[i + 1..])
  {
    var rest := entries[i..];
    assert rest[0] == entries[i] && rest[1..] == entries[i + 1..];
    if EntryRows(rt, node, entries[i]).Some? {
      AppendAssoc(stored, EntryRows(rt, node, entries[i]).value, EntriesRows(rt, node, rest[1..]));
    }
  }

  // ---------- What a bulk message stores ----------

  predicate WellTimed(rt: Runtime, r: Json) {
    r.Obj? && StampOf(rt, r.fields).At?
  }

  function PointOf(rt: Runtime, r: Json): (int, Json)
    requires WellTimed(rt, r)
  {
    (StampOf(rt, r.fields).ts, GetOr(r.fields, "v", Null))
  }

  /** The points are those of the well-timed records, one for one and in order. */
  lemma {:induction false} PointsAreWellTimed(rt: Runtime, records: seq<Json>)
    ensures
      var kept := Filter(records, (r: Json) => WellTimed(rt, r));
      match PointsOf(rt, records)
      case None => exists i :: 0 <= i < |records| && records[i].Obj? && StampOf(rt, records[i].fields) == Overflow
      case Some(points) =>
        |points| == |kept| &&
        forall i :: 0 <= i < |kept| ==> WellTimed(rt, kept[i]) && points[i] == PointOf(rt, kept[i])
  {
    if records != [] {
      var front := records[..|records| - 1];
      PointsAreWellTimed(rt, front);
      if PointsOf(rt, front).None? {
        var i :| 0 <= i < |front| && front[i].Obj? && StampOf(rt, front[i].fields) == Overflow;
        assert records[i] == front[i];
      }
      var kept := Filter(front, (r: Json) => WellTimed(rt, r));
      assert forall i :: 0 <= i < |kept| ==> kept[i] in kept;
    }
  }

  /** The number of entries handled before one raises. */
  function Handled(rt: Runtime, node: NodeId, entries: seq<Json>): (k: nat)
    ensures k <= |entries|
    ensures forall i :: 0 <= i < k ==> EntryRows(rt, node, entries[i]).Some?
    ensures k < |entries| ==> EntryRows(rt, node, entries[k]).None?
  {
    if entries == [] || EntryRows(rt, node, entries[0]).None? then 0 else 1 + Handled(rt, node, entries[1..])
  }

  /** `row` is the `j`-th row of `entry`: that of its `j`-th well-timed record. */
  ghost predicate RowFrom(rt: Runtime, node: NodeId, entry: Json, j: nat, row: TsRow) {
    entry.Obj? && NameOf(entry.fields).Named? && RecordsOf(entry.fields).Some? &&
    var kept := Filter(RecordsOf(entry.fields).value, (r: Json) => WellTimed(rt, r));
    j < |kept| && WellTimed(rt, kept[j]) &&
    var (name, point) := (NameOf(entry.fields), PointOf(rt, kept[j]));
    PointRow(rt, Series(node, name.device, name.param), TypeOf(entry.fields), point.0, point.1) == Some(row)
  }

  /** Within an entry: every well-timed record of a well-named entry is stored, or the entry stores nothing. */
  lemma EntryStoresAll(rt: Runtime, node: NodeId, entry: Json)
    ensures EntryRows(rt, node, entry).Some? ==>
      (var rows := EntryRows(rt, node, entry).value;
       (forall j :: 0 <= j < |rows| ==> RowFrom(rt, node, entry, j, rows[j])) &&
       (forall j: nat, row :: RowFrom(rt, node, entry, j, row) ==> j < |rows| && rows[j] == row))
  {
    if entry.Obj? && RecordsOf(entry.fields).Some? {
      var records := RecordsOf(entry.fields).value;
      PointsAreWellTimed(rt, records);
      var kept := Filter(records, (r: Json) => WellTimed(rt, r));
      assert forall i :: 0 <= i < |kept| ==> kept[i] in kept;
    }
  }

  /** `row` comes from one of the entries handled. */
  ghost predicate FromHandled(rt: Runtime, node: NodeId, entries: seq<Json>, row: TsRow) {
    exists i, j: nat :: 0 <= i < Handled(rt, node, entries) && RowFrom(rt, node, entries[i], j, row)
  }

  lemma FromFirstOrRest(rt: Runtime, node: NodeId, entries: seq<Json>, row: TsRow)
    requires entries != [] && EntryRows(rt, node, entries[0]).Some?
    ensures FromHandled(rt, node, entries, row) <==>
      row in EntryRows(rt, node, entries[0]).value || FromHandled(rt, node, entries[1..], row)
  {
    var (rows, rest, k) := (EntryRows(rt, node, entries[0]).value, entries[1..], Handled(rt, node, entries));
    EntryStoresAll(rt, node, entries[0]);
    assert row in rows <==> exists j: nat :: RowFrom(rt, node, entries[0], j, row) by {
      if row in rows {
        var j :| 0 <= j < |rows| && rows[j] == row;
        assert RowFrom(rt, node, entries[0], j, row);
      }
    }
    assert k == 1 + Handled(rt, node, rest);
    assert forall i :: 0 <= i < |rest| ==> rest[i] == entries[i + 1];
    if FromHandled(rt, node, rest, row) {
      var i, j: nat :| 0 <= i < k - 1 && RowFrom(rt, node, rest[i], j, row);
      assert RowFrom(rt, node, entries[i + 1], j, row);
    }
    if i, j: nat :| 0 < i < k && RowFrom(rt, node, entries[i], j, row) {
      assert RowFrom(rt, node, rest[i - 1], j, row);
    }
  }

  /** Across entries: exactly the rows of the entries handled before one raises. */
  lemma {:induction false} BulkStoresExactly(rt: Runtime, node: NodeId, entries: seq<Json>, row: TsRow)
    ensures row in EntriesRows(rt, node, entries) <==> FromHandled(rt, node, entries, row)
  {
    if entries != [] && EntryRows(rt, node, entries[0]).Some? {
      BulkStoresExactly(rt, node, entries[1..], row);
      FromFirstOrRest(rt, node, entries, row);
    }
  }

  /** The rows of the first `k` entries, one entry after the other. */
  function RowsUpTo(rt: Runtime, node: NodeId, entries: seq<Json>, k: nat): seq<TsRow>
    requires k <= |entries| && forall i :: 0 <= i < k ==> EntryRows(rt, node, entries[i]).Some?
  {
    if k == 0 then [] else RowsUpTo(rt, node, entries, k - 1) + EntryRows(rt, node, entries[k - 1]).value
  }

  lemma {:induction false} RowsUpToCons(rt: Runtime, node: NodeId, entries: seq<Json>, k: nat)
    requires 0 < k <= |entries| && forall i :: 0 <= i < k ==> EntryRows(rt, node, entries[i]).Some?
    ensures RowsUpTo(rt, node, entries, k) ==
      EntryRows(rt, node, entries[0]).value + RowsUpTo(rt, node, entries[1..], k - 1)
  {
    if k > 1 {
      RowsUpToCons(rt, node, entries, k - 1);
      AppendAssoc(
        EntryRows(rt, node, entries[0]).value, RowsUpTo(rt, node, entries[1..], k - 2),
        EntryRows(rt, node, entries[k - 1]).value);
    }
  }

  /** And these in order and once each: the table grows by the rows of the first entry, then those of the
      second, and so on up to the first that raises. */
  lemma {:induction false} BulkStoresInOrder(rt: Runtime, node: NodeId, entries: seq<Json>)
    ensures EntriesRows(rt, node, entries) == RowsUpTo(rt, node, entries, Handled(rt, node, entries))
  {
    if entries != [] && EntryRows(rt, node, entries[0]).Some? {
      BulkStoresInOrder(rt, node, entries[1..]);
      RowsUpToCons(rt, node, entries, Handled(rt, node, entries));
    }
  }

  // ---------- In terms of the messages ----------

  /** `int(v)` is `n`: an integer, the integer part of a number, or what a text is read as. */
  ghost predicate IsInt(rt: Runtime, v: Json, n: int) {
    match v
    case Bool(b) => n == (if b then 1 else 0)
    case Int(m) => n == m
    case Float(x) => if x < 0.0 then n as real - 1.0 < x <= n as real else n as real <= x < n as real + 1.0
    case Str(text) => rt.parseInt(text) == Some(n)
    case _ => false
  }

  ghost predicate IsFloat(rt: Runtime, v: Json, x: real) {
    match v
    case Bool(b) => x == (if b then 1.0 else 0.0)
    case Int(m) => x == m as real
    case Float(y) => x == y
    case Str(text) => rt.parseFloat(text) == Some(x)
    case _ => false
  }

  lemma ToIntIff(rt: Runtime, v: Json, n: int)
    ensures ToInt(rt, v) == Some(n) <==> IsInt(rt, v, n)
  {
    if v.Float? {
      TruncateIff(v.x, n);
    }
  }

  lemma TruncateIff(x: real, n: int)
    ensures Truncate(x) == n <==> if x < 0.0 then n as real - 1.0 < x <= n as real else n as real <= x < n as real + 1.0
  {
    if x < 0.0 {
      FloorIff(-x, -n);
    } else {
      FloorIff(x, n);
    }
  }

  lemma FloorIff(x: real, n: int)
    ensures x.Floor == n <==> n as real <= x < n as real + 1.0
  {
    var m := x.Floor;
    assert m as real <= x < m as real + 1.0;
  }

  lemma ToFloatIff(rt: Runtime, v: Json, x: real)
    ensures ToFloat(rt, v) == Some(x) <==> IsFloat(rt, v, x)
  {
  }

  /** The row holds `v` in the one column of its data type. */
  ghost predicate Holds(rt: Runtime, row: TsRow, v: Json) {
    if row.dataType == "int" then
      row.vInt.Some? && IsInt(rt, v, row.vInt.value) && row.vFloat.None? && row.vBool.None? && row.vStr.None?
    else if row.dataType == "float" || row.dataType == "number" then
      row.vInt.None? && row.vFloat.Some? && IsFloat(rt, v, row.vFloat.value) && row.vBool.None? && row.vStr.None?
    else if row.dataType == "bool" then
      row.vInt.None? && row.vFloat.None? && row.vBool == Some(Truthy(v)) && row.vStr.None?
    else row.vInt.None? && row.vFloat.None? && row.vBool.None? && row.vStr == Some(rt.render(v))
  }

  ghost predicate Fits(row: TsRow) {
    |row.node| <= 64 && |row.device| <= 64 && |row.param| <= 64 && |row.dataType| <= 16 &&
    (row.vInt.Some? ==> -0x8000_0000_0000_0000 <= row.vInt.value <= 0x7fff_ffff_ffff_ffff)
  }

  lemma TypedIff(rt: Runtime, row: TsRow, v: Json)
    ensures Holds(rt, row, v) <==>
      Typed(rt, row.dataType, v).Some? &&
      row == RowOf(Series(row.node, row.device, row.param), row.dataType, row.ts, Typed(rt, row.dataType, v).value)
  {
    if row.vInt.Some? { ToIntIff(rt, v, row.vInt.value); }
    if row.vFloat.Some? { ToFloatIff(rt, v, row.vFloat.value); }
  }

  lemma PointRowIff(rt: Runtime, series: Series, dt: Json, ts: int, v: Json, row: TsRow)
    ensures PointRow(rt, series, dt, ts, v) == Some(row) <==>
      dt == Str(row.dataType) && row.ts == ts && series == Series(row.node, row.device, row.param) &&
      Holds(rt, row, v) && Fits(row)
  {
    TypedIff(rt, row, v);
  }

  /** The record's time is `n` seconds as an integer, and the clock's instant for that is `stamp`. */
  ghost predicate TimeIs(rt: Runtime, record: map<string, Json>, stamp: Stamp) {
    "t" in record && exists n :: IsInt(rt, record["t"], n) && rt.clock(n) == stamp
  }

  lemma StampIff(rt: Runtime, record: map<string, Json>, stamp: Stamp)
    requires stamp != Rejected
    ensures StampOf(rt, record) == stamp <==> TimeIs(rt, record, stamp)
  {
    if "t" in record {
      forall n ensures ToInt(rt, record["t"]) == Some(n) <==> IsInt(rt, record["t"], n) {
        ToIntIff(rt, record["t"], n);
      }
    }
  }

  /** The row is what the record makes of itself in the entry: its node the topic's, its device and param the
      name's parts around the first dot, its time, type and value as given or by default. */
  ghost predicate StoredAs(rt: Runtime, node: NodeId, entry: map<string, Json>, record: map<string, Json>, row: TsRow) {
    row.node == node && '.' !in row.device &&
    "name" in entry && entry["name"] == Str(row.device + "." + row.param) &&
    TimeIs(rt, record, At(row.ts)) &&
    (if "dt" in entry then entry["dt"] == Str(row.dataType) else row.dataType == "int") &&
    Holds(rt, row, if "v" in record then record["v"] else Null) && Fits(row)
  }

  lemma NameIff(entry: map<string, Json>, device: string, param: string)
    ensures NameOf(entry) == Named(device, param) <==>
      '.' !in device && "name" in entry && entry["name"] == Str(device + "." + param)
  {
    if "name" in entry && entry["name"].Str? {
      CutIff(entry["name"].s, '.', device, param);
      assert device + ['.'] + param == device + "." + param;
    }
  }

  lemma StoredIff(rt: Runtime, node: NodeId, entry: map<string, Json>, record: map<string, Json>, row: TsRow)
    ensures StoredAs(rt, node, entry, record, row) <==>
      NameOf(entry) == Named(row.device, row.param) && StampOf(rt, record) == At(row.ts) && row.node == node &&
      PointRow(rt, Series(node, row.device, row.param), TypeOf(entry), row.ts, GetOr(record, "v", Null)) == Some(row)
  {
    NameIff(entry, row.device, row.param);
    StampIff(rt, record, At(row.ts));
    PointRowIff(
      rt, Series(node, row.device, row.param), TypeOf(entry), row.ts, GetOr(record, "v", Null), row);
  }

  /** A simple message stores the row its own fields make, if they make one, and never more than one. */
  lemma SimpleStoresIff(rt: Runtime, node: NodeId, payload: Json, row: TsRow)
    ensures row in MessageRows(rt, node, payload) <==>
      payload.Obj? && StoredAs(rt, node, payload.fields, payload.fields, row)
    ensures |MessageRows(rt, node, payload)| <= 1
  {
    if payload.Obj? {
      SimpleStores(rt, node, payload.fields);
      StoredIff(rt, node, payload.fields, payload.fields, row);
    }
  }

  /** The record is one of the entry's. */
  ghost predicate RecordOf(entry: map<string, Json>, record: map<string, Json>) {
    "records" in entry && entry["records"].Arr? && Obj(record) in entry["records"].items
  }

  /** The entry raises: it is no object, its name cannot be searched for a dot or then cut, or, with a name, its
      records cannot be looped over, or one has a time out of range, or a good time and no row. */
  ghost predicate Raises(rt: Runtime, node: NodeId, entry: Json) {
    !entry.Obj? ||
    ("name" in entry.fields && Unsearchable(entry.fields["name"])) ||
    ("name" in entry.fields && entry.fields["name"].Str? && '.' in entry.fields["name"].s &&
     (("records" in entry.fields && Truthy(entry.fields["records"]) &&
       (entry.fields["records"].Bool? || entry.fields["records"].Int? || entry.fields["records"].Float?)) ||
      exists record ::
        RecordOf(entry.fields, record) &&
        (TimeIs(rt, record, Overflow) ||
         ((exists ts :: TimeIs(rt, record, At(ts))) && forall row :: !StoredAs(rt, node, entry.fields, record, row)))))
  }

  /** `"." in name` or, if that is true, `name.split` raises. */
  ghost predicate Unsearchable(name: Json) {
    match name
    case Str(_) => false
    case Arr(items) => Str(".") in items
    case Obj(fields) => "." in fields
    case _ => true
  }

  lemma NamesAre(entry: map<string, Json>)
    ensures NameOf(entry) == NameRaises <==> "name" in entry && Unsearchable(entry["name"])
    ensures NameOf(entry).Named? <==> "name" in entry && entry["name"].Str? && '.' in entry["name"].s
  {
  }

  lemma RecordsAre(entry: map<string, Json>)
    ensures RecordsOf(entry).None? <==>
      "records" in entry && Truthy(entry["records"]) &&
      (entry["records"].Bool? || entry["records"].Int? || entry["records"].Float?)
    ensures RecordsOf(entry).Some? ==>
      forall record :: Obj(record) in RecordsOf(entry).value <==> RecordOf(entry, record)
  {
  }

  lemma NoPointsIff(rt: Runtime, records: seq<Json>)
    ensures PointsOf(rt, records).None? <==> exists record :: Obj(record) in records && TimeIs(rt, record, Overflow)
  {
    PointsAreWellTimed(rt, records);
    if PointsOf(rt, records).None? {
      var i :| 0 <= i < |records| && records[i].Obj? && StampOf(rt, records[i].fields) == Overflow;
      StampIff(rt, records[i].fields, Overflow);
      assert Obj(records[i].fields) == records[i];
    } else if record :| Obj(record) in records && TimeIs(rt, record, Overflow) {
      StampIff(rt, record, Overflow);
      var i :| 0 <= i < |records| && records[i] == Obj(record);
      OverflowSticks(rt, records, i);
    }
  }

  /** A good record in a named entry either has its row or has none. */
  lemma RowlessIff(rt: Runtime, node: NodeId, entry: map<string, Json>, record: map<string, Json>)
    requires NameOf(entry).Named? && StampOf(rt, record).At?
    ensures
      var series := Series(node, NameOf(entry).device, NameOf(entry).param);
      PointRow(rt, series, TypeOf(entry), StampOf(rt, record).ts, GetOr(record, "v", Null)).None? <==>
        forall row :: !StoredAs(rt, node, entry, record, row)
  {
    var series := Series(node, NameOf(entry).device, NameOf(entry).param);
    var point := PointRow(rt, series, TypeOf(entry), StampOf(rt, record).ts, GetOr(record, "v", Null));
    if point.Some? {
      StoredIff(rt, node, entry, record, point.value);
    }
    forall row | StoredAs(rt, node, entry, record, row) ensures point.Some? {
      StoredIff(rt, node, entry, record, row);
    }
  }

  ghost predicate Rowless(rt: Runtime, series: Series, dt: Json, r: Json) {
    WellTimed(rt, r) && PointRow(rt, series, dt, PointOf(rt, r).0, PointOf(rt, r).1).None?
  }

  lemma NotInsertedIff(rt: Runtime, series: Series, dt: Json, records: seq<Json>)
    requires PointsOf(rt, records).Some?
    ensures InsertRows(rt, series, dt, PointsOf(rt, records).value).None? <==>
      exists r :: r in records && Rowless(rt, series, dt, r)
  {
    PointsAreWellTimed(rt, records);
    var points := PointsOf(rt, records).value;
    var kept := Filter(records, (r: Json) => WellTimed(rt, r));
    if InsertRows(rt, series, dt, points).None? {
      var i :| 0 <= i < |points| && PointRow(rt, series, dt, points[i].0, points[i].1).None?;
      assert kept[i] in kept && Rowless(rt, series, dt, kept[i]);
    }
    if r :| r in records && Rowless(rt, series, dt, r) {
      assert r in kept;
      var i :| 0 <= i < |kept| && kept[i] == r;
      assert points[i] == PointOf(rt, r);
    }
  }

  lemma RowlessRecordIff(rt: Runtime, node: NodeId, entry: map<string, Json>, records: seq<Json>)
    requires NameOf(entry).Named?
    ensures
      var series := Series(node, NameOf(entry).device, NameOf(entry).param);
      (exists r :: r in records && Rowless(rt, series, TypeOf(entry), r)) <==>
      exists record ::
        Obj(record) in records && (exists ts :: TimeIs(rt, record, At(ts))) &&
        forall row :: !StoredAs(rt, node, entry, record, row)
  {
    var series := Series(node, NameOf(entry).device, NameOf(entry).param);
    if r :| r in records && Rowless(rt, series, TypeOf(entry), r) {
      assert Obj(r.fields) == r;
      StampIff(rt, r.fields, StampOf(rt, r.fields));
      RowlessIff(rt, node, entry, r.fields);
    }
    if record :|
      Obj(record) in records && (exists ts :: TimeIs(rt, record, At(ts))) &&
      forall row :: !StoredAs(rt, node, entry, record, row)
    {
      var ts :| TimeIs(rt, record, At(ts));
      StampIff(rt, record, At(ts));
      RowlessIff(rt, node, entry, record);
      assert Rowless(rt, series, TypeOf(entry), Obj(record));
    }
  }

  /** An entry stores nothing and ends its message exactly in these cases. */
  lemma RaisesIff(rt: Runtime, node: NodeId, entry: Json)
    ensures EntryRows(rt, node, entry).None? <==> Raises(rt, node, entry)
  {
    if entry.Obj? {
      NamesAre(entry.fields);
      RecordsAre(entry.fields);
      if NameOf(entry.fields).Named? && RecordsOf(entry.fields).Some? {
        NoPointsIff(rt, RecordsOf(entry.fields).value);
        RowlessRecordIff(rt, node, entry.fields, RecordsOf(entry.fields).value);
        if PointsOf(rt, RecordsOf(entry.fields).value).Some? {
          NotInsertedIff(
            rt, Series(node, NameOf(entry.fields).device, NameOf(entry.fields).param), TypeOf(entry.fields),
            RecordsOf(entry.fields).value);
        }
      }
    }
  }

  /** The row is that of a record of one of the first `k` entries. */
  ghost predicate AmongFirst(rt: Runtime, node: NodeId, entries: seq<Json>, k: nat, row: TsRow)
    requires k <= |entries|
  {
    exists i, record ::
      0 <= i < k && entries[i].Obj? && RecordOf(entries[i].fields, record) &&
      StoredAs(rt, node, entries[i].fields, record, row)
  }

  lemma RowFromIff(rt: Runtime, node: NodeId, entry: map<string, Json>, row: TsRow)
    ensures (exists j: nat :: RowFrom(rt, node, Obj(entry), j, row)) <==>
      exists record :: RecordOf(entry, record) && StoredAs(rt, node, entry, record, row)
  {
    RecordsAre(entry);
    if j: nat :| RowFrom(rt, node, Obj(entry), j, row) {
      var r := Filter(RecordsOf(entry).value, (r: Json) => WellTimed(rt, r))[j];
      assert r in Filter(RecordsOf(entry).value, (r: Json) => WellTimed(rt, r)) && Obj(r.fields) == r;
      StoredIff(rt, node, entry, r.fields, row);
    }
    if record :| RecordOf(entry, record) && StoredAs(rt, node, entry, record, row) {
      StoredIff(rt, node, entry, record, row);
      var kept := Filter(RecordsOf(entry).value, (r: Json) => WellTimed(rt, r));
      assert Obj(record) in kept;
      var j: nat :| j < |kept| && kept[j] == Obj(record);
      assert RowFrom(rt, node, Obj(entry), j, row);
    }
  }

  lemma HandledIs(rt: Runtime, node: NodeId, entries: seq<Json>)
    ensures StopsAt(rt, node, entries, Handled(rt, node, entries))
  {
    forall i | 0 <= i < |entries| ensures EntryRows(rt, node, entries[i]).None? <==> Raises(rt, node, entries[i]) {
      RaisesIff(rt, node, entries[i]);
    }
  }

  /** The first entry that raises, if any. */
  ghost predicate StopsAt(rt: Runtime, node: NodeId, entries: seq<Json>, k: nat) {
    k <= |entries| && (forall i :: 0 <= i < k ==> !Raises(rt, node, entries[i])) &&
    (k < |entries| ==> Raises(rt, node, entries[k]))
  }

  lemma HandledIff(rt: Runtime, node: NodeId, entries: seq<Json>, row: TsRow)
    ensures FromHandled(rt, node, entries, row) <==>
      AmongFirst(rt, node, entries, Handled(rt, node, entries), row)
  {
    var k := Handled(rt, node, entries);
    if i, j: nat :| 0 <= i < k && RowFrom(rt, node, entries[i], j, row) {
      RowFromIff(rt, node, entries[i].fields, row);
      assert Obj(entries[i].fields) == entries[i];
    }
    if i, record :|
      0 <= i < k && entries[i].Obj? && RecordOf(entries[i].fields, record) &&
      StoredAs(rt, node, entries[i].fields, record, row)
    {
      RowFromIff(rt, node, entries[i].fields, row);
      assert Obj(entries[i].fields) == entries[i];
    }
  }

  lemma EntriesStoreIff(rt: Runtime, node: NodeId, entries: seq<Json>, row: TsRow)
    ensures row in EntriesRows(rt, node, entries) <==>
      exists k: nat :: StopsAt(rt, node, entries, k) && AmongFirst(rt, node, entries, k, row)
  {
    HandledIs(rt, node, entries);
    BulkStoresExactly(rt, node, entries, row);
    HandledIff(rt, node, entries, row);
    if k: nat :| StopsAt(rt, node, entries, k) && AmongFirst(rt, node, entries, k, row) {
      StopsOnce(rt, node, entries, k, Handled(rt, node, entries));
    }
  }

  lemma StopsOnce(rt: Runtime, node: NodeId, entries: seq<Json>, k: nat, l: nat)
    requires StopsAt(rt, node, entries, k) && StopsAt(rt, node, entries, l)
    ensures k == l
  {
  }

  /** A bulk message stores a row exactly if it is that of a record of an entry before the first that raises. */
  lemma BulkStoresIff(rt: Runtime, node: NodeId, payload: Json, row: TsRow)
    ensures row in BulkRows(rt, node, payload) <==>
      payload.Obj? && "ts_data" in payload.fields && payload.fields["ts_data"].Arr? &&
      exists k: nat ::
        StopsAt(rt, node, payload.fields["ts_data"].items, k) &&
        AmongFirst(rt, node, payload.fields["ts_data"].items, k, row)
  {
    if payload.Obj? && "ts_data" in payload.fields && payload.fields["ts_data"].Arr? {
      EntriesStoreIff(rt, node, payload.fields["ts_data"].items, row);
    }
  }

  // ---------- Bulk against simple messages ----------

  /** The simple message that carries one record of a bulk entry. */
  function SimpleOf(entry: map<string, Json>, r: map<string, Json>): Json {
    Obj((map k | k in {"name", "dt"} && k in entry :: entry[k]) + (map k | k in {"t", "v"} && k in r :: r[k]))
  }

  function SimplesOf(entry: map<string, Json>, records: seq<Json>): seq<Json> {
    if records == [] then []
    else
      var (front, r) := (SimplesOf(entry, records[..|records| - 1]), records[|records| - 1]);
      if r.Obj? then front + [SimpleOf(entry, r.fields)] else front
  }

  function AllSimples(entries: seq<Json>): seq<Json> {
    if entries == [] then []
    else
      (if entries[0].Obj? && RecordsOf(entries[0].fields).Some? then
         SimplesOf(entries[0].fields, RecordsOf(entries[0].fields).value)
       else [])
      + AllSimples(entries[1..])
  }

  function MessageRows(rt: Runtime, node: NodeId, payload: Json): seq<TsRow> {
    match SimpleRows(rt, node, payload)
    case Some(rows) => rows
    case None => []
  }

  /** A simple message with an object stores its row, if it has a name and a time and its value fits. */
  lemma SimpleStores(rt: Runtime, node: NodeId, fields: map<string, Json>)
    ensures MessageRows(rt, node, Obj(fields)) ==
      if NameOf(fields).Named? && StampOf(rt, fields).At? then
        var series := Series(node, NameOf(fields).device, NameOf(fields).param);
        match PointRow(rt, series, TypeOf(fields), StampOf(rt, fields).ts, GetOr(fields, "v", Null))
        case Some(row) => [row]
        case None => []
      else []
  {
    if NameOf(fields).Named? && StampOf(rt, fields).At? {
      var series := Series(node, NameOf(fields).device, NameOf(fields).param);
      var point := (StampOf(rt, fields).ts, GetOr(fields, "v", Null));
      var points := [point];
      assert points[0] == point;
      var rows := InsertRows(rt, series, TypeOf(fields), points);
      assert rows.Some? <==> PointRow(rt, series, TypeOf(fields), point.0, point.1).Some?;
    }
  }

  /** The rows a sequence of simple messages stores: a message that raises stores nothing. */
  function MessagesRows(rt: Runtime, node: NodeId, payloads: seq<Json>): seq<TsRow> {
    if payloads == [] then []
    else
      MessagesRows(rt, node, payloads[..|payloads| - 1]) + MessageRows(rt, node, payloads[|payloads| - 1])
  }

  lemma {:induction false} MessagesAppend(rt: Runtime, node: NodeId, a: seq<Json>, b: seq<Json>)
    ensures MessagesRows(rt, node, a + b) == MessagesRows(rt, node, a) + MessagesRows(rt, node, b)
  {
    if b == [] {
      assert a + b == a;
    } else {
      var (front, last) := (b[..|b| - 1], b[|b| - 1]);
      assert (a + b)[..|a + b| - 1] == a + front && (a + b)[|a + b| - 1] == last;
      MessagesAppend(rt, node, a, front);
      AppendAssoc(MessagesRows(rt, node, a), MessagesRows(rt, node, front), MessageRows(rt, node, last));
    }
  }

  lemma SimpleKeepsFields(entry: map<string, Json>, r: map<string, Json>)
    ensures
      var m := SimpleOf(entry, r).fields;
      NameOf(m) == NameOf(entry) && TypeOf(m) == TypeOf(entry) &&
      ("t" in m <==> "t" in r) && ("t" in r ==> m["t"] == r["t"]) && GetOr(m, "v", Null) == GetOr(r, "v", Null)
  {
  }

  lemma {:induction false} SkippedSimples(rt: Runtime, node: NodeId, entry: map<string, Json>, records: seq<Json>)
    requires NameOf(entry) == Skipped
    ensures MessagesRows(rt, node, SimplesOf(entry, records)) == []
  {
    if records != [] {
      SkippedSimples(rt, node, entry, records[..|records| - 1]);
      var r := records[|records| - 1];
      if r.Obj? {
        SimpleKeepsFields(entry, r.fields);
        LastMessage(rt, node, SimplesOf(entry, records[..|records| - 1]), SimpleOf(entry, r.fields));
      }
    }
  }

  /** A record of a named entry, sent alone, stores the row of its point. */
  lemma NamedSimple(rt: Runtime, node: NodeId, entry: map<string, Json>, r: map<string, Json>)
    requires NameOf(entry).Named?
    ensures
      var series := Series(node, NameOf(entry).device, NameOf(entry).param);
      MessageRows(rt, node, SimpleOf(entry, r)) ==
        match StampOf(rt, r)
        case At(ts) =>
          (match PointRow(rt, series, TypeOf(entry), ts, GetOr(r, "v", Null)) case Some(row) => [row] case None => [])
        case _ => []
  {
    SimpleKeepsFields(entry, r);
    SimpleStores(rt, node, SimpleOf(entry, r).fields);
  }

  lemma {:induction false} NamedSimples(
    rt: Runtime, node: NodeId, entry: map<string, Json>, series: Series, records: seq<Json>)
    requires NameOf(entry) == Named(series.device, series.param) && series.node == node && PointsOf(rt, records).Some?
    requires InsertRows(rt, series, TypeOf(entry), PointsOf(rt, records).value).Some?
    ensures MessagesRows(rt, node, SimplesOf(entry, records)) ==
      InsertRows(rt, series, TypeOf(entry), PointsOf(rt, records).value).value
  {
    if records != [] {
      var (front, r) := (records[..|records| - 1], records[|records| - 1]);
      var points := PointsOf(rt, records).value;
      if r.Obj? && StampOf(rt, r.fields).At? {
        assert points[..|points| - 1] == PointsOf(rt, front).value;
      }
      NamedSimples(rt, node, entry, series, front);
      if r.Obj? {
        NamedSimple(rt, node, entry, r.fields);
        LastMessage(rt, node, SimplesOf(entry, front), SimpleOf(entry, r.fields));
      }
    }
  }

  lemma LastMessage(rt: Runtime, node: NodeId, before: seq<Json>, last: Json)
    ensures MessagesRows(rt, node, before + [last]) == MessagesRows(rt, node, before) + MessageRows(rt, node, last)
  {
  }

  /** When no entry raises, a bulk message leaves the same table as its records sent one by one. */
  lemma {:induction false} BulkIsSimples(rt: Runtime, node: NodeId, entries: seq<Json>)
    requires Handled(rt, node, entries) == |entries|
    ensures EntriesRows(rt, node, entries) == MessagesRows(rt, node, AllSimples(entries))
  {
    if entries != [] {
      var (entry, rest) := (entries[0], entries[1..]);
      BulkIsSimples(rt, node, rest);
      var records := RecordsOf(entry.fields);
      var simples := if records.Some? then SimplesOf(entry.fields, records.value) else [];
      MessagesAppend(rt, node, simples, AllSimples(rest));
      if NameOf(entry.fields) == Skipped {
        if RecordsOf(entry.fields).Some? {
          SkippedSimples(rt, node, entry.fields, RecordsOf(entry.fields).value);
        }
      } else {
        var series := Series(node, NameOf(entry.fields).device, NameOf(entry.fields).param);
        NamedSimples(rt, node, entry.fields, series, RecordsOf(entry.fields).value);
      }
    }
  }
}
