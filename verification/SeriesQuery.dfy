/** Reading time series back: the raw query and the bucketed aggregation (`query_tsdata` of
    app/services/tsdata.py). */
module SeriesQuery {
  import opened Prelude
  import opened Store
  import opened Topics
  import opened TimeSeries

  // ---------- Intervals ----------

  predicate IsDigit(c: char) { '0' <= c <= '9' }

  /** The ASCII blanks that Python strips. */
  predicate IsSpace(c: char) { c == ' ' || 9 <= c as int <= 13 || 28 <= c as int <= 31 }

  function Digit(d: nat): char
    requires d < 10
  {
    '0' + d as char
  }

  /** The number in decimal digits. */
  function Decimal(n: nat): (s: string)
    ensures s != "" && forall c :: c in s ==> IsDigit(c)
  {
    if n < 10 then [Digit(n)] else Decimal(n / 10) + [Digit(n % 10)]
  }

  function Number(s: string): nat
    requires forall c :: c in s ==> IsDigit(c)
  {
    if s == "" then 0
    else
      assert s[|s| - 1] in s && IsDigit(s[|s| - 1]);
      assert forall c :: c in s[..|s| - 1] ==> c in s;
      10 * Number(s[..|s| - 1]) + (s[|s| - 1] as int - '0' as int)
  }

  lemma {:induction false} NumberOfDecimal(n: nat)
    ensures Number(Decimal(n)) == n
  {
    if n >= 10 {
      NumberOfDecimal(n / 10);
      assert Decimal(n)[..|Decimal(n)| - 1] == Decimal(n / 10);
    } else {
      assert [Digit(n)][..0] == "";
      assert Number("") == 0;
    }
  }

  function UnitSeconds(c: char): nat {
    if c == 's' then 1 else if c == 'm' then 60 else if c == 'h' then 3600 else if c == 'd' then 86400 else 0
  }

  function Strip(s: string): string
    decreases |s|
  {
    if s == "" then ""
    else if IsSpace(s[0]) then Strip(s[1..])
    else if IsSpace(s[|s| - 1]) then Strip(s[..|s| - 1])
    else s
  }

  /** The longest `timedelta`, in seconds. */
  const MAX_DELTA := 999_999_999 * 86400 + 86399

  datatype Interval = Width(seconds: nat) | BadInterval | TooWide

  /** `_parse_interval`. */
  function ParseInterval(spec: string): Interval {
    var s := Strip(spec);
    if |s| < 2 || UnitSeconds(s[|s| - 1]) == 0 || exists c :: c in s[..|s| - 1] && !IsDigit(c) then BadInterval
    else
      var seconds := Number(s[..|s| - 1]) * UnitSeconds(s[|s| - 1]);
      if seconds <= MAX_DELTA then Width(seconds) else TooWide
  }

  /** A printed interval reads back as its length, whatever blanks are put around it. */
  lemma IntervalRoundTrip(n: nat, unit: char, before: string, after: string)
    requires UnitSeconds(unit) > 0 && forall c :: c in before + after ==> IsSpace(c)
    ensures ParseInterval(before + (Decimal(n) + [unit]) + after) ==
      if n * UnitSeconds(unit) <= 86_399_999_999_999 then Width(n * UnitSeconds(unit)) else TooWide
  {
    var core := Decimal(n) + [unit];
    assert core[0] in Decimal(n);
    assert forall c :: c in before ==> c in before + after;
    assert forall c :: c in after ==> c in before + after;
    StripsTo(before, core, after);
    assert core[..|core| - 1] == Decimal(n);
    NumberOfDecimal(n);
  }

  /** The units and their lengths in seconds. */
  lemma UnitsAre(c: char)
    ensures UnitSeconds(c) > 0 <==> c in "smhd"
    ensures UnitSeconds('s') == 1 && UnitSeconds('m') == 60 && UnitSeconds('h') == 60 * 60
    ensures UnitSeconds('d') == 24 * 60 * 60
  {
  }

  lemma Regrouped(a: string, b: string, c: string, d: string)
    ensures a + (b + c + d) == (a + b) + c + d
  {
  }

  lemma {:induction false} StripSplits(s: string) returns (before: string, after: string)
    ensures s == before + Strip(s) + after && forall c :: c in before + after ==> IsSpace(c)
    ensures Strip(s) != "" ==> !IsSpace(Strip(s)[0]) && !IsSpace(Strip(s)[|Strip(s)| - 1])
    decreases |s|
  {
    before, after := "", "";
    if s != "" && IsSpace(s[0]) {
      before, after := StripSplits(s[1..]);
      assert s == [s[0]] + s[1..];
      Regrouped([s[0]], before, Strip(s), after);
      before := [s[0]] + before;
    } else if s != "" && IsSpace(s[|s| - 1]) {
      before, after := StripSplits(s[..|s| - 1]);
      LastSplit(s);
      AppendAssoc(before + Strip(s), after, [s[|s| - 1]]);
      after := after + [s[|s| - 1]];
    }
  }

  /** Blanks, digits, one of the four units, blanks. */
  ghost predicate Reads(spec: string, before: string, digits: string, unit: char, after: string) {
    spec == before + (digits + [unit]) + after &&
    (forall c :: c in before + after ==> c == ' ' || '\t' <= c <= '\r' || '\U{1C}' <= c <= '\U{1F}') &&
    digits != "" && (forall c :: c in digits ==> '0' <= c <= '9') && unit in "smhd"
  }

  lemma ReadsParse(spec: string, before: string, digits: string, unit: char, after: string)
    requires Reads(spec, before, digits, unit, after)
    ensures ParseInterval(spec) != BadInterval
  {
    var core := digits + [unit];
    assert core[0] in digits;
    assert forall c :: c in before ==> c in before + after;
    assert forall c :: c in after ==> c in before + after;
    StripsTo(before, core, after);
    assert core[..|core| - 1] == digits;
  }

  /** Exactly such specifications are read as intervals. */
  lemma IntervalIff(spec: string)
    ensures ParseInterval(spec) != BadInterval <==>
      exists before, digits, unit, after :: Reads(spec, before, digits, unit, after)
  {
    if before, digits, unit, after :| Reads(spec, before, digits, unit, after) {
      ReadsParse(spec, before, digits, unit, after);
    }
    if ParseInterval(spec) != BadInterval {
      var s := Strip(spec);
      var before, after := StripSplits(spec);
      var (digits, unit) := (s[..|s| - 1], s[|s| - 1]);
      assert s == digits + [unit];
      UnitsAre(unit);
      forall c | c in digits ensures '0' <= c <= '9' {
        assert IsDigit(c);
      }
      assert Reads(spec, before, digits, unit, after);
    }
  }

  lemma {:induction false} StripsTo(before: string, core: string, after: string)
    requires core != "" && !IsSpace(core[0]) && !IsSpace(core[|core| - 1])
    requires (forall c :: c in before ==> IsSpace(c)) && forall c :: c in after ==> IsSpace(c)
    ensures Strip(before + core + after) == core
    decreases |before| + |after|
  {
    var s := before + core + after;
    if before != "" {
      assert before[0] in before && s[0] == before[0];
      assert s[1..] == before[1..] + core + after;
      StripsTo(before[1..], core, after);
    } else if after != "" {
      assert after[|after| - 1] in after;
      assert s[0] == core[0] && s[|s| - 1] == after[|after| - 1];
      assert s[..|s| - 1] == before + core + after[..|after| - 1];
      StripsTo(before, core, after[..|after| - 1]);
    } else {
      assert s == core;
    }
  }

  // ---------- Selecting and ordering ----------

  predicate InSeries(series: Series, row: TsRow) {
    row.node == series.node && row.device == series.device && row.param == series.param
  }

  function Selected(table: seq<TsRow>, series: Series, start: int, end: int): seq<TsRow> {
    Filter(table, (row: TsRow) => InSeries(series, row) && start <= row.ts <= end)
  }

  ghost predicate Ascending(rows: seq<TsRow>) {
    forall i, j :: 0 <= i < j < |rows| ==> rows[i].ts <= rows[j].ts
  }

  function InsertByTime(row: TsRow, rows: seq<TsRow>): seq<TsRow> {
    if rows == [] || rows[|rows| - 1].ts <= row.ts then rows + [row]
    else InsertByTime(row, rows[..|rows| - 1]) + [rows[|rows| - 1]]
  }

  /** `ORDER BY ts ASC`. */
  function ByTime(rows: seq<TsRow>): seq<TsRow> {
    if rows == [] then [] else InsertByTime(rows[|rows| - 1], ByTime(rows[..|rows| - 1]))
  }

  lemma {:induction false} InsertKeepsRows(row: TsRow, rows: seq<TsRow>)
    ensures multiset(InsertByTime(row, rows)) == multiset(rows) + multiset{row}
  {
    if rows != [] && rows[|rows| - 1].ts > row.ts {
      var (front, last) := (rows[..|rows| - 1], rows[|rows| - 1]);
      assert rows == front + [last];
      InsertKeepsRows(row, front);
    }
  }

  lemma {:induction false} InsertOrders(row: TsRow, rows: seq<TsRow>, bound: int)
    requires Ascending(rows) && row.ts <= bound && forall i :: 0 <= i < |rows| ==> rows[i].ts <= bound
    ensures Ascending(InsertByTime(row, rows))
    ensures forall i :: 0 <= i < |InsertByTime(row, rows)| ==> InsertByTime(row, rows)[i].ts <= bound
  {
    if rows != [] && rows[|rows| - 1].ts > row.ts {
      InsertOrders(row, rows[..|rows| - 1], rows[|rows| - 1].ts);
    }
  }

  lemma {:induction false} ByTimeOrders(rows: seq<TsRow>)
    ensures Ascending(ByTime(rows)) && multiset(ByTime(rows)) == multiset(rows) && |ByTime(rows)| == |rows|
  {
    if rows != [] {
      var (front, last) := (rows[..|rows| - 1], rows[|rows| - 1]);
      assert rows == front + [last];
      ByTimeOrders(front);
      var sorted := ByTime(front);
      InsertKeepsRows(last, sorted);
      var bound := if sorted != [] && sorted[|sorted| - 1].ts > last.ts then sorted[|sorted| - 1].ts else last.ts;
      InsertOrders(last, sorted, bound);
    }
    assert |multiset(ByTime(rows))| == |multiset(rows)|;
  }

  /** The row is of the parameter's series, with a time in the window. */
  ghost predicate InWindow(row: TsRow, node: NodeId, device: string, param: string, start: int, end: int) {
    row.node == node && row.device == device && row.param == param && start <= row.ts <= end
  }

  /** `ordered` is what the table holds of the series in the window, each row as often as there, in time order. */
  ghost predicate IsWindow(
    ordered: seq<TsRow>, table: seq<TsRow>, node: NodeId, device: string, param: string, start: int, end: int)
  {
    Ascending(ordered) &&
    forall row ::
      multiset(ordered)[row] == if InWindow(row, node, device, param, start, end) then multiset(table)[row] else 0
  }

  lemma {:induction false} SelectedCounts(table: seq<TsRow>, series: Series, start: int, end: int, row: TsRow)
    ensures multiset(Selected(table, series, start, end))[row] ==
      if InWindow(row, series.node, series.device, series.param, start, end) then multiset(table)[row] else 0
  {
    if table != [] {
      var (front, last) := (table[..|table| - 1], table[|table| - 1]);
      SelectedCounts(front, series, start, end, row);
      LastSplit(table);
      FilterSnoc(front, last, (r: TsRow) => InSeries(series, r) && start <= r.ts <= end);
    }
  }

  lemma OrderedIsWindow(table: seq<TsRow>, series: Series, start: int, end: int)
    ensures IsWindow(
      ByTime(Selected(table, series, start, end)), table, series.node, series.device, series.param, start, end)
  {
    ByTimeOrders(Selected(table, series, start, end));
    forall row
      ensures multiset(ByTime(Selected(table, series, start, end)))[row] ==
        if InWindow(row, series.node, series.device, series.param, start, end) then multiset(table)[row] else 0
    {
      SelectedCounts(table, series, start, end, row);
    }
  }

  lemma WindowTimes(
    ordered: seq<TsRow>, table: seq<TsRow>, node: NodeId, device: string, param: string, start: int, end: int, i: nat)
    requires IsWindow(ordered, table, node, device, param, start, end) && i < |ordered|
    ensures ordered[i] in table && InWindow(ordered[i], node, device, param, start, end)
  {
    assert multiset(ordered)[ordered[i]] > 0;
  }

  /** `ORDER BY ts DESC LIMIT 1` for the data type: that of a latest row. */
  function LatestType(table: seq<TsRow>, series: Series): string {
    var rows := ByTime(Filter(table, (row: TsRow) => InSeries(series, row)));
    if rows == [] then "int" else rows[|rows| - 1].dataType
  }

  function Upto<T>(s: seq<T>, limit: nat): seq<T> {
    if limit <= |s| then s[..limit] else s
  }

  // ---------- The raw query ----------

  function ReadAll(rows: seq<TsRow>, column: Column): (r: seq<(int, Cell)>)
    ensures |r| == |rows| && forall i :: 0 <= i < |rows| ==> r[i] == (rows[i].ts, ReadColumn(rows[i], column))
  {
    seq(|rows|, i requires 0 <= i < |rows| => (rows[i].ts, ReadColumn(rows[i], column)))
  }

  function RawQuery(
    table: seq<TsRow>, node: NodeId, param: string, start: int, end: int, limit: int): Result<seq<(int, Cell)>>
  {
    if Cut(param, '.').None? then Err(Invalid)
    else if limit < 0 then Err(Crash)
    else
      var (d, p) := Cut(param, '.').value;
      var series := Series(node, d, p);
      Ok(ReadAll(Upto(ByTime(Selected(table, series, start, end)), limit), ValueColumn(LatestType(table, series))))
  }

  /** The table holds the row, for the parameter of the series. */
  ghost predicate IsOf(table: seq<TsRow>, series: Series, row: TsRow) {
    row in table && row.node == series.node && row.device == series.device && row.param == series.param
  }

  /** The row is of the series, and no younger one is. */
  ghost predicate IsLatest(table: seq<TsRow>, series: Series, row: TsRow) {
    IsOf(table, series, row) && forall other :: IsOf(table, series, other) ==> other.ts <= row.ts
  }

  /** The type of a series is that of a latest row, wherever in the table and in time; of an empty one, "int". */
  lemma LatestTypeIs(table: seq<TsRow>, series: Series)
    ensures
      if exists row :: IsOf(table, series, row) then
        exists row :: IsLatest(table, series, row) && LatestType(table, series) == row.dataType
      else LatestType(table, series) == "int"
  {
    var rows := Filter(table, (row: TsRow) => InSeries(series, row));
    ByTimeOrders(rows);
    var ordered := ByTime(rows);
    forall row ensures row in ordered <==> row in rows {
      assert row in multiset(ordered) <==> row in multiset(rows);
    }
    if ordered != [] {
      var last := ordered[|ordered| - 1];
      assert last in ordered;
      forall other | other in rows ensures other.ts <= last.ts {
        assert other in ordered;
      }
      assert IsLatest(table, series, last);
    }
  }

  /** All rows of the series have data type `dt`, and its column filled. */
  ghost predicate SingleType(table: seq<TsRow>, series: Series, dt: string) {
    forall row :: IsOf(table, series, row) ==> row.dataType == dt && ReadColumn(row, ValueColumn(dt)) != NoValue
  }

  lemma LatestOfSingle(table: seq<TsRow>, series: Series, dt: string)
    requires SingleType(table, series, dt) && exists row :: row in table && InSeries(series, row)
    ensures LatestType(table, series) == dt
  {
    LatestTypeIs(table, series);
    var row :| row in table && InSeries(series, row);
    assert IsOf(table, series, row);
  }

  /** The answer has one point for each of the first rows of `ordered`, up to the limit. */
  ghost predicate Answers(points: seq<(int, Cell)>, ordered: seq<TsRow>, column: Column, limit: nat) {
    |points| == (if limit < |ordered| then limit else |ordered|) &&
    forall i :: 0 <= i < |points| ==> points[i] == (ordered[i].ts, ReadColumn(ordered[i], column))
  }

  /** The raw query fails exactly for a name without a dot or a negative limit. */
  lemma RawFails(table: seq<TsRow>, node: NodeId, param: string, start: int, end: int, limit: int)
    ensures RawQuery(table, node, param, start, end, limit) == Err(Invalid) <==> '.' !in param
    ensures RawQuery(table, node, param, start, end, limit) == Err(Crash) <==> '.' in param && limit < 0
  {
  }

  /** Otherwise it answers, in time order and up to the limit, what the column of the series' type reads in
      exactly the rows of the table that are of the named node, device and parameter and in the window. */
  lemma RawQueryIs(
    table: seq<TsRow>, node: NodeId, device: string, param: string, start: int, end: int, limit: nat)
    requires '.' !in device
    ensures
      var r := RawQuery(table, node, device + "." + param, start, end, limit);
      r.Ok? && (forall i :: 0 <= i < |r.value| ==> start <= r.value[i].0 <= end) &&
      exists ordered ::
        IsWindow(ordered, table, node, device, param, start, end) &&
        Answers(r.value, ordered, ValueColumn(LatestType(table, Series(node, device, param))), limit)
  {
    CutIsFirst(device, '.', param);
    assert device + "." + param == device + ['.'] + param;
    var series := Series(node, device, param);
    var ordered := ByTime(Selected(table, series, start, end));
    OrderedIsWindow(table, series, start, end);
    forall i | 0 <= i < |ordered| ensures start <= ordered[i].ts <= end {
      WindowTimes(ordered, table, node, device, param, start, end, i);
    }
    var points := RawQuery(table, node, device + "." + param, start, end, limit).value;
    assert Answers(points, ordered, ValueColumn(LatestType(table, series)), limit);
  }

  /** For a series of a single type that is the stored value of every such row. */
  lemma RawQueryExact(
    table: seq<TsRow>, node: NodeId, device: string, param: string, start: int, end: int, limit: nat, dt: string)
    requires '.' !in device && SingleType(table, Series(node, device, param), dt)
    ensures
      var r := RawQuery(table, node, device + "." + param, start, end, limit);
      r.Ok? && (forall i :: 0 <= i < |r.value| ==> r.value[i].1 != NoValue) &&
      exists ordered ::
        IsWindow(ordered, table, node, device, param, start, end) && Answers(r.value, ordered, ValueColumn(dt), limit)
  {
    RawQueryIs(table, node, device, param, start, end, limit);
    var series := Series(node, device, param);
    var r := RawQuery(table, node, device + "." + param, start, end, limit);
    var ordered :| IsWindow(ordered, table, node, device, param, start, end) &&
      Answers(r.value, ordered, ValueColumn(LatestType(table, series)), limit);
    forall i | 0 <= i < |ordered|
      ensures LatestType(table, series) == dt && ReadColumn(ordered[i], ValueColumn(dt)) != NoValue
    {
      WindowTimes(ordered, table, node, device, param, start, end, i);
      assert InSeries(series, ordered[i]);
      LatestOfSingle(table, series, dt);
    }
    assert Answers(r.value, ordered, ValueColumn(dt), limit);
  }

  /** The rows an insert adds are those of the series, typed. */
  lemma InsertedRows(rt: Runtime, series: Series, dt: Json, points: seq<(int, Json)>, rows: seq<TsRow>)
    requires InsertRows(rt, series, dt, points) == Some(rows) && points != []
    ensures dt.Str?
    ensures forall i :: 0 <= i < |rows| ==>
      InSeries(series, rows[i]) && rows[i].ts == points[i].0 && rows[i].dataType == dt.s &&
      ReadColumn(rows[i], ValueColumn(dt.s)) != NoValue &&
      Some(ReadColumn(rows[i], ValueColumn(dt.s))) == Typed(rt, dt.s, points[i].1)
  {
  }

  lemma NewRowsSelected(table: seq<TsRow>, rows: seq<TsRow>, series: Series, start: int, end: int)
    requires forall row :: row in table ==> !InSeries(series, row)
    requires forall row :: row in rows ==> InSeries(series, row) && start <= row.ts <= end
    ensures Selected(table + rows, series, start, end) == rows
  {
    var keep := (row: TsRow) => InSeries(series, row) && start <= row.ts <= end;
    FilterAppend(table, rows, keep);
    FilterAll(rows, keep);
    NonEmptyHas(Filter(table, keep));
  }

  lemma NamedQuery(table: seq<TsRow>, series: Series, name: string, start: int, end: int, limit: nat)
    requires '.' !in series.device && name == series.device + "." + series.param
    requires limit >= |Selected(table, series, start, end)|
    ensures RawQuery(table, series.node, name, start, end, limit) ==
      Ok(ReadAll(ByTime(Selected(table, series, start, end)), ValueColumn(LatestType(table, series))))
  {
    CutIsFirst(series.device, '.', series.param);
    assert name == series.device + ['.'] + series.param;
    var rows := ByTime(Selected(table, series, start, end));
    ByTimeOrders(Selected(table, series, start, end));
    assert Upto(rows, limit) == rows;
  }

  /** What is inserted is what is read back: the points of a new series, under its name, in time order. */
  lemma InsertThenQuery(
    rt: Runtime, table: seq<TsRow>, series: Series, name: string, dt: Json, points: seq<(int, Json)>, rows: seq<TsRow>,
    start: int, end: int)
    requires '.' !in series.device && name == series.device + "." + series.param
    requires InsertRows(rt, series, dt, points) == Some(rows) && points != []
    requires forall row :: row in table ==> !InSeries(series, row)
    requires forall i :: 0 <= i < |points| ==> start <= points[i].0 <= end
    ensures dt.Str? && SingleType(table + rows, series, dt.s)
    ensures RawQuery(table + rows, series.node, name, start, end, |points|) ==
      Ok(ReadAll(ByTime(rows), ValueColumn(dt.s)))
    ensures forall i :: 0 <= i < |points| ==>
      rows[i].ts == points[i].0 && Some(ReadColumn(rows[i], ValueColumn(dt.s))) == Typed(rt, dt.s, points[i].1)
  {
    InsertedRows(rt, series, dt, points, rows);
    NewRowsSelected(table, rows, series, start, end);
    NamedQuery(table + rows, series, name, start, end, |points|);
    NewIsSingle(table, rows, series, dt.s);
  }

  lemma NewIsSingle(table: seq<TsRow>, rows: seq<TsRow>, series: Series, dt: string)
    requires forall row :: row in table ==> !InSeries(series, row)
    requires rows != [] && forall i :: 0 <= i < |rows| ==>
      InSeries(series, rows[i]) && rows[i].dataType == dt && ReadColumn(rows[i], ValueColumn(dt)) != NoValue
    ensures SingleType(table + rows, series, dt) && LatestType(table + rows, series) == dt
  {
    assert rows[0] in table + rows;
    assert SingleType(table + rows, series, dt);
    LatestOfSingle(table + rows, series, dt);
  }

  // ---------- Buckets ----------

  /** `time_bucket`: rounding down to a multiple of the width, counted from a fixed origin. */
  function Bucket(origin: int, width: int, ts: int): int
    requires width > 0
  {
    origin + (ts - origin) / width * width
  }

  function BucketBy(origin: int, width: int): int -> int
    requires width > 0
  {
    ts => Bucket(origin, width, ts)
  }

  datatype Bin = Bin(key: int, rows: seq<TsRow>)

  function AddTo(bins: seq<Bin>, key: int, row: TsRow): seq<Bin> {
    if bins != [] && bins[|bins| - 1].key == key then bins[..|bins| - 1] + [Bin(key, bins[|bins| - 1].rows + [row])]
    else bins + [Bin(key, [row])]
  }

  /** `GROUP BY bucket ORDER BY bucket` over rows in time order. */
  function Bins(bucket: int -> int, rows: seq<TsRow>): seq<Bin> {
    if rows == [] then [] else AddTo(Bins(bucket, rows[..|rows| - 1]), bucket(rows[|rows| - 1].ts), rows[|rows| - 1])
  }

  /** The rows of some bins, one after the other. */
  function Contents(bins: seq<Bin>): seq<TsRow> {
    if bins == [] then [] else Contents(bins[..|bins| - 1]) + bins[|bins| - 1].rows
  }

  ghost predicate Monotone(bucket: int -> int) {
    forall a, b :: a <= b ==> bucket(a) <= bucket(b)
  }

  /** Buckets of any positive width keep the order of time, and each holds its points. */
  lemma BucketsAreMonotone(origin: int, width: int)
    requires width > 0
    ensures Monotone(BucketBy(origin, width))
    ensures forall ts :: Bucket(origin, width, ts) <= ts < Bucket(origin, width, ts) + width
    ensures forall ts :: (Bucket(origin, width, ts) - origin) % width == 0
  {
    forall ts ensures (Bucket(origin, width, ts) - origin) % width == 0 {
      MultipleMod((ts - origin) / width, width);
    }
    forall a, b | a <= b ensures Bucket(origin, width, a) <= Bucket(origin, width, b) {
      DivMono(a - origin, b - origin, width);
      MulMono((a - origin) / width, (b - origin) / width, width);
    }
    forall ts ensures Bucket(origin, width, ts) <= ts < Bucket(origin, width, ts) + width {
      var x := ts - origin;
      assert x == x / width * width + x % width;
    }
  }

  lemma MultipleMod(q: int, w: int)
    requires w > 0
    ensures q * w % w == 0
  {
    var x := q * w;
    DivUnique(x, w, q, 0);
    assert x == x / w * w + x % w;
  }

  lemma MulMono(x: int, y: int, w: int)
    requires x <= y && w > 0
    ensures x * w <= y * w
  {
  }

  lemma DivMono(x: int, y: int, w: int)
    requires w > 0 && x <= y
    ensures x / w <= y / w
  {
    var (p, q) := (x / w, y / w);
    assert x == p * w + x % w && y == q * w + y % w;
    if p > q {
      MulMono(q + 1, p, w);
    }
  }

  /** Every row is in the bin of its own bucket, bins ascend strictly, and none is empty. */
  ghost predicate Partitions(bucket: int -> int, bins: seq<Bin>) {
    (forall i, j :: 0 <= i < j < |bins| ==> bins[i].key < bins[j].key) &&
    forall i :: 0 <= i < |bins| ==>
      bins[i].rows != [] && forall row :: row in bins[i].rows ==> bucket(row.ts) == bins[i].key
  }

  lemma {:induction false} BinsPartition(bucket: int -> int, rows: seq<TsRow>)
    requires Monotone(bucket) && Ascending(rows)
    ensures Partitions(bucket, Bins(bucket, rows))
    ensures Contents(Bins(bucket, rows)) == rows
  {
    if rows != [] {
      var (front, row) := (rows[..|rows| - 1], rows[|rows| - 1]);
      BinsPartition(bucket, front);
      var bins := Bins(bucket, front);
      AddToContents(bins, bucket(row.ts), row);
      assert rows == front + [row];
      if bins != [] {
        LastBinIsBefore(bucket, bins, front, row);
        PartitionsSnoc(bucket, bins, row);
      }
    }
  }

  lemma LastBinIsBefore(bucket: int -> int, bins: seq<Bin>, front: seq<TsRow>, row: TsRow)
    requires Monotone(bucket) && Partitions(bucket, bins) && bins != [] && Contents(bins) == front
    requires forall i :: 0 <= i < |front| ==> front[i].ts <= row.ts
    ensures bins[|bins| - 1].key <= bucket(row.ts)
  {
    var last := bins[|bins| - 1];
    assert last.rows[0] in last.rows;
    InContents(bins, |bins| - 1, last.rows[0]);
  }

  lemma PartitionsSnoc(bucket: int -> int, bins: seq<Bin>, row: TsRow)
    requires Partitions(bucket, bins) && bins != [] && bins[|bins| - 1].key <= bucket(row.ts)
    ensures Partitions(bucket, AddTo(bins, bucket(row.ts), row))
  {
  }

  lemma AddToContents(bins: seq<Bin>, key: int, row: TsRow)
    ensures Contents(AddTo(bins, key, row)) == Contents(bins) + [row]
  {
  }

  lemma {:induction false} InContents(bins: seq<Bin>, i: nat, row: TsRow)
    requires i < |bins| && row in bins[i].rows
    ensures row in Contents(bins)
  {
    if i < |bins| - 1 {
      InContents(bins[..|bins| - 1], i, row);
    }
  }

  ghost predicate OnlyIn(bins: seq<Bin>, row: TsRow, i: int) {
    0 <= i < |bins| && row in bins[i].rows && forall j :: 0 <= j < |bins| && row in bins[j].rows ==> j == i
  }

  /** Every row of the window falls in exactly one bucket. */
  lemma ExactlyOneBin(origin: int, width: int, rows: seq<TsRow>, row: TsRow)
    requires width > 0 && Ascending(rows) && row in rows
    ensures exists i :: OnlyIn(Bins(BucketBy(origin, width), rows), row, i)
  {
    var bucket := BucketBy(origin, width);
    BucketsAreMonotone(origin, width);
    BinsPartition(bucket, rows);
    var i := BinOf(Bins(bucket, rows), row);
    OtherKeys(bucket, Bins(bucket, rows), row, i);
  }

  lemma OtherKeys(bucket: int -> int, bins: seq<Bin>, row: TsRow, i: nat)
    requires Partitions(bucket, bins) && i < |bins| && row in bins[i].rows
    ensures OnlyIn(bins, row, i)
  {
  }

  lemma {:induction false} BinOf(bins: seq<Bin>, row: TsRow) returns (i: nat)
    requires row in Contents(bins)
    ensures i < |bins| && row in bins[i].rows
  {
    if row in bins[|bins| - 1].rows {
      i := |bins| - 1;
    } else {
      i := BinOf(bins[..|bins| - 1], row);
    }
  }

  /** The first bins hold a first part of the rows, so a LIMIT on buckets covers a stretch of raw points. */
  lemma {:induction false} LimitIsPrefix(bins: seq<Bin>, k: nat)
    requires k <= |bins|
    ensures Contents(bins[..k]) <= Contents(bins)
  {
    if k < |bins| {
      LimitIsPrefix(bins[..|bins| - 1], k);
      assert bins[..|bins| - 1][..k] == bins[..k];
    } else {
      assert bins[..k] == bins;
    }
  }

  // ---------- Aggregates ----------

  datatype Aggregate = Avg | Sum | Min | Max

  /** SQL's treatment of missing values: they take no part. */
  function Combine(agg: Aggregate, a: Option<real>, b: Option<real>): Option<real> {
    if a.None? then b
    else if b.None? then a
    else Some(match agg
      case Min => if b.value < a.value then b.value else a.value
      case Max => if b.value > a.value then b.value else a.value
      case _ => a.value + b.value)
  }

  function Fold(agg: Aggregate, xs: seq<Option<real>>): Option<real> {
    if xs == [] then None else Combine(agg, Fold(agg, xs[..|xs| - 1]), xs[|xs| - 1])
  }

  function Count(xs: seq<Option<real>>): nat {
    if xs == [] then 0 else Count(xs[..|xs| - 1]) + if xs[|xs| - 1].Some? then 1 else 0
  }

  lemma {:induction false} CountedWhenSome(xs: seq<Option<real>>, agg: Aggregate)
    ensures Fold(agg, xs).Some? <==> Count(xs) > 0
  {
    if xs != [] {
      CountedWhenSome(xs[..|xs| - 1], agg);
    }
  }

  /** The aggregate of a bucket's values. */
  function Value(agg: Aggregate, xs: seq<Option<real>>): Option<real> {
    if agg == Avg then
      (if Count(xs) == 0 || Fold(Sum, xs).None? then None else Some(Fold(Sum, xs).value / Count(xs) as real))
    else Fold(agg, xs)
  }

  /** `v` is one of the values, and none is beyond it: below for a minimum, above for a maximum. */
  ghost predicate IsExtreme(least: bool, v: real, xs: seq<Option<real>>) {
    Some(v) in xs &&
    forall i :: 0 <= i < |xs| && xs[i].Some? ==> if least then v <= xs[i].value else xs[i].value <= v
  }

  /** A minimum or maximum is extreme among the values, and missing only when all of them are. */
  lemma {:induction false} ExtremesAre(agg: Aggregate, xs: seq<Option<real>>)
    requires agg == Min || agg == Max
    ensures Fold(agg, xs).None? <==> forall i :: 0 <= i < |xs| ==> xs[i].None?
    ensures Fold(agg, xs).Some? ==> IsExtreme(agg == Min, Fold(agg, xs).value, xs)
  {
    if xs != [] {
      var (front, last) := (xs[..|xs| - 1], xs[|xs| - 1]);
      ExtremesAre(agg, front);
      LastSplit(xs);
      assert forall i :: 0 <= i < |front| ==> front[i] == xs[i];
      assert xs[|xs| - 1] == last;
    }
  }

  /** A sum grows by each value that is not missing, from none at all. */
  lemma SumGrows(xs: seq<Option<real>>, x: Option<real>)
    ensures Fold(Sum, []) == None
    ensures
      var (before, after) := (Fold(Sum, xs), Fold(Sum, xs + [x]));
      (x.None? ==> after == before) &&
      (x.Some? ==> after.Some? && after.value == x.value + if before.Some? then before.value else 0.0)
  {
    FoldSnoc(Sum, xs, x);
  }

  lemma FoldSnoc(agg: Aggregate, xs: seq<Option<real>>, x: Option<real>)
    ensures Fold(agg, xs + [x]) == Combine(agg, Fold(agg, xs), x)
  {
    SnocTake(xs, x);
  }

  lemma NoneCounted(xs: seq<Option<real>>)
    ensures xs == [] ==> (set i | 0 <= i < |xs| && xs[i].Some?) == {}
  {
  }

  lemma {:induction false} CountIs(xs: seq<Option<real>>)
    ensures Count(xs) == |set i | 0 <= i < |xs| && xs[i].Some?|
  {
    if xs == [] {
      NoneCounted(xs);
    } else {
      var front := xs[..|xs| - 1];
      CountIs(front);
      var (before, now) := (set i | 0 <= i < |front| && front[i].Some?, set i | 0 <= i < |xs| && xs[i].Some?);
      assert now == before + if xs[|xs| - 1].Some? then {|xs| - 1} else {};
    }
  }

  lemma {:induction false} FoldAppend(agg: Aggregate, xs: seq<Option<real>>, ys: seq<Option<real>>)
    ensures Fold(agg, xs + ys) == Combine(agg, Fold(agg, xs), Fold(agg, ys))
  {
    if ys == [] {
      assert xs + ys == xs;
    } else {
      assert (xs + ys)[..|xs + ys| - 1] == xs + ys[..|ys| - 1];
      FoldAppend(agg, xs, ys[..|ys| - 1]);
    }
  }

  function AsNumber(cell: Cell): Option<real> {
    match cell
    case IntCell(n) => Some(n as real)
    case FloatCell(x) => Some(x)
    case _ => None
  }

  function Numeric(column: Column, row: TsRow): Option<real> {
    AsNumber(ReadColumn(row, column))
  }

  /** Only the numeric columns hold numbers. */
  lemma NumericIs(row: TsRow)
    ensures Numeric(ValueInt, row) == if row.vInt.Some? then Some(row.vInt.value as real) else None
    ensures Numeric(ValueFloat, row) == row.vFloat
    ensures Numeric(ValueBool, row) == None && Numeric(ValueStr, row) == None
  {
  }

  /** The numbers of an answer to the raw query. */
  function Numbers(points: seq<(int, Cell)>): (xs: seq<Option<real>>)
    ensures |xs| == |points| && forall i :: 0 <= i < |points| ==> xs[i] == AsNumber(points[i].1)
  {
    seq(|points|, i requires 0 <= i < |points| => AsNumber(points[i].1))
  }

  function Values(column: Column, rows: seq<TsRow>): (xs: seq<Option<real>>)
    ensures |xs| == |rows| && forall i :: 0 <= i < |rows| ==> xs[i] == Numeric(column, rows[i])
  {
    seq(|rows|, i requires 0 <= i < |rows| => Numeric(column, rows[i]))
  }

  /** One value for each bin. */
  function BinValues(agg: Aggregate, column: Column, bins: seq<Bin>): (xs: seq<Option<real>>)
    ensures |xs| == |bins| && forall i :: 0 <= i < |bins| ==> xs[i] == Value(agg, Values(column, bins[i].rows))
  {
    seq(|bins|, i requires 0 <= i < |bins| => Value(agg, Values(column, bins[i].rows)))
  }

  /** The values of bins recombine to that of all their rows: for sums, minima and maxima. */
  lemma {:induction false} BinsRecombine(agg: Aggregate, column: Column, bins: seq<Bin>)
    requires agg != Avg
    ensures Fold(agg, BinValues(agg, column, bins)) == Fold(agg, Values(column, Contents(bins)))
  {
    if bins != [] {
      var (front, last) := (bins[..|bins| - 1], bins[|bins| - 1]);
      BinsRecombine(agg, column, front);
      assert BinValues(agg, column, bins)[..|bins| - 1] == BinValues(agg, column, front);
      ValuesAppend(column, Contents(front), last.rows);
      FoldAppend(agg, Values(column, Contents(front)), Values(column, last.rows));
    }
  }

  lemma ValuesAppend(column: Column, a: seq<TsRow>, b: seq<TsRow>)
    ensures Values(column, a + b) == Values(column, a) + Values(column, b)
  {
  }

  /** An average recombines with the count of its bucket. */
  lemma AverageTimesCount(xs: seq<Option<real>>)
    ensures Value(Avg, xs).Some? <==> Fold(Sum, xs).Some?
    ensures Value(Avg, xs).Some? ==> Value(Avg, xs).value * Count(xs) as real == Fold(Sum, xs).value
  {
    CountedWhenSome(xs, Sum);
  }

  /** The aggregate query refines the raw one, even under LIMIT: its values recombine to the aggregate of
      the raw points that its buckets cover, which are the first of the window. */
  lemma AggregateRefinesRaw(agg: Aggregate, column: Column, origin: int, width: int, rows: seq<TsRow>, limit: nat)
    requires agg != Avg && width > 0 && Ascending(rows)
    ensures
      var all := Bins(BucketBy(origin, width), rows);
      var bins := Upto(all, limit);
      Contents(bins) <= rows && (limit >= |all| ==> Contents(bins) == rows) &&
      Fold(agg, BinValues(agg, column, bins)) == Fold(agg, Values(column, Contents(bins)))
  {
    var all := Bins(BucketBy(origin, width), rows);
    BucketsAreMonotone(origin, width);
    BinsPartition(BucketBy(origin, width), rows);
    BinsRecombine(agg, column, Upto(all, limit));
    if limit <= |all| {
      LimitIsPrefix(all, limit);
      assert limit == |all| ==> all[..limit] == all;
    }
  }

  // ---------- Coarser buckets ----------

  lemma FloorTwice(x: int, w: int, k: int)
    requires w > 0 && k > 0
    ensures k * w > 0 && x / (k * w) == (x / w) / k
  {
    var q := (x / w) / k;
    var (r, t) := ((x / w) % k, x % w);
    assert x == (q * k + r) * w + t;
    MulMono(r, k - 1, w);
    assert x == q * (k * w) + (r * w + t);
    assert 0 <= r * w + t < k * w;
    DivUnique(x, k * w, q, r * w + t);
  }

  lemma DivUnique(x: int, d: int, q: int, r: int)
    requires d > 0 && x == q * d + r && 0 <= r < d
    ensures x / d == q
  {
    var (q', r') := (x / d, x % d);
    assert x == q' * d + r';
    if q' > q {
      MulMono(q + 1, q', d);
    } else if q' < q {
      MulMono(q' + 1, q, d);
    }
  }

  /** A bucket of width `k * w` is a union of buckets of width `w`: which one a point is in depends only on
      its fine bucket. */
  lemma CoarseOfFine(origin: int, w: int, k: int, ts: int)
    requires w > 0 && k > 0
    ensures k * w > 0 && Bucket(origin, k * w, ts) == Bucket(origin, k * w, Bucket(origin, w, ts))
  {
    var x := ts - origin;
    var y := x / w * w;
    FloorTwice(x, w, k);
    FloorTwice(y, w, k);
    DivUnique(y, w, x / w, 0);
    assert Bucket(origin, w, ts) - origin == y;
    assert y / (k * w) == x / (k * w);
  }

  /** The coarse bucket of a point is that of its fine bucket. */
  ghost predicate Refines(fine: int -> int, coarse: int -> int) {
    forall ts :: coarse(fine(ts)) == coarse(ts)
  }

  /** The bins that lie in the bucket `key`. */
  function Within(bucket: int -> int, bins: seq<Bin>, key: int): seq<Bin> {
    Filter(bins, (b: Bin) => bucket(b.key) == key)
  }

  /** The fine bins in a coarse bucket hold exactly the rows of that bucket, in order. */
  lemma {:induction false} RowsWithin(fine: int -> int, coarse: int -> int, rows: seq<TsRow>, key: int)
    requires Refines(fine, coarse)
    ensures Contents(Within(coarse, Bins(fine, rows), key)) == Filter(rows, (row: TsRow) => coarse(row.ts) == key)
  {
    if rows != [] {
      var (front, row) := (rows[..|rows| - 1], rows[|rows| - 1]);
      RowsWithin(fine, coarse, front, key);
      WithinSnoc(coarse, Bins(fine, front), fine(row.ts), row, key);
    }
  }

  lemma WithinSnoc(bucket: int -> int, bins: seq<Bin>, at: int, row: TsRow, key: int)
    ensures Contents(Within(bucket, AddTo(bins, at, row), key)) ==
      Contents(Within(bucket, bins, key)) + if bucket(at) == key then [row] else []
  {
    var keep := (b: Bin) => bucket(b.key) == key;
    if bins != [] && bins[|bins| - 1].key == at {
      var (front, last) := (bins[..|bins| - 1], bins[|bins| - 1]);
      var grown := Bin(at, last.rows + [row]);
      assert bins == front + [last] && AddTo(bins, at, row) == front + [grown];
      FilterSnoc(front, last, keep);
      FilterSnoc(front, grown, keep);
      ContentsSnoc(Filter(front, keep), last);
      ContentsSnoc(Filter(front, keep), grown);
      AppendAssoc(Contents(Filter(front, keep)), last.rows, [row]);
    } else {
      FilterSnoc(bins, Bin(at, [row]), keep);
      ContentsSnoc(Filter(bins, keep), Bin(at, [row]));
    }
  }

  lemma ContentsSnoc(bins: seq<Bin>, b: Bin)
    ensures Contents(bins + [b]) == Contents(bins) + b.rows
  {
  }

  /** Coarsening: the rows of a bucket of width `k * w`, and so its sum, minimum or maximum, are those of
      its buckets of width `w` put together, in order. */
  lemma CoarseningExact(agg: Aggregate, column: Column, origin: int, w: int, k: int, rows: seq<TsRow>, i: nat)
    requires agg != Avg && w > 0 && k > 0 && k * w > 0 && Ascending(rows)
    requires i < |Bins(BucketBy(origin, k * w), rows)|
    ensures
      var coarse := Bins(BucketBy(origin, k * w), rows)[i];
      var fine := Within(BucketBy(origin, k * w), Bins(BucketBy(origin, w), rows), coarse.key);
      Contents(fine) == coarse.rows &&
      Fold(agg, BinValues(agg, column, fine)) == Value(agg, Values(column, coarse.rows))
  {
    var (fine, coarse) := (BucketBy(origin, w), BucketBy(origin, k * w));
    forall ts ensures coarse(fine(ts)) == coarse(ts) && coarse(coarse(ts)) == coarse(ts) {
      CoarseOfFine(origin, w, k, ts);
      CoarseOfFine(origin, k * w, 1, ts);
      assert 1 * (k * w) == k * w;
    }
    BucketsAreMonotone(origin, k * w);
    CoarsenBy(agg, column, fine, coarse, rows, i);
  }

  lemma CoarsenBy(agg: Aggregate, column: Column, fine: int -> int, coarse: int -> int, rows: seq<TsRow>, i: nat)
    requires agg != Avg && Refines(fine, coarse) && Refines(coarse, coarse) && Monotone(coarse) && Ascending(rows)
    requires i < |Bins(coarse, rows)|
    ensures
      var bin := Bins(coarse, rows)[i];
      var inside := Within(coarse, Bins(fine, rows), bin.key);
      Contents(inside) == bin.rows && Fold(agg, BinValues(agg, column, inside)) == Value(agg, Values(column, bin.rows))
  {
    var bins := Bins(coarse, rows);
    var key := bins[i].key;
    RowsWithin(fine, coarse, rows, key);
    RowsWithin(coarse, coarse, rows, key);
    BinsPartition(coarse, rows);
    forall j | 0 <= j < |bins| ensures coarse(bins[j].key) == bins[j].key {
      assert bins[j].rows[0] in bins[j].rows;
    }
    WithinOne(coarse, bins, i);
    assert [bins[i]][..0] == [];
    BinsRecombine(agg, column, Within(coarse, Bins(fine, rows), key));
  }

  lemma {:induction false} WithinOne(bucket: int -> int, bins: seq<Bin>, i: nat)
    requires i < |bins|
    requires forall j, k :: 0 <= j < k < |bins| ==> bins[j].key < bins[k].key
    requires forall j :: 0 <= j < |bins| ==> bucket(bins[j].key) == bins[j].key
    ensures Within(bucket, bins, bins[i].key) == [bins[i]]
  {
    var (front, last) := (bins[..|bins| - 1], bins[|bins| - 1]);
    if i < |bins| - 1 {
      WithinOne(bucket, front, i);
    } else {
      assert forall b :: b in front ==> b.key < last.key && bucket(b.key) == b.key;
      NonEmptyHas(Within(bucket, front, last.key));
    }
  }

  /** Between the key of a coarse bucket and the next there is room for `k` fine ones. */
  lemma RoomForK(origin: int, w: int, k: int, ts: int)
    requires w > 0 && k > 0 && k * w > 0
    ensures
      var (coarse, fine) := (Bucket(origin, k * w, ts), Bucket(origin, w, ts));
      exists j :: 0 <= j < k && fine == coarse + j * w
  {
    var q := (ts - origin) / w;
    FloorTwice(ts - origin, w, k);
    assert q == q / k * k + q % k;
    assert (q / k * k + q % k) * w == q / k * (k * w) + q % k * w;
    assert Bucket(origin, w, ts) == Bucket(origin, k * w, ts) + q % k * w;
  }

  // ---------- The whole call ----------

  function Lower(s: string): (r: string)
    ensures |r| == |s|
  {
    seq(|s|, i requires 0 <= i < |s| => if 'A' <= s[i] <= 'Z' then s[i] - 'A' + 'a' else s[i])
  }

  function AggregateNamed(name: string): Option<Aggregate> {
    var n := Lower(name);
    if n == "avg" then Some(Avg)
    else if n == "min" then Some(Min)
    else if n == "max" then Some(Max)
    else if n == "sum" then Some(Sum)
    else None
  }

  datatype Records = Points(points: seq<(int, Cell)>) | Buckets(buckets: seq<(int, Option<real>)>)

  /** The aggregate cannot be typed: there is none of booleans, and only the smallest and largest of texts. */
  predicate Untypable(agg: Aggregate, column: Column) {
    column == ValueBool || (column == ValueStr && (agg == Avg || agg == Sum))
  }

  /** A text meets the conversion to a number. */
  predicate MeetsText(column: Column, rows: seq<TsRow>) {
    column == ValueStr && exists row :: row in rows && row.vStr.Some?
  }

  /** The bins that are answered. */
  function Covering(origin: int, width: nat, rows: seq<TsRow>, limit: nat): seq<Bin> {
    if width == 0 then [] else Upto(Bins(BucketBy(origin, width), rows), limit)
  }

  function BucketsOf(agg: Aggregate, column: Column, bins: seq<Bin>): (r: seq<(int, Option<real>)>)
    ensures |r| == |bins|
    ensures forall i :: 0 <= i < |bins| ==> r[i] == (bins[i].key, Value(agg, Values(column, bins[i].rows)))
  {
    seq(|bins|, i requires 0 <= i < |bins| => (bins[i].key, Value(agg, Values(column, bins[i].rows))))
  }

  /** The aggregate branch: buckets of the window's rows, ascending, up to the limit. A bad width or a text is
      an error only when there is a row to meet it. */
  function BucketQuery(
    table: seq<TsRow>, series: Series, start: int, end: int, agg: Aggregate, origin: int, width: nat, limit: int)
    : Result<seq<(int, Option<real>)>>
  {
    var column := ValueColumn(LatestType(table, series));
    var rows := ByTime(Selected(table, series, start, end));
    if limit < 0 || Untypable(agg, column) then Err(Crash)
    else if limit > 0 && rows != [] && (width == 0 || MeetsText(column, rows)) then Err(Crash)
    else Ok(BucketsOf(agg, column, Covering(origin, width, rows, limit)))
  }

  /** `query_tsdata`. */
  function Query(
    table: seq<TsRow>, node: NodeId, param: string, start: int, end: int,
    aggregate: Option<string>, interval: Option<string>, origin: int, limit: int): Result<Records>
  {
    if Cut(param, '.').None? then Err(Invalid)
    else if aggregate.Some? && aggregate.value != "" && interval.Some? && interval.value != "" then
      var (d, p) := Cut(param, '.').value;
      match ParseInterval(interval.value)
      case BadInterval => Err(Invalid)
      case TooWide => Err(Crash)
      case Width(seconds) =>
        if AggregateNamed(aggregate.value).None? then Err(Invalid)
        else
          var agg := AggregateNamed(aggregate.value).value;
          match BucketQuery(table, Series(node, d, p), start, end, agg, origin, seconds, limit)
          case Err(e) => Err(e)
          case Ok(buckets) => Ok(Buckets(buckets))
    else match RawQuery(table, node, param, start, end, limit)
      case Err(e) => Err(e)
      case Ok(points) => Ok(Points(points))
  }

  /** The rows that the buckets of an answer cover. */
  function Covered(origin: int, width: nat, rows: seq<TsRow>, limit: nat): seq<TsRow> {
    Contents(Covering(origin, width, rows, limit))
  }

  lemma CoveredRecombines(agg: Aggregate, column: Column, origin: int, width: nat, rows: seq<TsRow>, limit: nat)
    requires agg != Avg && Ascending(rows)
    ensures
      var r := BucketsOf(agg, column, Covering(origin, width, rows, limit));
      var covered := Covered(origin, width, rows, limit);
      |r| <= limit && covered <= rows && (width > 0 && |r| < limit ==> covered == rows) &&
      Fold(agg, Seconds(r)) == Fold(agg, Values(column, covered))
  {
    var bins := Covering(origin, width, rows, limit);
    assert Seconds(BucketsOf(agg, column, bins)) == BinValues(agg, column, bins);
    if width > 0 {
      AggregateRefinesRaw(agg, column, origin, width, rows, limit);
    }
  }

  /** The answer to an aggregate query: keys ascend strictly, and its values recombine to the aggregate
      of the first rows of the window, all of them when the limit allows. */
  lemma BucketQueryExact(
    table: seq<TsRow>, series: Series, start: int, end: int, agg: Aggregate, origin: int, width: nat, limit: int)
    requires agg != Avg && BucketQuery(table, series, start, end, agg, origin, width, limit).Ok?
    ensures
      var column := ValueColumn(LatestType(table, series));
      var r := BucketQuery(table, series, start, end, agg, origin, width, limit).value;
      var rows := ByTime(Selected(table, series, start, end));
      var covered := Covered(origin, width, rows, limit);
      |r| <= limit && (forall i, j :: 0 <= i < j < |r| ==> r[i].0 < r[j].0) &&
      covered <= rows && (|r| < limit ==> covered == rows) &&
      Fold(agg, Seconds(r)) == Fold(agg, Values(column, covered))
  {
    var column := ValueColumn(LatestType(table, series));
    var rows := ByTime(Selected(table, series, start, end));
    ByTimeOrders(Selected(table, series, start, end));
    CoveredRecombines(agg, column, origin, width, rows, limit);
    if width > 0 {
      KeysAscend(origin, width, rows, limit);
    }
  }

  lemma KeysAscend(origin: int, width: nat, rows: seq<TsRow>, limit: nat)
    requires width > 0 && Ascending(rows)
    ensures
      var bins := Covering(origin, width, rows, limit);
      forall i, j :: 0 <= i < j < |bins| ==> bins[i].key < bins[j].key
  {
    BucketsAreMonotone(origin, width);
    BinsPartition(BucketBy(origin, width), rows);
  }

  lemma BucketIff(origin: int, width: int, key: int, ts: int)
    requires width > 0 && (key - origin) % width == 0
    ensures Bucket(origin, width, ts) == key <==> key <= ts < key + width
  {
    BucketsAreMonotone(origin, width);
    var (q, p) := ((key - origin) / width, (ts - origin) / width);
    assert key == origin + q * width;
    if key <= ts < key + width {
      DivUnique(ts - origin, width, q, ts - key);
    }
  }

  /** The rows with a time in the bucket. */
  function RowsAt(rows: seq<TsRow>, key: int, width: int): seq<TsRow> {
    Filter(rows, (row: TsRow) => key <= row.ts < key + width)
  }

  lemma BinIsFilter(bucket: int -> int, rows: seq<TsRow>, i: nat)
    requires Refines(bucket, bucket) && Monotone(bucket) && Ascending(rows) && i < |Bins(bucket, rows)|
    ensures
      var bin := Bins(bucket, rows)[i];
      bucket(bin.key) == bin.key && bin.rows != [] &&
      bin.rows == Filter(rows, (row: TsRow) => bucket(row.ts) == bin.key)
  {
    var bins := Bins(bucket, rows);
    RowsWithin(bucket, bucket, rows, bins[i].key);
    BinsPartition(bucket, rows);
    forall j | 0 <= j < |bins| ensures bucket(bins[j].key) == bins[j].key {
      assert bins[j].rows[0] in bins[j].rows;
    }
    WithinOne(bucket, bins, i);
    assert [bins[i]][..0] == [];
  }

  lemma BucketIsItself(origin: int, width: int, ts: int)
    requires width > 0
    ensures Bucket(origin, width, Bucket(origin, width, ts)) == Bucket(origin, width, ts)
  {
    CoarseOfFine(origin, width, 1, ts);
    assert 1 * width == width;
  }

  lemma BinHasItsRows(origin: int, width: int, rows: seq<TsRow>, i: nat)
    requires width > 0 && Ascending(rows) && i < |Bins(BucketBy(origin, width), rows)|
    ensures
      var bin := Bins(BucketBy(origin, width), rows)[i];
      (bin.key - origin) % width == 0 && bin.rows == RowsAt(rows, bin.key, width) && bin.rows != []
  {
    var bucket := BucketBy(origin, width);
    var key := Bins(bucket, rows)[i].key;
    BucketsAreMonotone(origin, width);
    forall ts ensures bucket(bucket(ts)) == bucket(ts) {
      BucketIsItself(origin, width, ts);
    }
    BinIsFilter(bucket, rows, i);
    assert bucket(key) == Bucket(origin, width, key);
    RowsAtAre(origin, width, rows, key);
  }

  lemma RowsAtAre(origin: int, width: int, rows: seq<TsRow>, key: int)
    requires width > 0 && (key - origin) % width == 0
    ensures Filter(rows, (row: TsRow) => BucketBy(origin, width)(row.ts) == key) == RowsAt(rows, key, width)
  {
    var bucket := BucketBy(origin, width);
    forall row | row in rows ensures bucket(row.ts) == key <==> key <= row.ts < key + width {
      BucketIff(origin, width, key, row.ts);
    }
    FilterSame(rows, (row: TsRow) => bucket(row.ts) == key, (row: TsRow) => key <= row.ts < key + width);
  }

  /** Each answered bucket holds the aggregate of exactly the rows of `ordered` with a time in it, of which there
      are some; buckets ascend without overlap; and none is left out before the last one answered, nor after
      it unless the limit is reached. */
  ghost predicate BucketsAre(
    r: seq<(int, Option<real>)>, agg: Aggregate, column: Column, width: nat, ordered: seq<TsRow>, limit: nat)
  {
    |r| <= limit && (forall i, j :: 0 <= i < j < |r| ==> r[i].0 + width <= r[j].0) &&
    (forall i :: 0 <= i < |r| ==>
       RowsAt(ordered, r[i].0, width) != [] &&
       r[i].1 == Value(agg, Values(column, RowsAt(ordered, r[i].0, width)))) &&
    forall row :: row in ordered && (|r| < limit || (limit > 0 && row.ts < r[|r| - 1].0 + width)) ==>
      exists i :: 0 <= i < |r| && r[i].0 <= row.ts < r[i].0 + width
  }

  /** The bins of all rows: ascending without overlap, each with its rows, and with a place for each row. */
  ghost predicate AllBins(width: int, rows: seq<TsRow>, all: seq<Bin>) {
    (forall i, j :: 0 <= i < j < |all| ==> all[i].key + width <= all[j].key) &&
    (forall i :: 0 <= i < |all| ==> all[i].rows == RowsAt(rows, all[i].key, width) && all[i].rows != []) &&
    forall row :: row in rows ==> exists i :: 0 <= i < |all| && all[i].key <= row.ts < all[i].key + width
  }

  /** A whole number of widths from the origin. */
  predicate Aligned(origin: int, width: nat, key: int) {
    width > 0 && (key - origin) % width == 0
  }

  lemma KeyIsAligned(origin: int, width: int, rows: seq<TsRow>, i: nat)
    requires width > 0 && Ascending(rows) && i < |Bins(BucketBy(origin, width), rows)|
    ensures Aligned(origin, width, Bins(BucketBy(origin, width), rows)[i].key)
  {
    BinHasItsRows(origin, width, rows, i);
  }

  lemma BinsAreApart(origin: int, width: int, rows: seq<TsRow>, i: nat, j: nat)
    requires width > 0 && Ascending(rows) && i < j < |Bins(BucketBy(origin, width), rows)|
    ensures
      var all := Bins(BucketBy(origin, width), rows);
      all[i].key + width <= all[j].key
  {
    var all := Bins(BucketBy(origin, width), rows);
    KeysRise(origin, width, rows, i, j);
    KeyIsAligned(origin, width, rows, i);
    KeyIsAligned(origin, width, rows, j);
    NextBucket(origin, width, all[i].key, all[j].key);
  }

  lemma KeysRise(origin: int, width: int, rows: seq<TsRow>, i: nat, j: nat)
    requires width > 0 && Ascending(rows) && i < j < |Bins(BucketBy(origin, width), rows)|
    ensures Bins(BucketBy(origin, width), rows)[i].key < Bins(BucketBy(origin, width), rows)[j].key
  {
    BucketsAreMonotone(origin, width);
    BinsPartition(BucketBy(origin, width), rows);
  }

  lemma BinHas(origin: int, width: int, rows: seq<TsRow>, i: nat)
    requires width > 0 && Ascending(rows) && i < |Bins(BucketBy(origin, width), rows)|
    ensures
      var bin := Bins(BucketBy(origin, width), rows)[i];
      bin.rows == RowsAt(rows, bin.key, width) && bin.rows != []
  {
    BinHasItsRows(origin, width, rows, i);
  }

  lemma BinsAreAll(origin: int, width: int, rows: seq<TsRow>)
    requires width > 0 && Ascending(rows)
    ensures AllBins(width, rows, Bins(BucketBy(origin, width), rows))
  {
    var all := Bins(BucketBy(origin, width), rows);
    forall i, j | 0 <= i < j < |all| ensures all[i].key + width <= all[j].key {
      BinsAreApart(origin, width, rows, i, j);
    }
    forall i | 0 <= i < |all| ensures all[i].rows == RowsAt(rows, all[i].key, width) && all[i].rows != [] {
      BinHas(origin, width, rows, i);
    }
    forall row | row in rows ensures exists i :: 0 <= i < |all| && all[i].key <= row.ts < all[i].key + width {
      var i := PlaceOf(origin, width, rows, row);
    }
  }

  lemma PlaceOf(origin: int, width: int, rows: seq<TsRow>, row: TsRow) returns (i: nat)
    requires width > 0 && Ascending(rows) && row in rows
    ensures
      var all := Bins(BucketBy(origin, width), rows);
      i < |all| && all[i].key <= row.ts < all[i].key + width
  {
    ExactlyOneBin(origin, width, rows, row);
    i :| OnlyIn(Bins(BucketBy(origin, width), rows), row, i);
    BinHasItsRows(origin, width, rows, i);
  }

  lemma FirstPlaces(
    width: nat, rows: seq<TsRow>, limit: nat, all: seq<Bin>, r: seq<(int, Option<real>)>, row: TsRow)
    requires AllBins(width, rows, all) && row in rows
    requires |r| == |Upto(all, limit)| && forall i :: 0 <= i < |r| ==> r[i].0 == all[i].key
    requires |r| < limit || (limit > 0 && row.ts < r[|r| - 1].0 + width)
    ensures exists i :: 0 <= i < |r| && r[i].0 <= row.ts < r[i].0 + width
  {
    var i :| 0 <= i < |all| && all[i].key <= row.ts < all[i].key + width;
    assert i < |r| && r[i].0 == all[i].key;
  }

  lemma FirstBins(agg: Aggregate, column: Column, width: nat, rows: seq<TsRow>, limit: nat, all: seq<Bin>)
    requires AllBins(width, rows, all)
    ensures BucketsAre(BucketsOf(agg, column, Upto(all, limit)), agg, column, width, rows, limit)
  {
    var r := BucketsOf(agg, column, Upto(all, limit));
    assert forall i :: 0 <= i < |r| ==> Upto(all, limit)[i] == all[i];
    forall row | row in rows && (|r| < limit || (limit > 0 && row.ts < r[|r| - 1].0 + width))
      ensures exists i :: 0 <= i < |r| && r[i].0 <= row.ts < r[i].0 + width
    {
      FirstPlaces(width, rows, limit, all, r, row);
    }
  }

  lemma NextBucket(origin: int, width: int, a: int, b: int)
    requires width > 0 && (a - origin) % width == 0 && (b - origin) % width == 0 && a < b
    ensures a + width <= b
  {
    var (p, q) := ((a - origin) / width, (b - origin) / width);
    assert a == origin + p * width && b == origin + q * width;
    if p >= q {
      MulMono(q, p, width);
    }
    MulMono(p + 1, q, width);
  }

  lemma CoveringIs(agg: Aggregate, column: Column, origin: int, width: nat, rows: seq<TsRow>, limit: nat)
    requires Ascending(rows) && (width == 0 ==> rows == [] || limit == 0)
    ensures BucketsAre(BucketsOf(agg, column, Covering(origin, width, rows, limit)), agg, column, width, rows, limit)
  {
    if width > 0 {
      BinsAreAll(origin, width, rows);
      FirstBins(agg, column, width, rows, limit, Bins(BucketBy(origin, width), rows));
    }
  }

  /** The aggregate query, averages and all: it answers the buckets of exactly the rows of the table that are
      of the series and in the window. */
  lemma BucketQueryIs(
    table: seq<TsRow>, series: Series, start: int, end: int, agg: Aggregate, origin: int, width: nat, limit: int)
    requires BucketQuery(table, series, start, end, agg, origin, width, limit).Ok?
    ensures
      var r := BucketQuery(table, series, start, end, agg, origin, width, limit).value;
      limit >= 0 && exists ordered ::
        IsWindow(ordered, table, series.node, series.device, series.param, start, end) &&
        BucketsAre(r, agg, ValueColumn(LatestType(table, series)), width, ordered, limit)
  {
    var rows := ByTime(Selected(table, series, start, end));
    OrderedIsWindow(table, series, start, end);
    CoveringIs(agg, ValueColumn(LatestType(table, series)), origin, width, rows, limit);
  }

  lemma WindowHas(
    ordered: seq<TsRow>, table: seq<TsRow>, node: NodeId, device: string, param: string, start: int, end: int,
    row: TsRow)
    requires IsWindow(ordered, table, node, device, param, start, end)
    ensures row in ordered <==> row in table && InWindow(row, node, device, param, start, end)
  {
    assert row in ordered <==> multiset(ordered)[row] > 0;
    assert row in table <==> multiset(table)[row] > 0;
  }

  /** It raises exactly for a negative limit, an aggregate the column cannot have (any of booleans, an average
      or a sum of texts), or a row in the window that meets a width of zero or holds a text. */
  lemma BucketQueryFails(
    table: seq<TsRow>, series: Series, start: int, end: int, agg: Aggregate, origin: int, width: nat, limit: int)
    ensures
      var r := BucketQuery(table, series, start, end, agg, origin, width, limit);
      var column := ValueColumn(LatestType(table, series));
      (r.Err? <==>
         limit < 0 || column == ValueBool || (column == ValueStr && agg in {Avg, Sum}) ||
         (limit > 0 && exists row ::
            row in table && InWindow(row, series.node, series.device, series.param, start, end) &&
            (width == 0 || (column == ValueStr && row.vStr.Some?)))) &&
      (r.Err? ==> r == Err(Crash))
  {
    var rows := ByTime(Selected(table, series, start, end));
    OrderedIsWindow(table, series, start, end);
    forall row
      ensures row in rows <==>
        row in table && InWindow(row, series.node, series.device, series.param, start, end)
    {
      WindowHas(rows, table, series.node, series.device, series.param, start, end, row);
    }
    NonEmptyHas(rows);
  }

  /** Each answered bucket starts at a multiple of the width from the origin. */
  lemma BucketsAreAligned(
    table: seq<TsRow>, series: Series, start: int, end: int, agg: Aggregate, origin: int, width: nat, limit: int,
    bucket: (int, Option<real>))
    requires BucketQuery(table, series, start, end, agg, origin, width, limit).Ok?
    requires bucket in BucketQuery(table, series, start, end, agg, origin, width, limit).value
    ensures Aligned(origin, width, bucket.0)
  {
    var rows := ByTime(Selected(table, series, start, end));
    var column := ValueColumn(LatestType(table, series));
    ByTimeOrders(Selected(table, series, start, end));
    var i := BucketAt(agg, column, Covering(origin, width, rows, limit), bucket);
    CoveringIsAligned(origin, width, rows, limit, i);
  }

  lemma BucketAt(agg: Aggregate, column: Column, bins: seq<Bin>, bucket: (int, Option<real>)) returns (i: nat)
    requires bucket in BucketsOf(agg, column, bins)
    ensures i < |bins| && bins[i].key == bucket.0
  {
    i :| 0 <= i < |bins| && BucketsOf(agg, column, bins)[i] == bucket;
  }

  lemma CoveringIsAligned(origin: int, width: nat, rows: seq<TsRow>, limit: nat, i: nat)
    requires Ascending(rows) && i < |Covering(origin, width, rows, limit)|
    ensures Aligned(origin, width, Covering(origin, width, rows, limit)[i].key)
  {
    KeyIsAligned(origin, width, rows, i);
  }

  /** The raw query with the number of covered rows as its limit answers exactly the covered rows. */
  lemma RawOfCovered(
    table: seq<TsRow>, node: NodeId, param: string, start: int, end: int, origin: int, width: nat, limit: nat)
    requires '.' in param
    ensures
      var series := Series(node, Cut(param, '.').value.0, Cut(param, '.').value.1);
      var column := ValueColumn(LatestType(table, series));
      var rows := ByTime(Selected(table, series, start, end));
      var covered := Covered(origin, width, rows, limit);
      covered <= rows && RawQuery(table, node, param, start, end, |covered|) == Ok(ReadAll(covered, column))
  {
    var series := Series(node, Cut(param, '.').value.0, Cut(param, '.').value.1);
    var rows := ByTime(Selected(table, series, start, end));
    ByTimeOrders(Selected(table, series, start, end));
    CoveredRecombines(Sum, ValueInt, origin, width, rows, limit);
    UptoPrefix(Covered(origin, width, rows, limit), rows);
  }

  lemma UptoPrefix<T>(a: seq<T>, b: seq<T>)
    requires a <= b
    ensures Upto(b, |a|) == a
  {
  }

  lemma NumbersOf(column: Column, rows: seq<TsRow>)
    ensures Numbers(ReadAll(rows, column)) == Values(column, rows)
  {
  }

  // ---------- What the request says ----------

  /** The lower-case word `word`, in any mixture of cases. */
  ghost predicate Spells(name: string, word: string) {
    |name| == |word| &&
    forall i :: 0 <= i < |word| ==>
      name[i] == word[i] || ('A' <= name[i] <= 'Z' && name[i] as int + 32 == word[i] as int)
  }

  lemma LowerIs(name: string, word: string)
    requires forall c :: c in word ==> 'a' <= c <= 'z'
    ensures Lower(name) == word <==> Spells(name, word)
  {
    assert forall i :: 0 <= i < |word| ==> word[i] in word;
    if Spells(name, word) {
      assert Lower(name) == word;
    }
  }

  /** The four aggregates have their names, in any mixture of cases, and there are no others. */
  lemma AggregatesAre(name: string)
    ensures AggregateNamed(name) == Some(Avg) <==> Spells(name, "avg")
    ensures AggregateNamed(name) == Some(Min) <==> Spells(name, "min")
    ensures AggregateNamed(name) == Some(Max) <==> Spells(name, "max")
    ensures AggregateNamed(name) == Some(Sum) <==> Spells(name, "sum")
  {
    var (avg, min, max, sum) := ("avg", "min", "max", "sum");
    LowerIs(name, avg);
    LowerIs(name, min);
    LowerIs(name, max);
    LowerIs(name, sum);
  }

  /** Without an aggregate or an interval it is the raw query. */
  lemma RawWithoutBoth(
    table: seq<TsRow>, node: NodeId, param: string, start: int, end: int, aggregate: Option<string>,
    interval: Option<string>, origin: int, limit: int)
    requires aggregate in {None, Some("")} || interval in {None, Some("")}
    ensures
      var raw := RawQuery(table, node, param, start, end, limit);
      Query(table, node, param, start, end, aggregate, interval, origin, limit) ==
        if raw.Ok? then Ok(Points(raw.value)) else Err(raw.error)
  {
  }

  /** With both it is the aggregate query, for the interval's seconds and the aggregate named; it is refused
      for a name without a dot, an unreadable interval or an unknown aggregate, and raises for one too wide. */
  lemma BucketsWithBoth(
    table: seq<TsRow>, node: NodeId, device: string, param: string, start: int, end: int, name: string,
    interval: string, origin: int, limit: int)
    requires '.' !in device && name != "" && interval != ""
    ensures
      var r := Query(table, node, device + "." + param, start, end, Some(name), Some(interval), origin, limit);
      var (width, agg) := (ParseInterval(interval), AggregateNamed(name));
      (width == BadInterval ==> r == Err(Invalid)) && (width == TooWide ==> r == Err(Crash)) &&
      (width.Width? && agg.None? ==> r == Err(Invalid)) &&
      (width.Width? && agg.Some? ==>
         var buckets := BucketQuery(
           table, Series(node, device, param), start, end, agg.value, origin, width.seconds, limit);
         r == if buckets.Ok? then Ok(Buckets(buckets.value)) else Err(buckets.error))
    ensures forall undotted :: '.' !in undotted ==>
      Query(table, node, undotted, start, end, Some(name), Some(interval), origin, limit) == Err(Invalid)
  {
    CutIsFirst(device, '.', param);
    assert device + "." + param == device + ['.'] + param;
  }

  /** The whole call, from the request's strings, against the whole call without an aggregate: a printed
      interval and the name of a sum, minimum or maximum give buckets of that width, whose values recombine
      to the aggregate of what the raw query answers for the covered rows; it fails exactly on a column that
      has no such aggregate, or a text that is to be a number. */
  lemma QueryRecombines(
    table: seq<TsRow>, node: NodeId, param: string, start: int, end: int, name: string, n: nat, unit: char,
    origin: int, limit: nat)
    requires '.' in param && AggregateNamed(name).Some? && AggregateNamed(name).value != Avg
    requires 0 < n * UnitSeconds(unit) <= MAX_DELTA
    ensures
      var series := Series(node, Cut(param, '.').value.0, Cut(param, '.').value.1);
      var (agg, column) := (AggregateNamed(name).value, ValueColumn(LatestType(table, series)));
      var rows := ByTime(Selected(table, series, start, end));
      var covered := Covered(origin, n * UnitSeconds(unit), rows, limit);
      var r := Query(table, node, param, start, end, Some(name), Some(Decimal(n) + [unit]), origin, limit);
      var raw := Query(table, node, param, start, end, None, None, origin, |covered|);
      raw == Ok(Points(ReadAll(covered, column))) && covered <= rows &&
      (r == Err(Crash) <==> Untypable(agg, column) || (limit > 0 && MeetsText(column, rows))) &&
      (r != Err(Crash) ==>
         r.Ok? && r.value.Buckets? && (|r.value.buckets| < limit ==> covered == rows) &&
         Fold(agg, Seconds(r.value.buckets)) == Fold(agg, Numbers(raw.value.points)))
  {
    var series := Series(node, Cut(param, '.').value.0, Cut(param, '.').value.1);
    var (agg, column) := (AggregateNamed(name).value, ValueColumn(LatestType(table, series)));
    var width := n * UnitSeconds(unit);
    var rows := ByTime(Selected(table, series, start, end));
    PrintedQuery(table, node, param, start, end, name, n, unit, origin, limit);
    RawOfCovered(table, node, param, start, end, origin, width, limit);
    NumbersOf(column, Covered(origin, width, rows, limit));
    if !Untypable(agg, column) && !(limit > 0 && MeetsText(column, rows)) {
      BucketQueryExact(table, series, start, end, agg, origin, width, limit);
    }
  }

  lemma PrintedQuery(
    table: seq<TsRow>, node: NodeId, param: string, start: int, end: int, name: string, n: nat, unit: char,
    origin: int, limit: nat)
    requires '.' in param && AggregateNamed(name).Some? && 0 < n * UnitSeconds(unit) <= MAX_DELTA
    ensures
      var series := Series(node, Cut(param, '.').value.0, Cut(param, '.').value.1);
      var r := BucketQuery(
        table, series, start, end, AggregateNamed(name).value, origin, n * UnitSeconds(unit), limit);
      Query(table, node, param, start, end, Some(name), Some(Decimal(n) + [unit]), origin, limit) ==
        if r.Ok? then Ok(Buckets(r.value)) else Err(r.error)
  {
    var interval := Decimal(n) + [unit];
    IntervalRoundTrip(n, unit, "", "");
    assert "" + interval + "" == interval;
    assert Lower("") == "" && name != "";
  }

  function Seconds(r: seq<(int, Option<real>)>): (xs: seq<Option<real>>)
    ensures |xs| == |r| && forall i :: 0 <= i < |r| ==> xs[i] == r[i].1
  {
    seq(|r|, i requires 0 <= i < |r| => r[i].1)
  }
}
