/**
 * `create_ml_dataset`: the fusion of ground-station, PM10 and UV records into
 * one row per (station, time), followed by dropping undated rows, the sort by
 * (time, station) and the engineered features.
 */
module Fusion {
  import opened Wrappers
  import opened Text
  import opened Numbers
  import opened Calendar
  import opened Parsers
  import opened Features

  /**
   * One input record as the fusion sees it: the station, the `datetime`
   * column (`None` for NaT) and the three value cells.
   */
  datatype SourceRow = SourceRow(stationId: string, datetime: Option<Timestamp>, value: Value, uvaValue: Value, euvValue: Value)

  /** A parsed record as an input row; its time is the `observed_at` the parser gave it. */
  function FromRecord(r: Record): (row: SourceRow)
    requires Valid(r.observedAt)
    ensures row.datetime == Some(r.observedAt) && row.stationId == r.stationId
    ensures row.value == r.value && row.uvaValue == r.uvaValue && row.euvValue == r.euvValue
  {
    SourceRow(r.stationId, Some(r.observedAt), r.value, r.uvaValue, r.euvValue)
  }

  /** An entry of `all_records`: a row whose time may still be missing. */
  datatype Merged = Merged(
    stationId: string,
    datetime: Option<Timestamp>,
    temperature: Option<real>,
    pm10: Option<real>,
    uvUvb: Option<real>,
    uvUva: Option<real>,
    uvEuv: Option<real>)

  // ----- Value conversions -----

  /** `str(v).replace('.', '').replace('-', '').isdigit()`. */
  predicate DigitLike(s: string) {
    IsDigitString(Without(Without(s, '.'), '-'))
  }

  /**
   * The temperature of a ground-station record: `Some(t)` is the value it
   * gets (`None` when the cell is empty, zero or not digit-like), and `None`
   * means that `float()` raised and the record is dropped.
   */
  function AsosTemperature(v: Value): (t: Option<Option<real>>)
    ensures t.None? <==> v.Str? && v.s != [] && DigitLike(v.s) && ParseFloat(v.s).None?
    ensures t == Some(None) <==> v.Absent? || v == Int(0) || (v.Str? && (v.s == [] || !DigitLike(v.s)))
    ensures v.Str? && t.Some? && t.value.Some? ==> ParseFloat(v.s) == t.value
  {
    match v
    case Absent => Some(None)
    case Int(n) => if n != 0 then Some(Some(n as real)) else Some(None)
    case Str(s) =>
      if s != [] && DigitLike(s) then
        var x := ParseFloat(s);
        if x.None? then None else Some(x)
      else Some(None)
  }

  /** `float(v)` for a present cell; `None` when the cell is missing or `float()` raises. */
  function Numeric(v: Value): Option<real> {
    match v
    case Absent => None
    case Int(n) => Some(n as real)
    case Str(s) => ParseFloat(s)
  }

  /** A UV value: numeric, with the -999.0 sentinel turned into `None`. */
  function UvValue(v: Value): (x: Option<real>)
    ensures x.Some? ==> x.value != -999.0 && x == Numeric(v)
    ensures x.None? ==> Numeric(v).None? || Numeric(v) == Some(-999.0)
  {
    var x := Numeric(v);
    if x == Some(-999.0) then None else x
  }

  // ----- The merge -----

  /** `record["station_id"] == station_id and record["datetime"] == datetime_val`: NaT equals nothing. */
  predicate SameKey(m: Merged, station: string, dt: Option<Timestamp>) {
    m.stationId == station && m.datetime.Some? && m.datetime == dt
  }

  /** The index of the first record with the key, or the length when there is none. */
  function FirstMatch(records: seq<Merged>, station: string, dt: Option<Timestamp>): (j: nat)
    ensures j <= |records|
    ensures j < |records| ==> SameKey(records[j], station, dt)
    ensures forall k :: 0 <= k < j ==> !SameKey(records[k], station, dt)
  {
    if records == [] then 0
    else if SameKey(records[0], station, dt) then 0
    else 1 + FirstMatch(records[1..], station, dt)
  }

  /** The first-match index is the one before which no record matches and at which one does (or the end). */
  lemma {:induction false} FirstMatchIs(records: seq<Merged>, station: string, dt: Option<Timestamp>, j: nat)
    requires j <= |records|
    requires j < |records| ==> SameKey(records[j], station, dt)
    requires forall k :: 0 <= k < j ==> !SameKey(records[k], station, dt)
    ensures FirstMatch(records, station, dt) == j
  {
    if records != [] && j > 0 {
      assert !SameKey(records[0], station, dt);
      FirstMatchIs(records[1..], station, dt, j - 1);
    }
  }

  /** What one record of a source does to `all_records`. */
  function Step(source: Source, records: seq<Merged>, row: SourceRow): (r: seq<Merged>)
    ensures |records| <= |r| <= |records| + 1
  {
    match source
    case Asos =>
      var t := AsosTemperature(row.value);
      if t.None? then records
      else records + [Merged(row.stationId, row.datetime, t.value, None, None, None, None)]
    case Pm10 =>
      var v := Numeric(row.value);
      var j := FirstMatch(records, row.stationId, row.datetime);
      if j < |records| then records[j := records[j].(pm10 := v)]
      else records + [Merged(row.stationId, row.datetime, None, v, None, None, None)]
    case Uv =>
      var uvb, uva, euv := UvValue(row.value), UvValue(row.uvaValue), UvValue(row.euvValue);
      var j := FirstMatch(records, row.stationId, row.datetime);
      if j < |records| then records[j := records[j].(uvUvb := uvb, uvUva := uva, uvEuv := euv)]
      else records + [Merged(row.stationId, row.datetime, None, None, uvb, uva, euv)]
  }

  /** The records of one source applied in order. */
  function Fold(source: Source, records: seq<Merged>, rows: seq<SourceRow>): (r: seq<Merged>)
    ensures |records| <= |r| <= |records| + |rows|
  {
    if rows == [] then records
    else Step(source, Fold(source, records, rows[..|rows| - 1]), rows[|rows| - 1])
  }

  /** `all_records` once the three sources have been processed. */
  function Fuse(asos: seq<SourceRow>, pm10: seq<SourceRow>, uv: seq<SourceRow>): seq<Merged> {
    Fold(Uv, Fold(Pm10, Fold(Asos, [], asos), pm10), uv)
  }

  // ----- dropna and sort_values -----

  /** `dropna(subset=["datetime"])`: the dated records, in order. */
  function Dated(records: seq<Merged>): (rows: seq<FusedRow>)
    ensures |rows| <= |records|
  {
    if records == [] then []
    else
      var m := records[|records| - 1];
      var init := Dated(records[..|records| - 1]);
      if m.datetime.Some? then
        init + [FusedRow(m.stationId, m.datetime.value, m.temperature, m.pm10, m.uvUvb, m.uvUva, m.uvEuv)]
      else init
  }

  /** The sort key order: by time, then by station id as Python compares strings. */
  predicate KeyLe(a: FusedRow, b: FusedRow) {
    Before(a.datetime, b.datetime) || (a.datetime == b.datetime && LexLe(a.stationId, b.stationId))
  }

  predicate Sorted(rows: seq<FusedRow>) {
    forall i, j :: 0 <= i < j < |rows| ==> KeyLe(rows[i], rows[j])
  }

  /** Places `x` after every row whose key is not above its own. */
  function Insert(sorted: seq<FusedRow>, x: FusedRow): (r: seq<FusedRow>)
    ensures multiset(r) == multiset(sorted) + multiset{x}
  {
    if sorted == [] then [x]
    else if !KeyLe(sorted[0], x) then [x] + sorted
    else
      assert sorted == [sorted[0]] + sorted[1..];
      [sorted[0]] + Insert(sorted[1..], x)
  }

  /** `sort_values(["datetime", "station_id"])`, stable: each row inserted after its equals. */
  function SortRows(rows: seq<FusedRow>): (r: seq<FusedRow>)
    ensures multiset(r) == multiset(rows)
  {
    if rows == [] then []
    else
      var init := rows[..|rows| - 1];
      assert rows == init + [rows[|rows| - 1]];
      Insert(SortRows(init), rows[|rows| - 1])
  }

  lemma KeyLeTotal(a: FusedRow, b: FusedRow)
    ensures KeyLe(a, b) || KeyLe(b, a)
  {
    BeforeTrichotomy(a.datetime, b.datetime);
    LexLeTotal(a.stationId, b.stationId);
  }

  lemma KeyLeTransitive(a: FusedRow, b: FusedRow, c: FusedRow)
    requires KeyLe(a, b) && KeyLe(b, c)
    ensures KeyLe(a, c)
  {
    if Before(a.datetime, b.datetime) && Before(b.datetime, c.datetime) {
      BeforeTransitive(a.datetime, b.datetime, c.datetime);
    } else if a.datetime == b.datetime && b.datetime == c.datetime {
      LexLeTransitive(a.stationId, b.stationId, c.stationId);
    }
  }

  lemma {:induction false} InsertSorted(sorted: seq<FusedRow>, x: FusedRow)
    requires Sorted(sorted)
    ensures Sorted(Insert(sorted, x))
  {
    if sorted != [] {
      if !KeyLe(sorted[0], x) {
        KeyLeTotal(sorted[0], x);
        forall j | 1 <= j < |sorted| ensures KeyLe(x, sorted[j]) {
          KeyLeTransitive(x, sorted[0], sorted[j]);
        }
      } else {
        InsertSorted(sorted[1..], x);
        var rest := Insert(sorted[1..], x);
        forall y | y in multiset(rest) ensures KeyLe(sorted[0], y) {
          assert y in multiset(sorted[1..]) + multiset{x};
          if y != x {
            var k :| 0 <= k < |sorted[1..]| && sorted[1..][k] == y;
            assert sorted[k + 1] == y;
          }
        }
        forall j | 0 <= j < |rest| ensures KeyLe(sorted[0], rest[j]) {
          assert rest[j] in multiset(rest);
        }
      }
    }
  }

  /** The sorted rows are in key order. */
  lemma {:induction false} SortRowsSorted(rows: seq<FusedRow>)
    ensures Sorted(SortRows(rows))
  {
    if rows != [] {
      SortRowsSorted(rows[..|rows| - 1]);
      InsertSorted(SortRows(rows[..|rows| - 1]), rows[|rows| - 1]);
    }
  }

  // ----- create_ml_dataset -----

  /** What `create_ml_dataset` returns for the three record lists. */
  function MlDataset(asos: seq<SourceRow>, pm10: seq<SourceRow>, uv: seq<SourceRow>): Frame {
    var records := Fuse(asos, pm10, uv);
    if records == [] then Frame(BaseColumns, [])
    else AddEngineeredFeatures(SortRows(Dated(records)))
  }

  lemma FoldStep(source: Source, records: seq<Merged>, rows: seq<SourceRow>, i: nat)
    requires i < |rows|
    ensures Fold(source, records, rows[..i + 1]) == Step(source, Fold(source, records, rows[..i]), rows[i])
  {
    assert rows[..i + 1][..i] == rows[..i];
  }

  /** The scan for the first record with the key, stopping at the first match. */
  method FindRecord(records: seq<Merged>, station: string, dt: Option<Timestamp>) returns (j: nat)
    ensures j == FirstMatch(records, station, dt)
  {
    j := 0;
    while j < |records| && !SameKey(records[j], station, dt)
      invariant j <= |records|
      invariant forall k :: 0 <= k < j ==> !SameKey(records[k], station, dt)
    {
      j := j + 1;
    }
    FirstMatchIs(records, station, dt, j);
  }

  /** One pass over the records of a source, growing `all_records` and updating matches in place. */
  method Absorb(source: Source, records: seq<Merged>, rows: seq<SourceRow>) returns (all: seq<Merged>)
    ensures all == Fold(source, records, rows)
  {
    all := records;
    var i := 0;
    while i < |rows|
      invariant 0 <= i <= |rows|
      invariant all == Fold(source, records, rows[..i])
    {
      FoldStep(source, records, rows, i);
      var row := rows[i];
      match source {
        case Asos =>
          var t := AsosTemperature(row.value);
          if t.Some? {
            all := all + [Merged(row.stationId, row.datetime, t.value, None, None, None, None)];
          }
        case Pm10 =>
          var v := Numeric(row.value);
          var j := FindRecord(all, row.stationId, row.datetime);
          if j < |all| {
            all := all[j := all[j].(pm10 := v)];
          } else {
            all := all + [Merged(row.stationId, row.datetime, None, v, None, None, None)];
          }
        case Uv =>
          var uvb, uva, euv := UvValue(row.value), UvValue(row.uvaValue), UvValue(row.euvValue);
          var j := FindRecord(all, row.stationId, row.datetime);
          if j < |all| {
            all := all[j := all[j].(uvUvb := uvb, uvUva := uva, uvEuv := euv)];
          } else {
            all := all + [Merged(row.stationId, row.datetime, None, None, uvb, uva, euv)];
          }
      }
      i := i + 1;
    }
    assert rows[..i] == rows;
  }

  /**
   * `create_ml_dataset`: the three passes, then dropna, the sort and the
   * engineered features; no records at all give the empty seven-column table.
   */
  method CreateMlDataset(asos: seq<SourceRow>, pm10: seq<SourceRow>, uv: seq<SourceRow>) returns (frame: Frame)
    ensures frame == MlDataset(asos, pm10, uv)
    ensures |frame.rows| <= |asos| + |pm10| + |uv|
  {
    var all := Absorb(Asos, [], asos);
    all := Absorb(Pm10, all, pm10);
    all := Absorb(Uv, all, uv);
    if all == [] {
      return Frame(BaseColumns, []);
    }
    var rows := SortRows(Dated(all));
    assert |rows| == |multiset(rows)| == |Dated(all)|;
    frame := AddEngineeredFeatures(rows);
  }

  // ----- Properties of the fused table -----

  /** At most one row per input record, every row dated, sorted by (time, station); no input at all gives the seven base columns. */
  lemma MlDatasetShape(asos: seq<SourceRow>, pm10: seq<SourceRow>, uv: seq<SourceRow>)
    ensures var frame := MlDataset(asos, pm10, uv);
      && |frame.rows| <= |asos| + |pm10| + |uv|
      && Sorted(seq(|frame.rows|, i requires 0 <= i < |frame.rows| => frame.rows[i].base))
      && (frame.rows == [] ==> frame.columns == BaseColumns)
      && (frame.rows != [] ==> frame.columns == BaseColumns + EngineeredColumns)
      && (asos == [] && pm10 == [] && uv == [] ==> frame == Frame(BaseColumns, []))
  {
    var records := Fuse(asos, pm10, uv);
    if records != [] {
      var afterAsos := Fold(Asos, [], asos);
      var afterPm10 := Fold(Pm10, afterAsos, pm10);
      assert |records| <= |afterPm10| + |uv| && |afterPm10| <= |afterAsos| + |pm10| && |afterAsos| <= |asos|;
      SortedFrame(records);
    }
  }

  /** The frame built from the sorted dated records: one row per dated record, in key order. */
  lemma SortedFrame(records: seq<Merged>)
    ensures var frame := AddEngineeredFeatures(SortRows(Dated(records)));
      && |frame.rows| <= |records|
      && Sorted(seq(|frame.rows|, i requires 0 <= i < |frame.rows| => frame.rows[i].base))
  {
    var dated := Dated(records);
    SortRowsSorted(dated);
    SortRowsLength(dated);
    EngineeredBases(SortRows(dated));
  }

  /** Sorting keeps the number of rows. */
  lemma SortRowsLength(rows: seq<FusedRow>)
    ensures |SortRows(rows)| == |rows|
  {
    assert |SortRows(rows)| == |multiset(SortRows(rows))| == |multiset(rows)| == |rows|;
  }

  /** The base rows of the engineered table are its input rows, in order. */
  lemma EngineeredBases(rows: seq<FusedRow>)
    ensures var frame := AddEngineeredFeatures(rows);
      seq(|frame.rows|, i requires 0 <= i < |frame.rows| => frame.rows[i].base) == rows
  {
    var frame := AddEngineeredFeatures(rows);
    assert |frame.rows| == |rows|;
  }

  /** The table's rows are the dated fused records, each exactly once: a permutation, nothing lost or added. */
  lemma MlDatasetContents(asos: seq<SourceRow>, pm10: seq<SourceRow>, uv: seq<SourceRow>)
    ensures var frame := MlDataset(asos, pm10, uv);
      multiset(seq(|frame.rows|, i requires 0 <= i < |frame.rows| => frame.rows[i].base)) ==
        multiset(Dated(Fuse(asos, pm10, uv)))
  {
    var records := Fuse(asos, pm10, uv);
    var frame := MlDataset(asos, pm10, uv);
    var bases := seq(|frame.rows|, i requires 0 <= i < |frame.rows| => frame.rows[i].base);
    if records == [] {
      assert bases == [];
    } else {
      var sorted := SortRows(Dated(records));
      assert bases == sorted;
    }
  }

  /** The sorted table holds exactly the dated records: none lost, none added. */
  lemma {:induction false} DatedKeepsDated(records: seq<Merged>)
    ensures forall m :: m in records && m.datetime.Some? ==>
      FusedRow(m.stationId, m.datetime.value, m.temperature, m.pm10, m.uvUvb, m.uvUva, m.uvEuv) in Dated(records)
    ensures forall r :: r in Dated(records) ==>
      Merged(r.stationId, Some(r.datetime), r.temperature, r.pm10, r.uvUvb, r.uvUva, r.uvEuv) in records
  {
    if records != [] {
      var init := records[..|records| - 1];
      DatedKeepsDated(init);
      assert records == init + [records[|records| - 1]];
    }
  }

  /** Ground-station records are never merged: two with the same key give two rows. */
  lemma AsosNeverMerged(records: seq<Merged>, row: SourceRow, t: Option<real>)
    requires AsosTemperature(row.value) == Some(t)
    ensures var m := Merged(row.stationId, row.datetime, t, None, None, None, None);
      Fold(Asos, records, [row, row]) == records + [m, m]
  {
    var m := Merged(row.stationId, row.datetime, t, None, None, None, None);
    var rows := [row, row];
    FoldStep(Asos, records, rows, 0);
    FoldStep(Asos, records, rows, 1);
    assert rows[..0] == [] && rows[..2] == rows;
    AsosStep(records, row, t);
    AsosStep(records + [m], row, t);
    assert records + [m] + [m] == records + [m, m];
  }

  /** A ground-station row with a usable value appends one record. */
  lemma AsosStep(records: seq<Merged>, row: SourceRow, t: Option<real>)
    requires AsosTemperature(row.value) == Some(t)
    ensures Step(Asos, records, row) == records + [Merged(row.stationId, row.datetime, t, None, None, None, None)]
  {
  }

  /** A value that passes the digit check but that `float()` rejects drops the whole record. */
  lemma MalformedAsosDropped(records: seq<Merged>, row: SourceRow)
    requires row.value == Str("1.2.3") || row.value == Str("5-2")
    ensures Fold(Asos, records, [row]) == records
  {
    assert [row][..0] == [];
    if row.value == Str("1.2.3") {
      DigitLikeWhen("1.2.3", 0);
      ParseFloatMalformedPoint();
    } else {
      DigitLikeWhen("5-2", 0);
      ParseFloatMalformedMinus();
    }
  }

  /** Text made of digits, points and minus signs, with at least one digit, passes the digit check. */
  lemma DigitLikeWhen(s: string, i: nat)
    requires i < |s| && IsDigit(s[i])
    requires forall k :: 0 <= k < |s| ==> IsDigit(s[k]) || s[k] == '.' || s[k] == '-'
    ensures DigitLike(s)
  {
    var once := Without(s, '.');
    assert s[i] in once;
    var k :| 0 <= k < |once| && once[k] == s[i];
    assert once[k] in Without(once, '-');
  }

  lemma ParseFloatMalformedPoint()
    ensures ParseFloat("1.2.3") == None
  {
    var s := "1.2.3";
    assert s[0] != '.' && s[1] == '.';
    assert IndexOf(s, '.') == 1;
    assert s[2..][1] == '.';
    ParseFloatRejects(s);
  }

  lemma ParseFloatMalformedMinus()
    ensures ParseFloat("5-2") == None
  {
    var s := "5-2";
    assert '.' !in s;
    assert !IsDigit(s[1]);
    ParseFloatRejects(s);
  }

  /**
   * A PM10 record updates the `pm10` of the first row with its key and
   * nothing else, or appends a row whose other values are all missing.
   */
  lemma Pm10Merge(records: seq<Merged>, row: SourceRow)
    ensures var r, v := Step(Pm10, records, row), Numeric(row.value);
      var j := FirstMatch(records, row.stationId, row.datetime);
      && (forall k :: 0 <= k < j ==> !SameKey(records[k], row.stationId, row.datetime))
      && (j < |records| ==>
            && SameKey(records[j], row.stationId, row.datetime)
            && |r| == |records| && r[j] == records[j].(pm10 := v)
            && forall k :: 0 <= k < |records| && k != j ==> r[k] == records[k])
      && (j == |records| ==>
            r == records + [Merged(row.stationId, row.datetime, None, v, None, None, None)])
  {
  }

  /** A UV record does the same with the three UV values, the sentinel already translated. */
  lemma UvMerge(records: seq<Merged>, row: SourceRow)
    ensures var r := Step(Uv, records, row);
      var uvb, uva, euv := UvValue(row.value), UvValue(row.uvaValue), UvValue(row.euvValue);
      var j := FirstMatch(records, row.stationId, row.datetime);
      && (j < |records| ==>
            && |r| == |records| && r[j] == records[j].(uvUvb := uvb, uvUva := uva, uvEuv := euv)
            && forall k :: 0 <= k < |records| && k != j ==> r[k] == records[k])
      && (j == |records| ==>
            r == records + [Merged(row.stationId, row.datetime, None, None, uvb, uva, euv)])
  {
  }

  /** A later PM10 record with the same key and no value overwrites an earlier value with `None`. */
  lemma Pm10OverwriteWithNone(first: SourceRow, second: SourceRow, p: int)
    requires first.datetime.Some? && first.value == Int(p)
    requires second.stationId == first.stationId && second.datetime == first.datetime && second.value == Absent
    ensures Fold(Pm10, [], [first, second]) == [Merged(first.stationId, first.datetime, None, None, None, None, None)]
  {
    assert [first, second][..1] == [first];
    assert [first][..0] == [];
    var after := Fold(Pm10, [], [first]);
    assert after == [Merged(first.stationId, first.datetime, None, Some(p as real), None, None, None)];
    assert FirstMatch(after, second.stationId, second.datetime) == 0;
  }

  /** Every way of writing -999 (`-999`, `-999.0`, `-999.00`, ...) is the UV sentinel and becomes `None`. */
  lemma UvSentinel(places: nat)
    ensures UvValue(Str(FixedPoint(true, 999 * Pow10(places), places))) == None
    ensures UvValue(Int(-999)) == None
  {
    var s := FixedPoint(true, 999 * Pow10(places), places);
    ParseFixedPoint(true, 999 * Pow10(places), places);
    ShiftedWhole(999, places);
    assert Numeric(Str(s)) == Some(-999.0);
  }
}
