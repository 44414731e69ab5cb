/**
 * `add_engineered_features` and `calculate_comfort_score`: the per-row
 * temporal, station, threshold and comfort features derived from a fused
 * weather row. pandas' NaN/NaT are `None`; a comparison with a missing value
 * is false, as NaN comparisons are.
 */
module Features {
  import opened Wrappers
  import opened Calendar

  /** One row of the fused table: a station, a time and the five measured values. */
  datatype FusedRow = FusedRow(
    stationId: string,
    datetime: Timestamp,
    temperature: Option<real>,
    pm10: Option<real>,
    uvUvb: Option<real>,
    uvUva: Option<real>,
    uvEuv: Option<real>)

  /** A fused row with the engineered columns, in the order they are added. */
  datatype FeatureRow = FeatureRow(
    base: FusedRow,
    hour: int,
    dayOfWeek: int,
    month: int,
    isRushHour: bool,
    isMorningRush: bool,
    isEveningRush: bool,
    isWeekday: bool,
    isWeekend: bool,
    season: string,
    tempCategory: Option<string>,
    tempComfort: Option<real>,
    tempExtreme: bool,
    heatingNeeded: bool,
    coolingNeeded: bool,
    isMetroArea: bool,
    isCoastal: bool,
    region: string,
    pm10Grade: Option<string>,
    maskNeeded: bool,
    outdoorActivityOk: bool,
    hasUv: bool,
    sunProtectionNeeded: bool,
    comfortScore: real)

  /** A table: its column names and its rows. */
  datatype Frame = Frame(columns: seq<string>, rows: seq<FeatureRow>)

  const BaseColumns: seq<string> :=
    ["station_id", "datetime", "temperature", "pm10", "uv_uvb", "uv_uva", "uv_euv"]

  const EngineeredColumns: seq<string> :=
    ["hour", "day_of_week", "month", "is_rush_hour", "is_morning_rush", "is_evening_rush",
     "is_weekday", "is_weekend", "season", "temp_category", "temp_comfort", "temp_extreme",
     "heating_needed", "cooling_needed", "is_metro_area", "is_coastal", "region",
     "pm10_grade", "mask_needed", "outdoor_activity_ok", "has_uv", "sun_protection_needed",
     "comfort_score"]

  // ----- Comparisons on values that may be missing -----

  predicate Below(x: Option<real>, c: real) {
    x.Some? && x.value < c
  }

  predicate Above(x: Option<real>, c: real) {
    x.Some? && x.value > c
  }

  predicate AtMost(x: Option<real>, c: real) {
    x.Some? && x.value <= c
  }

  // ----- pd.cut -----

  /** Strictly increasing bin edges. */
  predicate Increasing(bins: seq<real>) {
    forall i :: 0 <= i < |bins| - 1 ==> bins[i] < bins[i + 1]
  }

  /** The label of the right-closed bin `(bins[i], bins[i+1]]` holding `v`, if any. */
  function Bin(v: real, bins: seq<real>, labels: seq<string>): (r: Option<string>)
    requires |bins| == |labels| + 1 && Increasing(bins)
    ensures r.Some? <==> |labels| > 0 && bins[0] < v <= bins[|bins| - 1]
    ensures forall i :: 0 <= i < |labels| && bins[i] < v <= bins[i + 1] ==> r == Some(labels[i])
  {
    if |labels| == 0 then None
    else if bins[0] < v <= bins[1] then
      BinEdges(bins[1..]);
      assert forall i :: 1 <= i < |bins| ==> bins[1..][i - 1] == bins[i];
      Some(labels[0])
    else
      var r := Bin(v, bins[1..], labels[1..]);
      assert forall i :: 1 <= i < |labels| ==> bins[1..][i - 1] == bins[i] && bins[1..][i] == bins[i + 1];
      BinEdges(bins);
      r
  }

  lemma {:induction false} BinEdges(bins: seq<real>)
    requires |bins| >= 1 && Increasing(bins)
    ensures forall i :: 0 <= i < |bins| ==> bins[0] <= bins[i] <= bins[|bins| - 1]
    decreases |bins|
  {
    if |bins| > 1 {
      BinEdges(bins[1..]);
      assert forall i :: 1 <= i < |bins| ==> bins[1..][i - 1] == bins[i];
    }
  }

  /** `pd.cut(x, bins, labels)`: missing stays missing. */
  function Cut(x: Option<real>, bins: seq<real>, labels: seq<string>): Option<string>
    requires |bins| == |labels| + 1 && Increasing(bins)
  {
    if x.None? then None else Bin(x.value, bins, labels)
  }

  const TempBins: seq<real> := [-999.0, 0.0, 10.0, 20.0, 30.0, 999.0]
  const TempLabels: seq<string> := ["very_cold", "cold", "mild", "warm", "hot"]
  const Pm10Bins: seq<real> := [0.0, 30.0, 80.0, 150.0, 999.0]
  const Pm10Labels: seq<string> := ["good", "moderate", "unhealthy", "very_unhealthy"]

  /** `temp_category`. */
  function TempCategory(t: Option<real>): Option<string> {
    Cut(t, TempBins, TempLabels)
  }

  /** `pm10_grade`. */
  function Pm10Grade(p: Option<real>): Option<string> {
    Cut(p, Pm10Bins, Pm10Labels)
  }

  /** The temperature bins are right-closed at 0, 10, 20 and 30, and nothing outside (-999, 999] gets one. */
  lemma TempCategoryBins(t: Option<real>)
    ensures TempCategory(t).Some? <==> t.Some? && -999.0 < t.value <= 999.0
    ensures t.Some? && -999.0 < t.value <= 0.0 ==> TempCategory(t) == Some("very_cold")
    ensures t.Some? && 0.0 < t.value <= 10.0 ==> TempCategory(t) == Some("cold")
    ensures t.Some? && 10.0 < t.value <= 20.0 ==> TempCategory(t) == Some("mild")
    ensures t.Some? && 20.0 < t.value <= 30.0 ==> TempCategory(t) == Some("warm")
    ensures t.Some? && 30.0 < t.value <= 999.0 ==> TempCategory(t) == Some("hot")
  {
    if t.Some? {
      var v := t.value;
      assert TempBins[0] == -999.0 && TempBins[1] == 0.0 && TempBins[2] == 10.0;
      assert TempBins[3] == 20.0 && TempBins[4] == 30.0 && TempBins[5] == 999.0;
    }
  }

  /** The PM10 grades cover (0, 999] only: zero and values above 999 have no grade. */
  lemma Pm10GradeBins(p: Option<real>)
    ensures Pm10Grade(p).Some? <==> p.Some? && 0.0 < p.value <= 999.0
    ensures p.Some? && 0.0 < p.value <= 30.0 ==> Pm10Grade(p) == Some("good")
    ensures p.Some? && 30.0 < p.value <= 80.0 ==> Pm10Grade(p) == Some("moderate")
    ensures p.Some? && 80.0 < p.value <= 150.0 ==> Pm10Grade(p) == Some("unhealthy")
    ensures p.Some? && 150.0 < p.value <= 999.0 ==> Pm10Grade(p) == Some("very_unhealthy")
  {
    if p.Some? {
      assert Pm10Bins[0] == 0.0 && Pm10Bins[1] == 30.0 && Pm10Bins[2] == 80.0;
      assert Pm10Bins[3] == 150.0 && Pm10Bins[4] == 999.0;
    }
  }

  // ----- Time, station and threshold features -----

  /** The season of a month: winter from December, spring from March, summer from June, autumn from September. */
  function Season(month: int): (s: string)
    requires 1 <= month <= 12
    ensures s in ["winter", "spring", "summer", "autumn"]
    ensures s == "winter" <==> month in {12, 1, 2}
    ensures s == "spring" <==> month in {3, 4, 5}
    ensures s == "summer" <==> month in {6, 7, 8}
  {
    if month == 12 || month <= 2 then "winter"
    else if month <= 5 then "spring"
    else if month <= 8 then "summer"
    else "autumn"
  }

  const MetroStations: seq<string> := ["100", "101", "102", "104", "105", "108", "112", "119", "129", "133"]
  const CoastalStations: seq<string> := ["102", "104", "115", "130", "131", "152", "156", "159", "168"]

  /** The region named by a station id's first character; anything else, the empty id included, is "other". */
  function Region(stationId: string): (r: string)
    ensures r in ["central", "south", "east", "west", "other"]
    ensures r == "central" <==> stationId != [] && stationId[0] == '1'
    ensures r == "south" <==> stationId != [] && stationId[0] == '2'
    ensures r == "east" <==> stationId != [] && stationId[0] == '3'
    ensures r == "west" <==> stationId != [] && stationId[0] == '9'
  {
    if stationId == [] then "other"
    else match stationId[0]
      case '1' => "central"
      case '2' => "south"
      case '3' => "east"
      case '9' => "west"
      case _ => "other"
  }

  /** `20 - |t - 20|`: best at 20 degrees, never above 20. */
  function TempComfort(t: Option<real>): (c: Option<real>)
    ensures c.Some? <==> t.Some?
    ensures c.Some? ==> c.value <= 20.0 && (c.value == 20.0 <==> t.value == 20.0)
  {
    if t.None? then None
    else Some(20.0 - (if t.value >= 20.0 then t.value - 20.0 else 20.0 - t.value))
  }

  predicate MorningRush(hour: int) {
    hour in {7, 8, 9}
  }

  predicate EveningRush(hour: int) {
    hour in {18, 19, 20}
  }

  /** Below zero or above thirty degrees; never when the temperature is missing. */
  predicate TempExtreme(t: Option<real>) {
    Below(t, 0.0) || Above(t, 30.0)
  }

  // ----- calculate_comfort_score -----

  /** The temperature sub-score; a missing temperature scores 100. */
  function TemperatureScore(t: Option<real>): (s: real)
    ensures 10.0 <= s <= 100.0
  {
    if t.None? then 100.0
    else
      var x := t.value;
      if 15.0 <= x <= 22.0 then 90.0
      else if 10.0 <= x <= 25.0 then 70.0
      else if 5.0 <= x <= 30.0 then 50.0
      else if 0.0 <= x <= 35.0 then 20.0
      else 10.0
  }

  /** The PM10 sub-score; a missing value scores a neutral 50. */
  function Pm10Score(p: Option<real>): (s: real)
    ensures 10.0 <= s <= 90.0
  {
    if p.None? then 50.0
    else
      var x := p.value;
      if x <= 15.0 then 90.0
      else if x <= 35.0 then 70.0
      else if x <= 75.0 then 50.0
      else if x <= 150.0 then 30.0
      else 10.0
  }

  /** `np.clip(x, 0, 100)`. */
  function Clip(x: real): (r: real)
    ensures 0.0 <= r <= 100.0
    ensures 0.0 <= x <= 100.0 ==> r == x
    ensures x < 0.0 ==> r == 0.0
    ensures x > 100.0 ==> r == 100.0
  {
    if x < 0.0 then 0.0 else if x > 100.0 then 100.0 else x
  }

  /** The blend before clipping: base 50 halved with the temperature score, then 70/30 with the PM10 score, then the adjustments. */
  function RawComfort(tempScore: real, pm10Score: real, rush: bool, weekend: bool, extreme: bool): real {
    var scores := 50.0;
    var scores := scores * 0.5 + tempScore * 0.5;
    var scores := scores * 0.7 + pm10Score * 0.3;
    var scores := scores - (if rush then 10.0 else 0.0);
    var scores := scores + (if weekend then 5.0 else 0.0);
    scores - (if extreme then 20.0 else 0.0)
  }

  /** The comfort score of a row, always within [0, 100]. */
  function ComfortScore(row: FusedRow): (s: real)
    ensures 0.0 <= s <= 100.0
  {
    var hour := row.datetime.hour;
    Clip(RawComfort(TemperatureScore(row.temperature), Pm10Score(row.pm10),
                    MorningRush(hour) || EveningRush(hour), DayOfWeek(row.datetime) >= 5,
                    TempExtreme(row.temperature)))
  }

  /** Both blends always run, so a row with neither value, outside rush hour on a weekday, scores 67.5 and not 50. */
  lemma AllMissingScore(row: FusedRow)
    requires row.temperature.None? && row.pm10.None?
    requires !MorningRush(row.datetime.hour) && !EveningRush(row.datetime.hour)
    requires DayOfWeek(row.datetime) < 5
    ensures ComfortScore(row) == 67.5
  {
  }

  /** Whatever else holds, 18 degrees scores strictly more than 40 degrees. */
  lemma MildBeatsHot(row: FusedRow)
    ensures ComfortScore(row.(temperature := Some(18.0))) > ComfortScore(row.(temperature := Some(40.0)))
  {
  }

  /** Within the clip, rush hour costs exactly 10 points and a weekend earns exactly 5. */
  lemma AdjustmentSizes(t: real, p: real, extreme: bool)
    requires 10.0 <= t <= 100.0 && 10.0 <= p <= 90.0
    ensures RawComfort(t, p, false, false, extreme) - RawComfort(t, p, true, false, extreme) == 10.0
    ensures RawComfort(t, p, false, true, extreme) - RawComfort(t, p, false, false, extreme) == 5.0
    ensures Clip(RawComfort(t, p, true, false, extreme)) <= Clip(RawComfort(t, p, false, false, extreme))
  {
  }

  /** A better temperature or PM10 sub-score never lowers the comfort score. */
  lemma ComfortMonotone(t1: real, t2: real, p1: real, p2: real, rush: bool, weekend: bool, extreme: bool)
    requires t1 <= t2 && p1 <= p2
    ensures Clip(RawComfort(t1, p1, rush, weekend, extreme)) <= Clip(RawComfort(t2, p2, rush, weekend, extreme))
  {
  }

  // ----- add_engineered_features -----

  /** Every engineered column of one row. */
  function Engineer(row: FusedRow): (f: FeatureRow)
    ensures f.base == row
    ensures f.isRushHour <==> f.isMorningRush || f.isEveningRush
    ensures f.isWeekday <==> !f.isWeekend
    ensures 0 <= f.hour < 24 && 0 <= f.dayOfWeek < 7 && 1 <= f.month <= 12
    ensures f.tempComfort.Some? ==> f.tempComfort.value <= 20.0
    ensures row.temperature.None? ==> !f.tempExtreme && !f.heatingNeeded && !f.coolingNeeded
    ensures row.pm10.None? ==> !f.maskNeeded && !f.outdoorActivityOk
    ensures row.uvUvb.None? ==> !f.hasUv && !f.sunProtectionNeeded
    ensures 0.0 <= f.comfortScore <= 100.0
  {
    var d := row.datetime;
    var dow := DayOfWeek(d);
    FeatureRow(
      row,
      d.hour,
      dow,
      d.month,
      MorningRush(d.hour) || EveningRush(d.hour),
      MorningRush(d.hour),
      EveningRush(d.hour),
      dow < 5,
      dow >= 5,
      Season(d.month),
      TempCategory(row.temperature),
      TempComfort(row.temperature),
      TempExtreme(row.temperature),
      Below(row.temperature, 10.0),
      Above(row.temperature, 25.0),
      row.stationId in MetroStations,
      row.stationId in CoastalStations,
      Region(row.stationId),
      Pm10Grade(row.pm10),
      Above(row.pm10, 50.0),
      AtMost(row.pm10, 80.0),
      Above(row.uvUvb, 0.0),
      Above(row.uvUvb, 0.02),
      ComfortScore(row))
  }

  /** `add_engineered_features`: an empty table comes back as it is; otherwise one engineered row per row, in order. */
  function AddEngineeredFeatures(rows: seq<FusedRow>): (frame: Frame)
    ensures |frame.rows| == |rows|
    ensures forall i :: 0 <= i < |rows| ==> frame.rows[i].base == rows[i]
    ensures rows == [] ==> frame.columns == BaseColumns
    ensures rows != [] ==> frame.columns == BaseColumns + EngineeredColumns
  {
    if rows == [] then Frame(BaseColumns, [])
    else Frame(BaseColumns + EngineeredColumns, seq(|rows|, i requires 0 <= i < |rows| => Engineer(rows[i])))
  }

  /** Row i of the engineered table is the engineered row i, so every fact about `Engineer` holds of it. */
  lemma EngineeredRows(rows: seq<FusedRow>)
    ensures var frame := AddEngineeredFeatures(rows);
      forall i :: 0 <= i < |rows| ==> frame.rows[i] == Engineer(rows[i])
  {
  }

  /** The thresholds on a row that has its values: heating below 10, cooling above 25, a mask above 50, outdoors at most 80, sun protection above 0.02. */
  lemma Thresholds(row: FusedRow, t: real, p: real, uvb: real)
    requires row.temperature == Some(t) && row.pm10 == Some(p) && row.uvUvb == Some(uvb)
    ensures Engineer(row).heatingNeeded <==> t < 10.0
    ensures Engineer(row).coolingNeeded <==> t > 25.0
    ensures Engineer(row).tempExtreme <==> t < 0.0 || t > 30.0
    ensures Engineer(row).maskNeeded <==> p > 50.0
    ensures Engineer(row).outdoorActivityOk <==> p <= 80.0
    ensures Engineer(row).hasUv <==> uvb > 0.0
    ensures Engineer(row).sunProtectionNeeded <==> uvb > 0.02
  {
  }
}
