/**
 * `extract_measurements`: the flattening of a decoded KMA JSON response into
 * one row per item, all stamped with the response's base date and time.
 * Where the source raises, the model returns a `Failure` naming the exception.
 */
module Payload {
  import opened Wrappers
  import opened Numbers
  import opened Calendar
  import opened Timestamps

  /** A decoded JSON value (numbers are integers here). */
  datatype Json =
    | Null
    | Bool(b: bool)
    | Num(n: int)
    | Str(s: string)
    | Arr(elems: seq<Json>)
    | Obj(fields: map<string, Json>)

  /** Python's truth value of a decoded JSON value. */
  predicate Truthy(j: Json) {
    match j
    case Null => false
    case Bool(b) => b
    case Num(n) => n != 0
    case Str(s) => s != []
    case Arr(es) => es != []
    case Obj(m) => m != map[]
  }

  /** The exceptions `extract_measurements` can raise. */
  datatype Failure =
    | NoGetMethod         // AttributeError: `.get` called on something that is not a mapping
    | NotIterable         // TypeError: `items` is a number, a boolean or `None`
    | MissingBaseDateTime // ValueError: base date or base time absent or empty
    | BadTimestamp        // ValueError from `strptime`

  /** One output row; `created_at` (the wall clock) is not modelled. */
  datatype Row = Row(stationId: Json, observedAt: DateTime, category: Json, value: Json, unit: Json)

  /** `m.get(key, default)`. */
  function GetOr(m: map<string, Json>, key: string, default: Json): (j: Json)
    ensures key in m ==> j == m[key]
    ensures key !in m ==> j == default
  {
    if key in m then m[key] else default
  }

  /** `f"{j}"` for the scalars; containers render with a bracket first, which no timestamp matches. */
  function Render(j: Json): (r: Option<string>)
    ensures r.None? <==> j.Arr? || j.Obj?
  {
    match j
    case Null => Some("None")
    case Bool(b) => Some(if b then "True" else "False")
    case Num(n) => Some(if n < 0 then "-" + NatToString(-n) else NatToString(n))
    case Str(s) => Some(s)
    case Arr(_) => None
    case Obj(_) => None
  }

  /** `payload.get("response", {}).get("body", {})`. */
  function ResponseBody(payload: map<string, Json>): (r: Result<map<string, Json>, Failure>)
    ensures r.Failure? ==> r.error == NoGetMethod
  {
    var response := GetOr(payload, "response", Obj(map[]));
    if !response.Obj? then Failure(NoGetMethod)
    else
      var body := GetOr(response.fields, "body", Obj(map[]));
      if !body.Obj? then Failure(NoGetMethod) else Success(body.fields)
  }

  /** `_parse_datetime(base_date, base_time)` after the emptiness check. */
  function ObservedAt(body: map<string, Json>): (r: Result<DateTime, Failure>)
    ensures r.Failure? ==> r.error == MissingBaseDateTime || r.error == BadTimestamp
  {
    var baseDate, baseTime := GetOr(body, "baseDate", Null), GetOr(body, "baseTime", Null);
    if !Truthy(baseDate) || !Truthy(baseTime) then Failure(MissingBaseDateTime)
    else if Render(baseDate).None? || Render(baseTime).None? then Failure(BadTimestamp)
    else
      match ParseDatetime(Render(baseDate).value, Render(baseTime).value)
      case None => Failure(BadTimestamp)
      case Some(at) => Success(at)
  }

  /**
   * What `for item in items` visits, each item then answering `.get`: the
   * elements of a list of mappings. Iterating a string or a mapping visits
   * strings, which have no `.get`, so only an empty one gets through.
   */
  function Items(items: Json): (r: Result<seq<map<string, Json>>, Failure>)
    ensures r.Success? && items.Arr? ==> |r.value| == |items.elems|
    ensures r.Success? && !items.Arr? ==> r.value == []
  {
    match items
    case Null => Failure(NotIterable)
    case Bool(_) => Failure(NotIterable)
    case Num(_) => Failure(NotIterable)
    case Str(s) => if s == [] then Success([]) else Failure(NoGetMethod)
    case Obj(m) => if m == map[] then Success([]) else Failure(NoGetMethod)
    case Arr(es) =>
      if forall k :: 0 <= k < |es| ==> es[k].Obj? then
        Success(seq(|es|, k requires 0 <= k < |es| && es[k].Obj? => es[k].fields))
      else Failure(NoGetMethod)
  }

  /** The row built for one item. */
  function RowOf(item: map<string, Json>, at: DateTime): Row {
    Row(GetOr(item, "stationId", Null), at, GetOr(item, "category", Null),
        GetOr(item, "obsrValue", Null), GetOr(item, "unit", Str("")))
  }

  /** What `extract_measurements` returns or raises for a payload, in the order the source checks. */
  function Extract(payload: map<string, Json>): Result<seq<Row>, Failure> {
    match ResponseBody(payload)
    case Failure(e) => Failure(e)
    case Success(body) =>
      match ObservedAt(body)
      case Failure(e) => Failure(e)
      case Success(at) =>
        match Items(GetOr(body, "items", Arr([])))
        case Failure(e) => Failure(e)
        case Success(items) => Success(RowsOf(items, at))
  }

  /** One row per item, in order. */
  function RowsOf(items: seq<map<string, Json>>, at: DateTime): (rows: seq<Row>)
    ensures |rows| == |items|
    ensures forall k :: 0 <= k < |items| ==> rows[k].observedAt == at
  {
    seq(|items|, k requires 0 <= k < |items| => RowOf(items[k], at))
  }

  /**
   * `extract_measurements`: checks the metadata, then one pass over the items
   * appending a row per item, every row carrying the same observation time.
   */
  method ExtractMeasurements(payload: map<string, Json>) returns (r: Result<seq<Row>, Failure>)
    ensures r == Extract(payload)
    ensures r.Success? ==> ResponseBody(payload).Success? && ObservedAt(ResponseBody(payload).value).Success?
    ensures r.Success? ==>
      var at := ObservedAt(ResponseBody(payload).value).value;
      forall k :: 0 <= k < |r.value| ==> r.value[k].observedAt == at
  {
    var body := ResponseBody(payload);
    if body.Failure? {
      return Failure(body.error);
    }
    var observed := ObservedAt(body.value);
    if observed.Failure? {
      return Failure(observed.error);
    }
    var at := observed.value;
    var items := Items(GetOr(body.value, "items", Arr([])));
    if items.Failure? {
      return Failure(items.error);
    }
    var rows := AppendRows(items.value, at);
    return Success(rows);
  }

  /** The loop of `extract_measurements`: a row appended per item. */
  method AppendRows(items: seq<map<string, Json>>, at: DateTime) returns (rows: seq<Row>)
    ensures rows == RowsOf(items, at)
  {
    rows := [];
    var i := 0;
    while i < |items|
      invariant 0 <= i <= |items|
      invariant rows == RowsOf(items[..i], at)
    {
      assert RowsOf(items[..i + 1], at) == rows + [RowOf(items[i], at)];
      rows := rows + [RowOf(items[i], at)];
      i := i + 1;
    }
    assert items[..i] == items;
  }

  /** The source raises `ValueError` for missing metadata exactly when the response and body are mappings and either field is falsy. */
  lemma MissingMetadata(payload: map<string, Json>)
    ensures Extract(payload) == Failure(MissingBaseDateTime) <==>
      && ResponseBody(payload).Success?
      && var body := ResponseBody(payload).value;
      (!Truthy(GetOr(body, "baseDate", Null)) || !Truthy(GetOr(body, "baseTime", Null)))
  {
  }

  /** A successful extraction has one row per item of the `items` list, in order, all at the same time. */
  lemma OneRowPerItem(payload: map<string, Json>)
    requires Extract(payload).Success?
    ensures var body := ResponseBody(payload).value;
      var items := GetOr(body, "items", Arr([]));
      var rows := Extract(payload).value;
      && (items.Arr? ==> |rows| == |items.elems|)
      && (!items.Arr? ==> rows == [])
      && forall k :: 0 <= k < |rows| ==>
           rows[k].observedAt == ObservedAt(body).value
           && (items.Arr? ==> rows[k] == RowOf(items.elems[k].fields, rows[k].observedAt))
  {
  }

  /** A missing unit becomes the empty string; missing station, category and value become `None`. */
  lemma RowDefaults(item: map<string, Json>, at: DateTime)
    requires "unit" !in item && "stationId" !in item && "category" !in item && "obsrValue" !in item
    ensures RowOf(item, at) == Row(Null, at, Null, Null, Str(""))
  {
  }

  /** Eight-character base dates and four-character base times are read field by field. */
  lemma ObservedAtFixed(body: map<string, Json>, baseDate: string, baseTime: string)
    requires GetOr(body, "baseDate", Null) == Str(baseDate) && |baseDate| == 8
    requires GetOr(body, "baseTime", Null) == Str(baseTime) && |baseTime| == 4
    ensures ObservedAt(body) == (match DecodeFixed(baseDate + baseTime)
                                 case Some(at) => Success(at)
                                 case None => Failure(BadTimestamp))
  {
    ObservedAtText(body, baseDate, baseTime);
    ParseDatetimeFixed(baseDate, baseTime);
  }

  /** Non-empty text metadata is handed to the timestamp parser as it is. */
  lemma ObservedAtText(body: map<string, Json>, baseDate: string, baseTime: string)
    requires GetOr(body, "baseDate", Null) == Str(baseDate) && baseDate != []
    requires GetOr(body, "baseTime", Null) == Str(baseTime) && baseTime != []
    ensures ObservedAt(body) == (match ParseDatetime(baseDate, baseTime)
                                 case Some(at) => Success(at)
                                 case None => Failure(BadTimestamp))
  {
  }
}
