/**
 * The KMA line-format parsers (ground stations, PM10, UV) and the extractor of
 * the JSON payload, with "now" passed in where the source reads the clock.
 */
module Parsers {
  import opened Wrappers
  import opened Text
  import opened Numbers
  import opened Calendar
  import opened Timestamps

  /** A cell of a parsed record: `None`, a string, or an integer. */
  datatype Value = Absent | Str(s: string) | Int(i: int)

  /** One parsed observation. `uvaValue` and `euvValue` are `Absent` except in UV records. */
  datatype Record = Record(
    stationId: string,
    observedAt: DateTime,
    category: string,
    value: Value,
    uvaValue: Value,
    euvValue: Value,
    unit: string,
    rawLine: string)

  /** A line the parsers look at: not a `#` comment and not all whitespace. */
  predicate IsDataLine(line: string) {
    !StartsWith(line, "#") && Strip(line) != []
  }

  /** The data lines of a list, in order. */
  function KeepData(lines: seq<string>): (r: seq<string>)
    ensures |r| <= |lines|
    ensures forall k :: 0 <= k < |r| ==> IsDataLine(r[k]) && r[k] in lines
  {
    if lines == [] then []
    else if IsDataLine(lines[0]) then [lines[0]] + KeepData(lines[1..])
    else KeepData(lines[1..])
  }

  /** No data line is lost: every data line of the input is among the kept ones. */
  lemma {:induction false} KeepDataKeepsAll(lines: seq<string>)
    ensures forall line :: line in lines && IsDataLine(line) ==> line in KeepData(lines)
  {
    if lines != [] {
      KeepDataKeepsAll(lines[1..]);
      assert lines == [lines[0]] + lines[1..];
    }
  }

  /** A single line is kept exactly when it is a data line. */
  lemma KeepDataSingle(line: string)
    ensures KeepData([line]) == if IsDataLine(line) then [line] else []
  {
    assert [line][1..] == [];
  }

  /** Filtering distributes over concatenation, so the kept lines keep their order. */
  lemma {:induction false} KeepDataAppend(a: seq<string>, b: seq<string>)
    ensures KeepData(a + b) == KeepData(a) + KeepData(b)
  {
    if a == [] {
      assert a + b == b;
    } else {
      assert (a + b)[0] == a[0] && (a + b)[1..] == a[1..] + b;
      KeepDataAppend(a[1..], b);
    }
  }

  /** The data lines of a response body: the stripped body split at line breaks, comments and blank lines dropped. */
  function DataLines(raw: string): seq<string> {
    KeepData(SplitOn(Strip(raw), '\n'))
  }

  /**
   * One line of ground-station data: a record when it has at least three
   * whitespace-separated tokens (time, station, value), the value kept as text.
   * Tokens are never empty, so the token always goes to the time decoder.
   */
  function AsosLine(line: string, now: DateTime): Option<Record> {
    var parts := Words(line);
    if |parts| >= 3 then
      Some(Record(parts[1], FromLine(parts[0], now), "asos", Str(parts[2]), Absent, Absent, "", line))
    else None
  }

  /** The value of a PM10 field: its integer when it is all digits, `None` otherwise. */
  function Pm10Field(field: string): (v: Value)
    ensures v.Int? <==> IsDigitString(Strip(field))
    ensures v.Int? ==> v.i == DecimalValue(Strip(field))
    ensures !v.Int? ==> v == Absent
  {
    var t := Strip(field);
    if t != [] && IsDigitString(t) then Int(DecimalValue(t)) else Absent
  }

  /**
   * One line of PM10 data: a record when it has at least three comma-separated
   * fields; an empty time field gives `now`.
   */
  function Pm10Line(line: string, now: DateTime): Option<Record> {
    var parts := SplitOn(line, ',');
    if |parts| >= 3 then
      var stamp := Strip(parts[0]);
      var at := if stamp != [] then FromLine(stamp, now) else now;
      Some(Record(Strip(parts[1]), at, "pm10", Pm10Field(parts[2]), Absent, Absent, "μg/m³", line))
    else None
  }

  /** One line of UV data: a record when it has at least five tokens, UVB, UVA and EUV kept as text. */
  function UvLine(line: string, now: DateTime): Option<Record> {
    var parts := Words(line);
    if |parts| >= 5 then
      Some(Record(parts[1], FromLine(parts[0], now), "uv", Str(parts[2]), Str(parts[3]), Str(parts[4]), "W/m²", line))
    else None
  }

  datatype Source = Asos | Pm10 | Uv

  function ParseLine(source: Source, line: string, now: DateTime): Option<Record> {
    match source
    case Asos => AsosLine(line, now)
    case Pm10 => Pm10Line(line, now)
    case Uv => UvLine(line, now)
  }

  /** The record a line contributes: none or one. */
  function Emit(parsed: Option<Record>): (rs: seq<Record>)
    ensures |rs| <= 1
  {
    if parsed.Some? then [parsed.value] else []
  }

  /** What each line parses to, line by line. */
  function Outcomes(source: Source, lines: seq<string>, now: DateTime): (os: seq<Option<Record>>)
    ensures |os| == |lines|
    ensures forall k :: 0 <= k < |lines| ==> os[k] == ParseLine(source, lines[k], now)
  {
    Each(line => ParseLine(source, line, now), lines)
  }

  /** A function applied to each line. */
  function Each(f: string -> Option<Record>, lines: seq<string>): (os: seq<Option<Record>>)
    ensures |os| == |lines|
    ensures forall k :: 0 <= k < |lines| ==> os[k] == f(lines[k])
  {
    seq(|lines|, k requires 0 <= k < |lines| => f(lines[k]))
  }

  lemma EachAppend(f: string -> Option<Record>, lines: seq<string>, more: seq<string>)
    ensures Each(f, lines + more) == Each(f, lines) + Each(f, more)
  {
    var all := lines + more;
    forall k | 0 <= k < |all| ensures Each(f, all)[k] == (Each(f, lines) + Each(f, more))[k] {
      if k < |lines| {
        assert all[k] == lines[k];
      } else {
        assert all[k] == more[k - |lines|];
      }
    }
  }

  /** The records among the outcomes, in order. */
  function Present(os: seq<Option<Record>>): (rs: seq<Record>)
    ensures |rs| <= |os|
  {
    if os == [] then [] else Present(os[..|os| - 1]) + Emit(os[|os| - 1])
  }

  /** The records the lines give, in line order. */
  function Gather(source: Source, lines: seq<string>, now: DateTime): (rs: seq<Record>)
    ensures |rs| <= |lines|
  {
    Present(Outcomes(source, lines, now))
  }

  /** What `parse_asos_raw`, `parse_pm10_raw` and `parse_uv_raw` return for a payload. */
  function Parsed(source: Source, raw: string, now: DateTime): seq<Record> {
    Gather(source, DataLines(raw), now)
  }

  /** The loop of the three parsers: one pass over the data lines, appending each record. */
  method ParseRaw(source: Source, raw: string, now: DateTime) returns (records: seq<Record>)
    ensures records == Parsed(source, raw, now)
    ensures |records| <= |DataLines(raw)|
  {
    var lines := DataLines(raw);
    records := [];
    var i := 0;
    while i < |lines|
      invariant 0 <= i <= |lines|
      invariant records == Gather(source, lines[..i], now)
    {
      GatherStep(source, lines, i, now);
      records := records + Emit(ParseLine(source, lines[i], now));
      i := i + 1;
    }
    assert lines[..i] == lines;
  }

  lemma GatherStep(source: Source, lines: seq<string>, i: nat, now: DateTime)
    requires i < |lines|
    ensures Gather(source, lines[..i + 1], now) == Gather(source, lines[..i], now) + Emit(ParseLine(source, lines[i], now))
  {
    var os := Outcomes(source, lines[..i + 1], now);
    assert os[..i] == Outcomes(source, lines[..i], now);
  }

  /** `parse_asos_raw`. */
  method ParseAsosRaw(raw: string, now: DateTime) returns (records: seq<Record>)
    ensures records == Parsed(Asos, raw, now)
  {
    records := ParseRaw(Asos, raw, now);
  }

  /** `parse_pm10_raw`. */
  method ParsePm10Raw(raw: string, now: DateTime) returns (records: seq<Record>)
    ensures records == Parsed(Pm10, raw, now)
  {
    records := ParseRaw(Pm10, raw, now);
  }

  /** `parse_uv_raw`. */
  method ParseUvRaw(raw: string, now: DateTime) returns (records: seq<Record>)
    ensures records == Parsed(Uv, raw, now)
  {
    records := ParseRaw(Uv, raw, now);
  }

  /** A record is one of the outcomes it was taken from. */
  lemma {:induction false} PresentFrom(os: seq<Option<Record>>)
    ensures forall r :: r in Present(os) ==> Some(r) in os
  {
    if os != [] {
      var init := os[..|os| - 1];
      PresentFrom(init);
      assert forall o :: o in init ==> o in os;
    }
  }

  lemma {:induction false} PresentAppend(a: seq<Option<Record>>, b: seq<Option<Record>>)
    ensures Present(a + b) == Present(a) + Present(b)
    decreases |b|
  {
    if b == [] {
      assert a + b == a;
    } else {
      var ab := a + b;
      var init, last := b[..|b| - 1], b[|b| - 1];
      assert ab[..|ab| - 1] == a + init;
      assert ab[|ab| - 1] == last;
      calc {
        Present(ab);
        Present(a + init) + Emit(last);
        { PresentAppend(a, init); }
        Present(a) + Present(init) + Emit(last);
        Present(a) + Present(b);
      }
    }
  }

  /** A record names the line it was parsed from. */
  lemma ParseLineKeepsLine(source: Source, line: string, now: DateTime)
    ensures ParseLine(source, line, now).Some? ==> ParseLine(source, line, now).value.rawLine == line
  {
  }

  /** Every record comes from one of the lines, is what that line parses to, and names it. */
  lemma GatherOrigin(source: Source, lines: seq<string>, now: DateTime)
    ensures forall r :: r in Gather(source, lines, now) ==>
      r.rawLine in lines && ParseLine(source, r.rawLine, now) == Some(r)
  {
    var os := Outcomes(source, lines, now);
    PresentFrom(os);
    forall r | r in Gather(source, lines, now)
      ensures r.rawLine in lines && ParseLine(source, r.rawLine, now) == Some(r)
    {
      var k :| 0 <= k < |os| && os[k] == Some(r);
      ParseLineKeepsLine(source, lines[k], now);
    }
  }

  /** Each record's raw line is a data line of the payload, and the record is what that line parses to. */
  lemma ParsedOrigin(source: Source, raw: string, now: DateTime, r: Record)
    requires r in Parsed(source, raw, now)
    ensures r.rawLine in DataLines(raw) && IsDataLine(r.rawLine)
    ensures ParseLine(source, r.rawLine, now) == Some(r)
  {
    GatherOrigin(source, DataLines(raw), now);
    var lines := DataLines(raw);
    var k :| 0 <= k < |lines| && lines[k] == r.rawLine;
  }

  /** The records follow line order: those of a first block of lines come before those of the next. */
  lemma GatherAppend(source: Source, lines: seq<string>, more: seq<string>, now: DateTime)
    ensures Gather(source, lines + more, now) == Gather(source, lines, now) + Gather(source, more, now)
  {
    OutcomesAppend(source, lines, more, now);
    PresentAppend(Outcomes(source, lines, now), Outcomes(source, more, now));
  }

  lemma OutcomesAppend(source: Source, lines: seq<string>, more: seq<string>, now: DateTime)
    ensures Outcomes(source, lines + more, now) == Outcomes(source, lines, now) + Outcomes(source, more, now)
  {
    EachAppend(line => ParseLine(source, line, now), lines, more);
  }

  /** A ground-station line gives a record exactly when it has three tokens, with the fields named. */
  lemma AsosLineFields(line: string, now: DateTime)
    ensures AsosLine(line, now).Some? <==> |Words(line)| >= 3
    ensures AsosLine(line, now).Some? ==>
      var r, parts := AsosLine(line, now).value, Words(line);
      && r.stationId == parts[1] && r.value == Str(parts[2]) && r.category == "asos"
      && r.observedAt == FromLine(parts[0], now) && r.rawLine == line
  {
  }

  /** A PM10 line gives a record exactly when it has three comma fields; the value is an integer or `None`. */
  lemma Pm10LineFields(line: string, now: DateTime)
    ensures Pm10Line(line, now).Some? <==> |SplitOn(line, ',')| >= 3
    ensures Pm10Line(line, now).Some? ==>
      var r, parts := Pm10Line(line, now).value, SplitOn(line, ',');
      && r.stationId == Strip(parts[1]) && r.unit == "μg/m³" && r.category == "pm10"
      && (r.value.Int? <==> IsDigitString(Strip(parts[2])))
      && (r.value.Int? ==> r.value.i == DecimalValue(Strip(parts[2])))
      && (!r.value.Int? ==> r.value == Absent)
      && (Strip(parts[0]) == [] ==> r.observedAt == now)
      && (Strip(parts[0]) != [] ==> r.observedAt == FromLine(Strip(parts[0]), now))
  {
  }

  /** A UV line gives a record exactly when it has five tokens; its three values are the raw tokens. */
  lemma UvLineFields(line: string, now: DateTime)
    ensures UvLine(line, now).Some? <==> |Words(line)| >= 5
    ensures UvLine(line, now).Some? ==>
      var r, parts := UvLine(line, now).value, Words(line);
      && r.stationId == parts[1] && r.category == "uv" && r.unit == "W/m²"
      && r.value == Str(parts[2]) && r.uvaValue == Str(parts[3]) && r.euvValue == Str(parts[4])
  {
  }

  /** Given a valid `now`, a line's record carries a valid observation time. */
  lemma ParseLineValidTime(source: Source, line: string, now: DateTime)
    requires Valid(now)
    ensures ParseLine(source, line, now).Some? ==> Valid(ParseLine(source, line, now).value.observedAt)
  {
    if source != Pm10 && |Words(line)| >= 3 {
      FromLineFixed(Words(line)[0], now);
    }
    if source == Pm10 && |SplitOn(line, ',')| >= 3 {
      FromLineFixed(Strip(SplitOn(line, ',')[0]), now);
    }
  }

  /** So every record of a payload does. */
  lemma GatherValidTimes(source: Source, lines: seq<string>, now: DateTime)
    requires Valid(now)
    ensures forall r :: r in Gather(source, lines, now) ==> Valid(r.observedAt)
  {
    var os := Outcomes(source, lines, now);
    PresentFrom(os);
    forall r | r in Gather(source, lines, now) ensures Valid(r.observedAt) {
      var k :| 0 <= k < |os| && os[k] == Some(r);
      ParseLineValidTime(source, lines[k], now);
    }
  }

  // ----- Payloads made only of comments and blank lines -----

  /** A line that cannot be data: a `#` comment or all whitespace. */
  predicate Quiet(line: string) {
    StartsWith(line, "#") || IsBlank(line)
  }

  /** Every line of the text is a comment or blank. */
  predicate QuietText(s: string) {
    forall line :: line in SplitOn(s, '\n') ==> Quiet(line)
  }

  /** Cutting the end off a text whose lines are all quiet leaves such a text. */
  lemma {:induction false} QuietPrefix(s: string, k: nat)
    requires k <= |s| && QuietText(s)
    ensures QuietText(s[..k])
    decreases |s|
  {
    if '\n' !in s {
      QuietNoBreak(s, k);
    } else {
      var i := IndexOf(s, '\n');
      QuietAtFirstBreak(s, i);
      if k <= i {
        QuietInFirstLine(s, i, k);
      } else {
        var rest := s[i + 1..];
        QuietPrefix(rest, k - i - 1);
        PrefixAtFirstBreak(s, i, k);
      }
    }
  }

  /** A text without line breaks is one line, and so is each of its prefixes. */
  lemma QuietNoBreak(s: string, k: nat)
    requires k <= |s| && '\n' !in s && QuietText(s)
    ensures QuietText(s[..k])
  {
    var t := s[..k];
    assert '\n' !in t;
    assert SplitOn(t, '\n') == [t];
    assert SplitOn(s, '\n') == [s];
    QuietLinePrefix(s, k);
  }

  /** A prefix that stops within the first line is part of that line. */
  lemma QuietInFirstLine(s: string, i: nat, k: nat)
    requires k <= i < |s| && '\n' !in s[..i] && Quiet(s[..i])
    ensures QuietText(s[..k])
  {
    var t := s[..k];
    assert t == s[..i][..k];
    assert '\n' !in t by { assert forall j :: 0 <= j < k ==> t[j] == s[..i][j]; }
    assert SplitOn(t, '\n') == [t];
    QuietLinePrefix(s[..i], k);
  }

  /** The first line of a quiet text is quiet, and so are the lines after it. */
  lemma QuietAtFirstBreak(s: string, i: nat)
    requires '\n' in s && i == IndexOf(s, '\n') && QuietText(s)
    ensures Quiet(s[..i]) && QuietText(s[i + 1..])
  {
    SplitAtFirstBreak(s, i);
    assert s[..i] in SplitOn(s, '\n');
  }

  /** The lines of a text are its first line and then the lines after the first break. */
  lemma SplitAtFirstBreak(s: string, i: nat)
    requires '\n' in s && i == IndexOf(s, '\n')
    ensures SplitOn(s, '\n') == [s[..i]] + SplitOn(s[i + 1..], '\n')
  {
  }

  /** A prefix reaching past the first break keeps that first line. */
  lemma PrefixAtFirstBreak(s: string, i: nat, k: nat)
    requires '\n' in s && i == IndexOf(s, '\n') && i < k <= |s|
    requires Quiet(s[..i]) && QuietText(s[i + 1..][..k - i - 1])
    ensures QuietText(s[..k])
  {
    SplitPrefixAtFirstBreak(s, i, k);
    QuietCons(s[..i], s[i + 1..][..k - i - 1]);
  }

  lemma SplitPrefixAtFirstBreak(s: string, i: nat, k: nat)
    requires '\n' in s && i == IndexOf(s, '\n') && i < k <= |s|
    ensures SplitOn(s[..k], '\n') == [s[..i]] + SplitOn(s[i + 1..][..k - i - 1], '\n')
  {
    var t := s[..k];
    assert t[..i] == s[..i] && t[i] == '\n' && '\n' in t;
    IndexOfFirst(t, '\n', i);
    assert t[i + 1..] == s[i + 1..][..k - i - 1];
    SplitAtFirstBreak(t, i);
  }

  lemma QuietCons(first: string, text: string)
    requires Quiet(first) && QuietText(text)
    ensures forall line :: line in [first] + SplitOn(text, '\n') ==> Quiet(line)
  {
  }

  lemma QuietLinePrefix(line: string, k: nat)
    requires k <= |line| && Quiet(line)
    ensures Quiet(line[..k])
  {
    if k > 0 && StartsWith(line, "#") {
      assert line[..k][..1] == line[..1];
    }
  }

  /** Dropping one leading whitespace character keeps every line quiet. */
  lemma QuietDropSpace(s: string)
    requires s != [] && IsSpace(s[0]) && QuietText(s)
    ensures QuietText(s[1..])
  {
    if s[0] == '\n' {
      SplitOnSeparatorFirst(s, '\n');
    } else {
      SplitOnOtherFirst(s, '\n');
      var tail := SplitOn(s[1..], '\n');
      var first := [s[0]] + tail[0];
      assert Quiet(first) by { assert first in SplitOn(s, '\n'); }
      assert !StartsWith(first, "#") by { assert first[..1][0] == s[0]; }
      assert IsBlank(tail[0]) by { assert forall j :: 0 <= j < |tail[0]| ==> tail[0][j] == first[j + 1]; }
      forall line | line in tail ensures Quiet(line) {
        if line != tail[0] {
          var k :| 0 <= k < |tail| && tail[k] == line;
          assert line == SplitOn(s, '\n')[k];
        }
      }
    }
  }

  lemma {:induction false} QuietStripStart(s: string)
    requires QuietText(s)
    ensures QuietText(StripStart(s))
    decreases |s|
  {
    if s != [] && IsSpace(s[0]) {
      QuietDropSpace(s);
      QuietStripStart(s[1..]);
    }
  }

  /** A quiet line has nothing the parsers keep. */
  lemma QuietNotData(line: string)
    requires Quiet(line)
    ensures !IsDataLine(line)
  {
    StripEmptyIffBlank(line);
  }

  lemma {:induction false} KeepNothing(lines: seq<string>)
    requires forall line :: line in lines ==> Quiet(line)
    ensures KeepData(lines) == []
  {
    if lines != [] {
      QuietNotData(lines[0]);
      KeepNothing(lines[1..]);
    }
  }

  /** A payload whose every line is a `#` comment or blank yields no records, whatever the parser. */
  lemma QuietPayload(source: Source, raw: string, now: DateTime)
    requires QuietText(raw)
    ensures DataLines(raw) == []
    ensures Parsed(source, raw, now) == []
  {
    QuietStripStart(raw);
    var t := StripStart(raw);
    QuietPrefix(t, |StripEnd(t)|);
    KeepNothing(SplitOn(Strip(raw), '\n'));
  }
}
