/**
 * The timestamp decoding of the line parsers: `datetime.strptime(text,
 * "%Y%m%d%H%M")` as Python's `_strptime` performs it (a regular expression per
 * directive, alternatives tried in order, then "unconverted data remains" and
 * the calendar check), and the two callers that wrap it.
 */
module Timestamps {
  import opened Wrappers
  import opened Text
  import opened Numbers
  import opened Calendar

  /** The directives of the format `%Y%m%d%H%M`. */
  datatype Directive = Year | Month | Day | Hour | Minute

  const Format: seq<Directive> := [Year, Month, Day, Hour, Minute]

  /** Length of the widest alternative of a directive's pattern. */
  function MaxWidth(f: Directive): nat {
    if f == Year then 4 else 2
  }

  function TotalWidth(fs: seq<Directive>): nat {
    if fs == [] then 0 else MaxWidth(fs[0]) + TotalWidth(fs[1..])
  }

  /**
   * `piece` is matched by one alternative of the directive's pattern:
   * `%Y` is `\d\d\d\d`, `%m` is `1[0-2]|0[1-9]|[1-9]`, `%d` is
   * `3[01]|[12]\d|0[1-9]|[1-9]| [1-9]`, `%H` is `2[0-3]|[0-1]\d|\d` and
   * `%M` is `[0-5]\d|\d`.
   */
  predicate Matches(f: Directive, piece: string) {
    match f
    case Year => |piece| == 4 && AllDigits(piece)
    case Month =>
      || (|piece| == 2 && piece[0] == '1' && '0' <= piece[1] <= '2')
      || (|piece| == 2 && piece[0] == '0' && '1' <= piece[1] <= '9')
      || (|piece| == 1 && '1' <= piece[0] <= '9')
    case Day =>
      || (|piece| == 2 && piece[0] == '3' && '0' <= piece[1] <= '1')
      || (|piece| == 2 && '1' <= piece[0] <= '2' && IsDigit(piece[1]))
      || (|piece| == 2 && piece[0] == '0' && '1' <= piece[1] <= '9')
      || (|piece| == 1 && '1' <= piece[0] <= '9')
      || (|piece| == 2 && piece[0] == ' ' && '1' <= piece[1] <= '9')
    case Hour =>
      || (|piece| == 2 && piece[0] == '2' && '0' <= piece[1] <= '3')
      || (|piece| == 2 && '0' <= piece[0] <= '1' && IsDigit(piece[1]))
      || (|piece| == 1 && IsDigit(piece[0]))
    case Minute =>
      || (|piece| == 2 && '0' <= piece[0] <= '5' && IsDigit(piece[1]))
      || (|piece| == 1 && IsDigit(piece[0]))
  }

  /** The digits of a matched piece: the day's `" 5"` form stands for 5. */
  function PieceDigits(f: Directive, piece: string): (digits: string)
    requires Matches(f, piece)
    ensures IsDigitString(digits)
  {
    if piece[0] == ' ' then piece[1..] else piece
  }

  function PieceValue(f: Directive, piece: string): nat
    requires Matches(f, piece)
  {
    DecimalValue(PieceDigits(f, piece))
  }

  /** The numbers a successful match captured, and how much of the text it spans. */
  datatype Scan = Scan(values: seq<nat>, consumed: nat)

  /**
   * `re.match` of the directives' patterns one after another: a directive tries
   * its two-character alternatives before its one-character one, and falls back
   * only when the directives after it cannot match the rest.
   */
  function Search(fs: seq<Directive>, s: string): (r: Option<Scan>)
    ensures r.Some? ==> |r.value.values| == |fs| && r.value.consumed <= |s|
    ensures r.Some? ==> r.value.consumed <= TotalWidth(fs)
    decreases |fs|, 1
  {
    if fs == [] then Some(Scan([], 0))
    else if fs[0] == Year then Try(fs, s, 4)
    else
      match Try(fs, s, 2)
      case Some(r) => Some(r)
      case None => Try(fs, s, 1)
  }

  /** The match that takes `w` characters for the first directive, if the rest then matches. */
  function Try(fs: seq<Directive>, s: string, w: nat): (r: Option<Scan>)
    requires fs != [] && 1 <= w <= MaxWidth(fs[0])
    ensures r.Some? ==> |r.value.values| == |fs| && r.value.consumed <= |s|
    ensures r.Some? ==> r.value.consumed <= TotalWidth(fs)
    ensures r.Some? && r.value.consumed == TotalWidth(fs) ==> w == MaxWidth(fs[0])
    decreases |fs|, 0
  {
    if w <= |s| && Matches(fs[0], s[..w]) then
      match Search(fs[1..], s[w..])
      case None => None
      case Some(rest) => Some(Scan([PieceValue(fs[0], s[..w])] + rest.values, w + rest.consumed))
    else None
  }

  /** The date-time the five captured numbers name, if the calendar has it (`ValueError` otherwise). */
  function Build(v: seq<nat>): (r: Option<DateTime>)
    requires |v| == 5
    ensures r.Some? ==> Valid(r.value) && r.value.second == 0
  {
    var d := DateTime(v[0], v[1], v[2], v[3], v[4], 0);
    if Valid(d) then Some(d) else None
  }

  /**
   * `datetime.strptime(s, "%Y%m%d%H%M")`; `None` stands for its `ValueError`
   * (no match, unconverted data remaining, or a date the calendar lacks).
   */
  function Strptime(s: string): (r: Option<DateTime>)
    ensures r.Some? ==> Valid(r.value) && r.value.second == 0
  {
    match Search(Format, s)
    case None => None
    case Some(scan) => if scan.consumed != |s| then None else Build(scan.values)
  }

  /** A two-digit field and its value. */
  function TwoDigits(p: string): Option<nat>
    requires |p| == 2
  {
    if AllDigits(p) then Some(DecimalValue(p)) else None
  }

  /**
   * The fixed-width reading of `YYYYMMDDHHMM`: four digits of year and two of
   * each other field (the day may also be a space and a digit), accepted when
   * they name a valid date-time.
   */
  function DecodeFixed(s: string): (r: Option<DateTime>)
    requires |s| == 12
  {
    DecodeFields(s[..4], s[4..6], s[6..8], s[8..10], s[10..12])
  }

  function DecodeFields(year: string, month: string, day: string, hour: string, minute: string): Option<DateTime>
    requires |year| == 4 && |month| == |day| == |hour| == |minute| == 2
  {
    var dd := if day[0] == ' ' && '1' <= day[1] <= '9' then Some(DigitValue(day[1])) else TwoDigits(day);
    if !AllDigits(year) then None
    else
      match (TwoDigits(month), dd, TwoDigits(hour), TwoDigits(minute))
      case (Some(mo), Some(da), Some(h), Some(mi)) =>
        var d := DateTime(DecimalValue(year), mo, da, h, mi, 0);
        if Valid(d) then Some(d) else None
      case _ => None
  }

  /** The directives all match at their widest, one after another. */
  predicate FixedMatch(fs: seq<Directive>, s: string) {
    if fs == [] then true
    else
      var w := MaxWidth(fs[0]);
      w <= |s| && Matches(fs[0], s[..w]) && FixedMatch(fs[1..], s[w..])
  }

  function FixedValues(fs: seq<Directive>, s: string): (v: seq<nat>)
    requires FixedMatch(fs, s)
  {
    if fs == [] then []
    else
      var w := MaxWidth(fs[0]);
      [PieceValue(fs[0], s[..w])] + FixedValues(fs[1..], s[w..])
  }

  /** When every directive matches at its widest, that is the match the search finds. */
  lemma {:induction false} SearchFindsFixed(fs: seq<Directive>, s: string)
    requires FixedMatch(fs, s)
    ensures Search(fs, s) == Some(Scan(FixedValues(fs, s), TotalWidth(fs)))
  {
    if fs != [] {
      SearchFindsFixed(fs[1..], s[MaxWidth(fs[0])..]);
    }
  }

  /** A match as long as the widest possible one took every directive at its widest. */
  lemma {:induction false} FullSearchIsFixed(fs: seq<Directive>, s: string)
    requires Search(fs, s).Some? && Search(fs, s).value.consumed == TotalWidth(fs)
    ensures FixedMatch(fs, s)
  {
    if fs != [] {
      var w := MaxWidth(fs[0]);
      assert Try(fs, s, w) == Search(fs, s);
      FullSearchIsFixed(fs[1..], s[w..]);
    }
  }

  /** The value of two digits. */
  lemma TwoDigitValue(p: string)
    requires |p| == 2 && AllDigits(p)
    ensures DecimalValue(p) == 10 * DigitValue(p[0]) + DigitValue(p[1])
  {
    var first := p[..1];
    assert first == [p[0]] && first[..0] == [];
    assert DecimalValue(first) == DigitValue(p[0]);
  }

  lemma MonthPiece(p: string)
    requires |p| == 2
    ensures Matches(Month, p) <==> AllDigits(p) && 1 <= DecimalValue(p) <= 12
    ensures Matches(Month, p) ==> PieceValue(Month, p) == DecimalValue(p)
  {
    if AllDigits(p) { TwoDigitValue(p); }
  }

  lemma DayPiece(p: string)
    requires |p| == 2
    ensures Matches(Day, p) <==>
      (p[0] == ' ' && '1' <= p[1] <= '9') || (AllDigits(p) && 1 <= DecimalValue(p) <= 31)
    ensures Matches(Day, p) ==>
      PieceValue(Day, p) == if p[0] == ' ' then DigitValue(p[1]) else DecimalValue(p)
  {
    if AllDigits(p) { TwoDigitValue(p); }
    if p[0] == ' ' && '1' <= p[1] <= '9' {
      var q := p[1..];
      assert q[..0] == [] && q[0] == p[1];
      assert DecimalValue(q) == DigitValue(p[1]);
    }
  }

  lemma HourPiece(p: string)
    requires |p| == 2
    ensures Matches(Hour, p) <==> AllDigits(p) && DecimalValue(p) <= 23
    ensures Matches(Hour, p) ==> PieceValue(Hour, p) == DecimalValue(p)
  {
    if AllDigits(p) { TwoDigitValue(p); }
  }

  lemma MinutePiece(p: string)
    requires |p| == 2
    ensures Matches(Minute, p) <==> AllDigits(p) && DecimalValue(p) <= 59
    ensures Matches(Minute, p) ==> PieceValue(Minute, p) == DecimalValue(p)
  {
    if AllDigits(p) { TwoDigitValue(p); }
  }

  lemma YearPiece(p: string)
    requires |p| == 4
    ensures Matches(Year, p) <==> AllDigits(p)
    ensures Matches(Year, p) ==> PieceValue(Year, p) == DecimalValue(p)
  {
  }

  /** A full-width match of the five fields, given the five pieces of the text. */
  lemma FixedMatchPieces(y: string, m: string, d: string, h: string, mi: string)
    requires |y| == 4 && |m| == 2 && |d| == 2 && |h| == 2 && |mi| == 2
    ensures FixedMatch(Format, y + (m + (d + (h + mi)))) <==>
      Matches(Year, y) && Matches(Month, m) && Matches(Day, d) && Matches(Hour, h) && Matches(Minute, mi)
  {
    var f1, f2, f3, f4 := [Month, Day, Hour, Minute], [Day, Hour, Minute], [Hour, Minute], [Minute];
    assert Format[1..] == f1 && f1[1..] == f2 && f2[1..] == f3 && f3[1..] == f4 && f4[1..] == [];
    assert mi == mi + [];
    FixedStepMatch(f4, mi, mi, []);
    FixedStepMatch(f3, h + mi, h, mi);
    FixedStepMatch(f2, d + (h + mi), d, h + mi);
    FixedStepMatch(f1, m + (d + (h + mi)), m, d + (h + mi));
    FixedStepMatch(Format, y + (m + (d + (h + mi))), y, m + (d + (h + mi)));
  }

  /** The values such a match captures are those of the five pieces. */
  lemma FixedValuesPieces(y: string, m: string, d: string, h: string, mi: string)
    requires |y| == 4 && |m| == 2 && |d| == 2 && |h| == 2 && |mi| == 2
    requires Matches(Year, y) && Matches(Month, m) && Matches(Day, d) && Matches(Hour, h) && Matches(Minute, mi)
    ensures FixedMatch(Format, y + (m + (d + (h + mi))))
    ensures FixedValues(Format, y + (m + (d + (h + mi)))) ==
      [PieceValue(Year, y), PieceValue(Month, m), PieceValue(Day, d), PieceValue(Hour, h), PieceValue(Minute, mi)]
  {
    assert Format[1..] == [Month, Day, Hour, Minute];
    var rest := m + (d + (h + mi));
    FixedValuesFour(m, d, h, mi);
    var v0 := FixedStepValues(Format, y + rest, y, rest);
    FiveValues(PieceValue(Year, y), PieceValue(Month, m), PieceValue(Day, d), PieceValue(Hour, h), PieceValue(Minute, mi));
  }

  /** The same for the month, day, hour and minute fields. */
  lemma FixedValuesFour(m: string, d: string, h: string, mi: string)
    requires |m| == 2 && |d| == 2 && |h| == 2 && |mi| == 2
    requires Matches(Month, m) && Matches(Day, d) && Matches(Hour, h) && Matches(Minute, mi)
    ensures FixedMatch([Month, Day, Hour, Minute], m + (d + (h + mi)))
    ensures FixedValues([Month, Day, Hour, Minute], m + (d + (h + mi))) ==
      [PieceValue(Month, m)] + [PieceValue(Day, d), PieceValue(Hour, h), PieceValue(Minute, mi)]
  {
    var f1 := [Month, Day, Hour, Minute];
    assert f1[1..] == [Day, Hour, Minute];
    var rest := d + (h + mi);
    FixedValuesThree(d, h, mi);
    var v1 := FixedStepValues(f1, m + rest, m, rest);
  }

  /** The same for the day, hour and minute fields. */
  lemma FixedValuesThree(d: string, h: string, mi: string)
    requires |d| == 2 && |h| == 2 && |mi| == 2
    requires Matches(Day, d) && Matches(Hour, h) && Matches(Minute, mi)
    ensures FixedMatch([Day, Hour, Minute], d + (h + mi))
    ensures FixedValues([Day, Hour, Minute], d + (h + mi)) == [PieceValue(Day, d), PieceValue(Hour, h), PieceValue(Minute, mi)]
  {
    var f2, f3, f4 := [Day, Hour, Minute], [Hour, Minute], [Minute];
    assert f2[1..] == f3 && f3[1..] == f4 && f4[1..] == [];
    assert mi == mi + [];
    var v4 := FixedStepValues(f4, mi, mi, []);
    var v3 := FixedStepValues(f3, h + mi, h, mi);
    var v2 := FixedStepValues(f2, d + (h + mi), d, h + mi);
    assert v4 == [];
    assert v3 == [PieceValue(Minute, mi)];
    assert v2 == [PieceValue(Hour, h)] + v3;
  }

  lemma FiveValues(a: nat, b: nat, c: nat, d: nat, e: nat)
    ensures [a] + ([b] + [c, d, e]) == [a, b, c, d, e]
  {
  }

  /** A twelve-character text matches at full width exactly when its fixed fields do. */
  lemma FixedMatchTwelve(s: string)
    requires |s| == 12
    ensures FixedMatch(Format, s) <==>
      && Matches(Year, s[..4])
      && Matches(Month, s[4..6]) && Matches(Day, s[6..8])
      && Matches(Hour, s[8..10]) && Matches(Minute, s[10..12])
    ensures FixedMatch(Format, s) ==>
      FixedValues(Format, s) ==
        [PieceValue(Year, s[..4]), PieceValue(Month, s[4..6]), PieceValue(Day, s[6..8]),
         PieceValue(Hour, s[8..10]), PieceValue(Minute, s[10..12])]
  {
    assert s == s[..4] + (s[4..6] + (s[6..8] + (s[8..10] + s[10..12])));
    FixedMatchPieces(s[..4], s[4..6], s[6..8], s[8..10], s[10..12]);
    if FixedMatch(Format, s) {
      FixedValuesPieces(s[..4], s[4..6], s[6..8], s[8..10], s[10..12]);
    }
  }

  /** One directive of a full-width match: its piece, and the rest of the text for the others. */
  lemma FixedStepMatch(fs: seq<Directive>, s: string, piece: string, rest: string)
    requires fs != [] && |piece| == MaxWidth(fs[0]) && s == piece + rest
    ensures FixedMatch(fs, s) <==> Matches(fs[0], piece) && FixedMatch(fs[1..], rest)
  {
    assert s[..|piece|] == piece && s[|piece|..] == rest;
  }

  /** The values of a full-width match: the first piece's, then those of the rest. */
  lemma FixedStepValues(fs: seq<Directive>, s: string, piece: string, rest: string) returns (v: seq<nat>)
    requires fs != [] && |piece| == MaxWidth(fs[0]) && s == piece + rest
    requires Matches(fs[0], piece) && FixedMatch(fs[1..], rest)
    ensures FixedMatch(fs, s)
    ensures v == FixedValues(fs[1..], rest) && FixedValues(fs, s) == [PieceValue(fs[0], piece)] + v
  {
    assert s[..|piece|] == piece && s[|piece|..] == rest;
    v := FixedValues(fs[1..], rest);
  }

  lemma FormatWidth()
    ensures TotalWidth(Format) == 12
  {
    assert Format[1..] == [Month, Day, Hour, Minute];
    assert Format[1..][1..] == [Day, Hour, Minute];
    assert Format[1..][1..][1..] == [Hour, Minute];
    assert Format[1..][1..][1..][1..] == [Minute];
  }

  /** On twelve characters the pattern search reads exactly the fixed fields. */
  lemma StrptimeTwelve(s: string)
    requires |s| == 12
    ensures Strptime(s) == DecodeFixed(s)
  {
    FormatWidth();
    FixedMatchTwelve(s);
    YearPiece(s[..4]);
    MonthPiece(s[4..6]);
    DayPiece(s[6..8]);
    HourPiece(s[8..10]);
    MinutePiece(s[10..12]);
    if FixedMatch(Format, s) {
      SearchFindsFixed(Format, s);
    } else if Search(Format, s).Some? && Search(Format, s).value.consumed == 12 {
      FullSearchIsFixed(Format, s);
    }
  }

  /** `strftime("%Y%m%d%H%M")`. */
  function Compact(d: DateTime): (s: string)
    requires Valid(d)
    ensures |s| == 12
  {
    PadLength(d.year, 4);
    PadLength(d.month, 2);
    PadLength(d.day, 2);
    PadLength(d.hour, 2);
    PadLength(d.minute, 2);
    ZeroPad(d.year, 4) + ZeroPad(d.month, 2) + ZeroPad(d.day, 2) + ZeroPad(d.hour, 2) + ZeroPad(d.minute, 2)
  }

  /** A number below ten to the `width` pads to exactly `width` digits. */
  lemma PadLength(n: nat, width: nat)
    requires 1 <= width && n < Pow10(width)
    ensures |ZeroPad(n, width)| == width
  {
    NatToStringLength(n, width);
  }

  /** Decoding what `strftime` wrote gives the date-time back, to the minute. */
  lemma CompactRoundTrip(d: DateTime)
    requires Valid(d)
    ensures Strptime(Compact(d)) == Some(d.(second := 0))
  {
    var s := Compact(d);
    StrptimeTwelve(s);
    var y, mo, dd, h, mi := ZeroPad(d.year, 4), ZeroPad(d.month, 2), ZeroPad(d.day, 2), ZeroPad(d.hour, 2), ZeroPad(d.minute, 2);
    SliceFive(y, mo, dd, h, mi);
    DecodePadded(d);
  }

  lemma SliceFive(a: string, b: string, c: string, d: string, e: string)
    requires |a| == 4 && |b| == |c| == |d| == |e| == 2
    ensures var s := a + b + c + d + e;
      s[..4] == a && s[4..6] == b && s[6..8] == c && s[8..10] == d && s[10..12] == e
  {
  }

  lemma DecodePadded(d: DateTime)
    requires Valid(d)
    ensures |ZeroPad(d.year, 4)| == 4 && |ZeroPad(d.month, 2)| == 2 && |ZeroPad(d.day, 2)| == 2
    ensures |ZeroPad(d.hour, 2)| == 2 && |ZeroPad(d.minute, 2)| == 2
    ensures DecodeFields(ZeroPad(d.year, 4), ZeroPad(d.month, 2), ZeroPad(d.day, 2), ZeroPad(d.hour, 2), ZeroPad(d.minute, 2))
         == Some(d.(second := 0))
  {
    PadLength(d.year, 4);
    PaddedField(d.month);
    PaddedField(d.day);
    PaddedField(d.hour);
    PaddedField(d.minute);
    DecodeDigitFields(ZeroPad(d.year, 4), ZeroPad(d.month, 2), ZeroPad(d.day, 2), ZeroPad(d.hour, 2), ZeroPad(d.minute, 2),
      DateTime(d.year, d.month, d.day, d.hour, d.minute, 0));
  }

  /** Fields that are all digits decode to the date-time their values name, when it is valid. */
  lemma DecodeDigitFields(year: string, month: string, day: string, hour: string, minute: string, d: DateTime)
    requires |year| == 4 && |month| == |day| == |hour| == |minute| == 2 && day[0] != ' '
    requires AllDigits(year) && DecimalValue(year) == d.year && d.second == 0
    requires TwoDigits(month) == Some(d.month) && TwoDigits(day) == Some(d.day)
    requires TwoDigits(hour) == Some(d.hour) && TwoDigits(minute) == Some(d.minute)
    ensures DecodeFields(year, month, day, hour, minute) == if Valid(d) then Some(d) else None
  {
  }

  lemma PaddedField(n: nat)
    requires n < 100
    ensures |ZeroPad(n, 2)| == 2 && ZeroPad(n, 2)[0] != ' ' && TwoDigits(ZeroPad(n, 2)) == Some(n)
  {
    PadLength(n, 2);
  }

  /**
   * `_parse_datetime_from_line`: a twelve-character token is read as
   * `YYYYMMDDHHMM`, a ten-character one as `YYMMDDHHMM` in the 2000s, and
   * anything else, or a token `strptime` rejects, gives the supplied `now`.
   */
  function FromLine(token: string, now: DateTime): DateTime {
    if |token| == 12 then Strptime(token).GetOr(now)
    else if |token| == 10 then Strptime("20" + token).GetOr(now)
    else now
  }

  /** What the line decoder yields, stated through the fixed-width reading. */
  lemma FromLineFixed(token: string, now: DateTime)
    ensures |token| == 12 ==> FromLine(token, now) == DecodeFixed(token).GetOr(now)
    ensures |token| == 10 ==> FromLine(token, now) == DecodeFixed("20" + token).GetOr(now)
    ensures |token| != 12 && |token| != 10 ==> FromLine(token, now) == now
    ensures Valid(now) ==> Valid(FromLine(token, now))
  {
    if |token| == 12 {
      StrptimeTwelve(token);
    } else if |token| == 10 {
      StrptimeTwelve("20" + token);
    }
  }

  /** `_parse_datetime`: the date and time fields read together; `None` is the `ValueError`. */
  function ParseDatetime(baseDate: string, baseTime: string): Option<DateTime> {
    Strptime(baseDate + baseTime)
  }

  /** An eight-character date and a four-character time are read field by field. */
  lemma ParseDatetimeFixed(baseDate: string, baseTime: string)
    requires |baseDate| == 8 && |baseTime| == 4
    ensures ParseDatetime(baseDate, baseTime) == DecodeFixed(baseDate + baseTime)
  {
    StrptimeTwelve(baseDate + baseTime);
  }
}
