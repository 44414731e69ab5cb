/**
 * Decimal text and numbers: Python's `int()` of a digit string, `float()` of a
 * decimal literal (exactly, as a `real`: IEEE rounding is not modelled), and the
 * decimal rendering that `strftime` and `str()` use.
 */
module Numbers {
  import opened Wrappers
  import opened Text

  predicate AllDigits(s: string) {
    forall k :: 0 <= k < |s| ==> IsDigit(s[k])
  }

  function DigitValue(c: char): (d: nat)
    requires IsDigit(c)
    ensures d < 10
  {
    c as int - '0' as int
  }

  function DigitChar(d: nat): (c: char)
    requires d < 10
    ensures IsDigit(c) && DigitValue(c) == d
  {
    ('0' as int + d) as char
  }

  /** Value of a run of digits, most significant first; the empty run is 0. */
  function DecimalValue(s: string): nat
    requires AllDigits(s)
  {
    if s == [] then 0 else DecimalValue(s[..|s| - 1]) * 10 + DigitValue(s[|s| - 1])
  }

  function Pow10(n: nat): (p: nat)
    ensures p >= 1
  {
    if n == 0 then 1 else 10 * Pow10(n - 1)
  }

  /** The digits of `a + b` weigh `a` by ten to the length of `b`. */
  lemma {:induction false} DecimalValueAppend(a: string, b: string)
    requires AllDigits(a) && AllDigits(b)
    ensures AllDigits(a + b)
    ensures DecimalValue(a + b) == DecimalValue(a) * Pow10(|b|) + DecimalValue(b)
  {
    assert AllDigits(a + b) by {
      forall k | 0 <= k < |a + b| ensures IsDigit((a + b)[k]) {
        if k < |a| { assert (a + b)[k] == a[k]; } else { assert (a + b)[k] == b[k - |a|]; }
      }
    }
    if b == [] {
      assert a + b == a;
    } else {
      var b' := b[..|b| - 1];
      assert (a + b)[..|a + b| - 1] == a + b';
      DecimalValueAppend(a, b');
      assert DecimalValue(a + b) == DecimalValue(a + b') * 10 + DigitValue(b[|b| - 1]);
      assert DecimalValue(b) == DecimalValue(b') * 10 + DigitValue(b[|b| - 1]);
      ShiftDigit(DecimalValue(a), Pow10(|b'|), DecimalValue(b'), DigitValue(b[|b| - 1]));
    }
  }

  lemma ShiftDigit(x: int, p: int, y: int, d: int)
    ensures (x * p + y) * 10 + d == x * (10 * p) + (y * 10 + d)
  {
  }

  /** `str(n)` for a natural number: its decimal digits without leading zeros. */
  function NatToString(n: nat): (s: string)
    ensures IsDigitString(s)
    ensures DecimalValue(s) == n
    decreases n
  {
    if n < 10 then [DigitChar(n)]
    else
      var s := NatToString(n / 10) + [DigitChar(n % 10)];
      assert s[..|s| - 1] == NatToString(n / 10);
      s
  }

  /** A number below ten to the `k` needs at most `k` digits. */
  lemma {:induction false} NatToStringLength(n: nat, k: nat)
    requires 1 <= k && n < Pow10(k)
    ensures |NatToString(n)| <= k
  {
    if n >= 10 {
      assert k >= 2;
      NatToStringLength(n / 10, k - 1);
    }
  }

  /** `f"{n:0{width}d}"`: at least `width` digits, padded with leading zeros. */
  function ZeroPad(n: nat, width: nat): (s: string)
    ensures IsDigitString(s) && DecimalValue(s) == n
    ensures |s| == if |NatToString(n)| < width then width else |NatToString(n)|
    decreases width
  {
    var digits := NatToString(n);
    if |digits| >= width then digits
    else
      var s := ZeroPad(n, width - 1);
      DecimalValueAppend("0", s);
      "0" + s
  }

  /** The number written `whole.frac` when `frac` has `places` digits. */
  function Decimal(whole: nat, frac: nat, places: nat): real {
    whole as real + frac as real / Pow10(places) as real
  }

  /** The mantissa of a Python float literal: `digits[.digits]`, at least one digit in all. */
  function ParseMantissa(s: string): Option<real> {
    if '.' in s then
      var i := IndexOf(s, '.');
      var whole, frac := s[..i], s[i + 1..];
      if AllDigits(whole) && AllDigits(frac) && |whole| + |frac| > 0 then
        Some(Decimal(DecimalValue(whole), DecimalValue(frac), |frac|))
      else None
    else if IsDigitString(s) then Some(DecimalValue(s) as real)
    else None
  }

  /** The exponent of a Python float literal: `[+|-]digits`. */
  function ParseExponent(s: string): Option<int> {
    if s != [] && (s[0] == '+' || s[0] == '-') then
      if IsDigitString(s[1..]) then
        var v: int := DecimalValue(s[1..]);
        Some(if s[0] == '-' then -v else v)
      else None
    else if IsDigitString(s) then Some(DecimalValue(s))
    else None
  }

  /** Index of the first `e` or `E`, or the length when there is none. */
  function ExponentMark(s: string): (i: nat)
    ensures i <= |s|
    ensures forall k :: 0 <= k < i ==> s[k] != 'e' && s[k] != 'E'
    ensures i < |s| ==> s[i] == 'e' || s[i] == 'E'
  {
    if s == [] || s[0] == 'e' || s[0] == 'E' then 0 else 1 + ExponentMark(s[1..])
  }

  function Scale(x: real, e: int): real {
    if e >= 0 then x * Pow10(e) as real else x / Pow10(-e) as real
  }

  /** An unsigned literal: a mantissa and an optional exponent. */
  function ParseUnsigned(body: string): Option<real> {
    var e := ExponentMark(body);
    match ParseMantissa(body[..e])
    case None => None
    case Some(m) =>
      if e == |body| then Some(m)
      else match ParseExponent(body[e + 1..])
        case None => None
        case Some(x) => Some(Scale(m, x))
  }

  /**
   * Python's `float(text)` on decimal literals: surrounding whitespace, an
   * optional sign, a mantissa and an optional exponent. `None` stands for the
   * `ValueError` that `float()` raises.
   */
  function ParseFloat(text: string): Option<real> {
    ParseLiteral(Strip(text))
  }

  /** A stripped literal: an optional sign, then an unsigned literal. */
  function ParseLiteral(t: string): Option<real> {
    if t != [] && (t[0] == '+' || t[0] == '-') then
      match ParseUnsigned(t[1..])
      case None => None
      case Some(v) => Some(if t[0] == '-' then -v else v)
    else ParseUnsigned(t)
  }

  /** A string that neither starts nor ends with whitespace is its own `strip()`. */
  lemma StripUntrimmed(s: string)
    requires s != [] && !IsSpace(s[0]) && !IsSpace(s[|s| - 1])
    ensures Strip(s) == s
  {
    assert StripStart(s) == s;
  }

  /**
   * The unsigned literal for `m / 10^scale`: the digits of `m`, zero-padded so
   * that a whole digit remains, with a point before the last `scale` of them.
   */
  function FixedPointDigits(m: nat, scale: nat): (s: string)
    ensures s != [] && IsDigit(s[0]) && IsDigit(s[|s| - 1])
  {
    var digits := ZeroPad(m, scale + 1);
    var cut := |digits| - scale;
    if scale == 0 then digits else digits[..cut] + "." + digits[cut..]
  }

  /**
   * The literal `str()` gives for a number with `scale` fraction digits, written
   * as a sign and the magnitude `m / 10^scale`: `FixedPoint(true, 9990, 1) == "-999.0"`.
   */
  function FixedPoint(negative: bool, m: nat, scale: nat): string {
    if negative then "-" + FixedPointDigits(m, scale) else FixedPointDigits(m, scale)
  }

  /** `m / 10^scale`. */
  function Shifted(m: nat, scale: nat): real {
    m as real / Pow10(scale) as real
  }

  /** `float()` reads back exactly the value a fixed-point literal was written from. */
  lemma ParseFixedPoint(negative: bool, m: nat, scale: nat)
    ensures ParseFloat(FixedPoint(negative, m, scale))
         == Some(if negative then -Shifted(m, scale) else Shifted(m, scale))
  {
    var body := FixedPointDigits(m, scale);
    ParseFixedPointDigits(m, scale);
    ParseSigned(body, Shifted(m, scale));
  }

  /** A digit-delimited unsigned literal reads the same through `float()`, and negated after a minus. */
  lemma ParseSigned(body: string, v: real)
    requires body != [] && IsDigit(body[0]) && IsDigit(body[|body| - 1])
    requires ParseUnsigned(body) == Some(v)
    ensures ParseFloat(body) == Some(v)
    ensures ParseFloat("-" + body) == Some(-v)
  {
    StripUntrimmed(body);
    LiteralUnsigned(body);
    var s := "-" + body;
    assert s[|s| - 1] == body[|body| - 1];
    StripUntrimmed(s);
    assert s[1..] == body;
    LiteralNegative(s, v);
  }

  /** A leading minus negates what the rest of the literal reads as. */
  lemma LiteralNegative(s: string, v: real)
    requires s != [] && s[0] == '-' && ParseUnsigned(s[1..]) == Some(v)
    ensures ParseLiteral(s) == Some(-v)
  {
  }

  /** A literal that starts with a digit is read without a sign. */
  lemma LiteralUnsigned(s: string)
    requires s != [] && IsDigit(s[0])
    ensures ParseLiteral(s) == ParseUnsigned(s)
  {
  }

  lemma ParseFixedPointDigits(m: nat, scale: nat)
    ensures ParseUnsigned(FixedPointDigits(m, scale)) == Some(Shifted(m, scale))
  {
    var digits := ZeroPad(m, scale + 1);
    if scale == 0 {
      ParseUnsignedDigits(digits);
    } else {
      var cut := |digits| - scale;
      var whole, frac := digits[..cut], digits[cut..];
      assert FixedPointDigits(m, scale) == whole + "." + frac;
      SplitValue(digits, cut);
      ParseUnsignedPoint(whole, frac);
    }
  }

  /** Putting a point `places` digits from the end divides by ten to `places`. */
  lemma SplitValue(digits: string, cut: nat)
    requires cut <= |digits| && AllDigits(digits)
    ensures AllDigits(digits[..cut]) && AllDigits(digits[cut..])
    ensures Decimal(DecimalValue(digits[..cut]), DecimalValue(digits[cut..]), |digits| - cut)
         == Shifted(DecimalValue(digits), |digits| - cut)
  {
    var whole, frac := digits[..cut], digits[cut..];
    SplitDigits(digits, cut);
    DecimalValueAppend(whole, frac);
    RescaleTo(DecimalValue(digits), DecimalValue(whole), DecimalValue(frac), |frac|);
  }

  lemma SplitDigits(digits: string, cut: nat)
    requires cut <= |digits| && AllDigits(digits)
    ensures AllDigits(digits[..cut]) && AllDigits(digits[cut..])
    ensures digits == digits[..cut] + digits[cut..]
  {
    assert digits == digits[..cut] + digits[cut..];
  }

  lemma RescaleTo(n: nat, q: nat, r: nat, scale: nat)
    requires n == q * Pow10(scale) + r
    ensures Decimal(q, r, scale) == Shifted(n, scale)
  {
    Rescale(q, r, scale);
  }

  lemma Rescale(q: nat, r: nat, scale: nat)
    ensures Decimal(q, r, scale) == Shifted(q * Pow10(scale) + r, scale)
  {
    var p := Pow10(scale);
    assert (q * p) as real == q as real * p as real;
  }

  /** A run of digits reads as its value. */
  lemma ParseUnsignedDigits(s: string)
    requires IsDigitString(s)
    ensures ParseUnsigned(s) == Some(DecimalValue(s) as real)
  {
    NoExponentInDigits(s);
    ParseUnsignedNoExponent(s);
    assert '.' !in s by {
      assert forall k :: 0 <= k < |s| ==> IsDigit(s[k]);
    }
  }

  lemma ParseUnsignedNoExponent(s: string)
    requires ExponentMark(s) == |s|
    ensures ParseUnsigned(s) == ParseMantissa(s)
  {
    assert s[..|s|] == s;
  }

  /** `whole.frac` reads as the whole part plus the fraction scaled by its length. */
  lemma ParseUnsignedPoint(whole: string, frac: string)
    requires AllDigits(whole) && AllDigits(frac) && |whole| + |frac| > 0
    ensures ParseUnsigned(whole + "." + frac)
         == Some(Decimal(DecimalValue(whole), DecimalValue(frac), |frac|))
  {
    var s := whole + "." + frac;
    NoExponentInPoint(whole, frac);
    ParseUnsignedNoExponent(s);
    MantissaPoint(whole, frac);
  }

  lemma NoExponentInPoint(whole: string, frac: string)
    requires AllDigits(whole) && AllDigits(frac)
    ensures ExponentMark(whole + "." + frac) == |whole| + 1 + |frac|
  {
    var s := whole + "." + frac;
    forall k | 0 <= k < |s| ensures s[k] != 'e' && s[k] != 'E' {
      if k < |whole| {
        assert s[k] == whole[k] && IsDigit(whole[k]);
      } else if k == |whole| {
        assert s[k] == '.';
      } else {
        assert s[k] == frac[k - |whole| - 1] && IsDigit(frac[k - |whole| - 1]);
      }
    }
    ExponentMarkNone(s);
  }

  lemma MantissaPoint(whole: string, frac: string)
    requires AllDigits(whole) && AllDigits(frac) && |whole| + |frac| > 0
    ensures ParseMantissa(whole + "." + frac)
         == Some(Decimal(DecimalValue(whole), DecimalValue(frac), |frac|))
  {
    var s := whole + "." + frac;
    assert '.' !in whole by {
      assert forall k :: 0 <= k < |whole| ==> IsDigit(whole[k]);
    }
    assert s[..|whole|] == whole;
    assert IndexOf(s, '.') == |whole| by { assert s[|whole|] == '.'; }
    assert s[|whole| + 1..] == frac;
  }

  lemma NoExponentInDigits(s: string)
    requires AllDigits(s)
    ensures ExponentMark(s) == |s|
  {
    assert forall k :: 0 <= k < |s| ==> IsDigit(s[k]);
    ExponentMarkNone(s);
  }

  lemma ExponentMarkNone(s: string)
    requires forall k :: 0 <= k < |s| ==> s[k] != 'e' && s[k] != 'E'
    ensures ExponentMark(s) == |s|
  {
  }

  /** Every run of digits reads as the integer it spells. */
  lemma ParseFloatOfDigits(s: string)
    requires IsDigitString(s)
    ensures ParseFloat(s) == Some(DecimalValue(s) as real)
  {
    StripUntrimmed(s);
    LiteralUnsigned(s);
    ParseUnsignedDigits(s);
  }

  /** A digit-delimited literal with no exponent is rejected when its mantissa is. */
  lemma ParseFloatRejects(s: string)
    requires s != [] && IsDigit(s[0]) && IsDigit(s[|s| - 1])
    requires forall k :: 0 <= k < |s| ==> s[k] != 'e' && s[k] != 'E'
    requires ParseMantissa(s) == None
    ensures ParseFloat(s) == None
  {
    StripUntrimmed(s);
    ExponentMarkNone(s);
    assert s[..|s|] == s;
  }

  /** Shifting a multiple of `10^k` by `k` places gives the multiplier back. */
  lemma ShiftedWhole(n: nat, k: nat)
    ensures Shifted(n * Pow10(k), k) == n as real
  {
    var p := Pow10(k) as real;
    assert (n * Pow10(k)) as real == n as real * p;
  }

  /** `k` digits hold a value below ten to the `k`. */
  lemma {:induction false} DecimalValueBound(s: string)
    requires AllDigits(s)
    ensures DecimalValue(s) < Pow10(|s|)
  {
    if s != [] {
      var init := s[..|s| - 1];
      DecimalValueBound(init);
      assert DecimalValue(s) == DecimalValue(init) * 10 + DigitValue(s[|s| - 1]);
    }
  }

  /** A single digit is worth its digit value. */
  lemma DecimalValueDigit(c: char)
    requires IsDigit(c)
    ensures DecimalValue([c]) == DigitValue(c)
  {
    assert [c][..0] == [];
  }

  /** The leading digit weighs ten to the length of the rest. */
  lemma DecimalValueHead(x: string)
    requires AllDigits(x) && x != []
    ensures AllDigits(x[1..])
    ensures DecimalValue(x) == DigitValue(x[0]) * Pow10(|x| - 1) + DecimalValue(x[1..])
  {
    assert x == [x[0]] + x[1..];
    DecimalValueAppend([x[0]], x[1..]);
    DecimalValueDigit(x[0]);
  }

  lemma MulMonotone(a: nat, b: nat, p: nat)
    ensures a <= b ==> a * p <= b * p
  {
  }

  /** With remainders below `p`, a smaller total cannot have a larger leading multiple of `p`. */
  lemma LeadingOrder(dx: nat, dy: nat, p: nat, rx: nat, ry: nat)
    requires rx < p && ry < p && dx * p + rx < dy * p + ry
    ensures dx <= dy
  {
    MulMonotone(dy + 1, dx, p);
    assert (dy + 1) * p == dy * p + p;
  }

  /**
   * Equally long digit strings compare as text the way their values compare,
   * which is why zero-padded fields sort chronologically.
   */
  lemma {:induction false} DigitsOrder(x: string, y: string)
    requires AllDigits(x) && AllDigits(y) && |x| == |y|
    requires DecimalValue(x) < DecimalValue(y)
    ensures LexLt(x, y)
  {
    if x != [] {
      var tx, ty := x[1..], y[1..];
      DecimalValueHead(x);
      DecimalValueHead(y);
      DecimalValueBound(tx);
      DecimalValueBound(ty);
      var dx, dy := DigitValue(x[0]), DigitValue(y[0]);
      LeadingOrder(dx, dy, Pow10(|tx|), DecimalValue(tx), DecimalValue(ty));
      if dx < dy {
        assert x[0] < y[0];
      } else {
        assert x[0] == y[0];
        DigitsOrder(tx, ty);
        assert x != y by { assert x == [x[0]] + tx && y == [y[0]] + ty; }
      }
    }
  }
}
