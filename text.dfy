/**
 * The few pieces of Python's `str` that the parsers and the storage layer lean on:
 * `isspace`, `strip()`, `split(sep)`, `split()`, `startswith`, `endswith`,
 * `replace(c, '')`, `isdigit()` and the code-point order of `<` on strings.
 */
module Text {

  /** `c.isspace()`: the characters that `str.split()` and `str.strip()` treat as whitespace. */
  predicate IsSpace(c: char) {
    || c == ' '
    || ('\t' <= c <= '\r')
    || ('\U{1c}' <= c <= '\U{1f}')
    || c == '\U{85}' || c == '\U{a0}' || c == '\U{1680}'
    || ('\U{2000}' <= c <= '\U{200a}')
    || c == '\U{2028}' || c == '\U{2029}' || c == '\U{202f}' || c == '\U{205f}' || c == '\U{3000}'
  }

  predicate IsBlank(s: string) {
    forall k :: 0 <= k < |s| ==> IsSpace(s[k])
  }

  /** An ASCII decimal digit. */
  predicate IsDigit(c: char) {
    '0' <= c <= '9'
  }

  /** `s.isdigit()` restricted to ASCII: non-empty and made of digits only. */
  predicate IsDigitString(s: string) {
    s != [] && forall k :: 0 <= k < |s| ==> IsDigit(s[k])
  }

  predicate StartsWith(s: string, prefix: string) {
    |prefix| <= |s| && s[..|prefix|] == prefix
  }

  predicate EndsWith(s: string, suffix: string) {
    |suffix| <= |s| && s[|s| - |suffix|..] == suffix
  }

  /** `s.lstrip()`: drops the leading whitespace and nothing else. */
  function StripStart(s: string): (r: string)
    ensures |r| <= |s| && r == s[|s| - |r|..]
    ensures r != [] ==> !IsSpace(r[0])
    ensures IsBlank(s[..|s| - |r|])
  {
    if s != [] && IsSpace(s[0]) then
      var r := StripStart(s[1..]);
      StripStartStep(s, r);
      r
    else s
  }

  /** What the tail's `lstrip()` promises carries over to the whole, after a leading whitespace character. */
  lemma StripStartStep(s: string, r: string)
    requires s != [] && IsSpace(s[0])
    requires |r| < |s| && r == s[1..][|s| - 1 - |r|..] && IsBlank(s[1..][..|s| - 1 - |r|])
    ensures r == s[|s| - |r|..] && IsBlank(s[..|s| - |r|])
  {
    assert s[..|s| - |r|] == [s[0]] + s[1..][..|s| - 1 - |r|];
  }

  /** `s.rstrip()`: drops the trailing whitespace and nothing else. */
  function StripEnd(s: string): (r: string)
    ensures |r| <= |s| && r == s[..|r|]
    ensures r != [] ==> !IsSpace(r[|r| - 1])
    ensures IsBlank(s[|r|..])
  {
    if s != [] && IsSpace(s[|s| - 1]) then
      var r := StripEnd(s[..|s| - 1]);
      StripEndStep(s, r);
      r
    else s
  }

  /** What the head's `rstrip()` promises carries over to the whole, before a trailing whitespace character. */
  lemma StripEndStep(s: string, r: string)
    requires s != [] && IsSpace(s[|s| - 1])
    requires |r| < |s| && r == s[..|s| - 1][..|r|] && IsBlank(s[..|s| - 1][|r|..])
    ensures r == s[..|r|] && IsBlank(s[|r|..])
  {
    assert s[|r|..] == s[..|s| - 1][|r|..] + [s[|s| - 1]];
  }

  /** `s.strip()`. */
  function Strip(s: string): string {
    StripEnd(StripStart(s))
  }

  /** `s.strip()` is empty exactly when `s` is all whitespace (this is the truth value of `line.strip()`). */
  lemma StripEmptyIffBlank(s: string)
    ensures Strip(s) == [] <==> IsBlank(s)
  {
    var t := StripStart(s);
    if Strip(s) == [] {
      assert IsBlank(t[0..]);
      assert t == [];
      assert s[..|s| - |t|] == s;
    } else {
      var r := Strip(s);
      assert r == t[..|r|] && !IsSpace(r[0]);
      assert t[0] == r[0] && t == s[|s| - |t|..];
      assert s[|s| - |t|] == t[0];
    }
  }

  /** Index of the first occurrence of `c` in `s`. */
  function IndexOf(s: string, c: char): (i: nat)
    requires c in s
    ensures i < |s| && s[i] == c && c !in s[..i]
  {
    if s[0] == c then 0 else 1 + IndexOf(s[1..], c)
  }

  /** `sep.join(parts)`. */
  function Join(parts: seq<string>, sep: char): string
    requires |parts| >= 1
  {
    if |parts| == 1 then parts[0] else parts[0] + [sep] + Join(parts[1..], sep)
  }

  /** `s.split(sep)` for a one-character separator: the pieces between separators, empty ones included. */
  function SplitOn(s: string, sep: char): (parts: seq<string>)
    ensures |parts| >= 1
    ensures forall i :: 0 <= i < |parts| ==> sep !in parts[i]
    ensures Join(parts, sep) == s
    decreases |s|
  {
    if sep !in s then [s]
    else
      var i := IndexOf(s, sep);
      var rest := SplitOn(s[i + 1..], sep);
      assert s == s[..i] + [sep] + s[i + 1..];
      [s[..i]] + rest
  }

  /** Splitting a join of separator-free pieces gives the pieces back. */
  lemma {:induction false} SplitJoin(parts: seq<string>, sep: char)
    requires |parts| >= 1
    requires forall i :: 0 <= i < |parts| ==> sep !in parts[i]
    ensures SplitOn(Join(parts, sep), sep) == parts
  {
    var s := Join(parts, sep);
    if |parts| == 1 {
    } else {
      var tail := Join(parts[1..], sep);
      assert s == parts[0] + [sep] + tail;
      assert sep in s by { assert s[|parts[0]|] == sep; }
      var i := IndexOf(s, sep);
      assert s[..i] == parts[0];
      assert s[i + 1..] == tail;
      SplitJoin(parts[1..], sep);
    }
  }

  /** The first occurrence is the position before which the character does not occur. */
  lemma IndexOfFirst(s: string, c: char, i: nat)
    requires i < |s| && s[i] == c && c !in s[..i]
    ensures IndexOf(s, c) == i
  {
    var j := IndexOf(s, c);
    assert s[..i][..j] == s[..j] by { if j <= i { } }
  }

  /** A text that starts with the separator splits into an empty piece and the pieces of the rest. */
  lemma SplitOnSeparatorFirst(s: string, sep: char)
    requires s != [] && s[0] == sep
    ensures SplitOn(s, sep) == [[]] + SplitOn(s[1..], sep)
  {
    assert IndexOf(s, sep) == 0;
    assert s[..0] == [];
  }

  /** Otherwise its first character belongs to the first piece, and the other pieces are those of the rest. */
  lemma SplitOnOtherFirst(s: string, sep: char)
    requires s != [] && s[0] != sep
    ensures var tail := SplitOn(s[1..], sep);
      SplitOn(s, sep) == [[s[0]] + tail[0]] + tail[1..]
  {
    var rest := s[1..];
    if sep !in s {
      assert sep !in rest by { assert forall j :: 0 <= j < |rest| ==> rest[j] == s[j + 1]; }
      assert s == [s[0]] + rest;
    } else {
      var i := IndexOf(s, sep);
      assert rest[i - 1] == sep && rest[..i - 1] == s[1..i];
      assert sep !in s[1..i] by { assert forall j :: 0 <= j < i - 1 ==> s[1..i][j] == s[..i][j + 1]; }
      IndexOfFirst(rest, sep, i - 1);
      assert rest[i..] == s[i + 1..];
      assert s[..i] == [s[0]] + s[1..i];
    }
  }

  /** Length of the leading run of non-whitespace characters. */
  function WordLength(s: string): (n: nat)
    ensures n <= |s|
    ensures forall k :: 0 <= k < n ==> !IsSpace(s[k])
    ensures n < |s| ==> IsSpace(s[n])
  {
    if s == [] || IsSpace(s[0]) then 0 else 1 + WordLength(s[1..])
  }

  predicate IsWord(w: string) {
    w != [] && forall k :: 0 <= k < |w| ==> !IsSpace(w[k])
  }

  /** `s.split()` with no argument: the maximal runs of non-whitespace characters. */
  function Words(s: string): (ws: seq<string>)
    ensures forall i :: 0 <= i < |ws| ==> IsWord(ws[i])
    decreases |s|
  {
    var t := StripStart(s);
    if t == [] then []
    else
      var n := WordLength(t);
      var w := t[..n];
      LeadingWord(t);
      WordsCons(w, Words(t[n..]));
      [w] + Words(t[n..])
  }

  /** A text that starts with a non-whitespace character starts with a word. */
  lemma LeadingWord(t: string)
    requires t != [] && !IsSpace(t[0])
    ensures IsWord(t[..WordLength(t)])
  {
    assert WordLength(t) > 0;
  }

  lemma WordsCons(w: string, ws: seq<string>)
    requires IsWord(w) && forall i :: 0 <= i < |ws| ==> IsWord(ws[i])
    ensures forall i :: 0 <= i < |[w] + ws| ==> IsWord(([w] + ws)[i])
  {
  }

  /** `s.split()` finds no word exactly when `s` is all whitespace. */
  lemma WordsEmptyIffBlank(s: string)
    ensures Words(s) == [] <==> IsBlank(s)
  {
    var t := StripStart(s);
    if t == [] {
      assert s[..|s|] == s;
    } else {
      assert s[|s| - |t|] == t[0];
    }
  }

  /** A single run of non-whitespace is one word. */
  lemma WordsOfWord(w: string)
    requires IsWord(w)
    ensures Words(w) == [w]
  {
    assert StripStart(w) == w by { assert w[0] == w[0]; }
    WordLengthAt(w, |w|);
    assert w[..|w|] == w && w[|w|..] == [];
    WordsEmptyIffBlank([]);
  }

  /** Whitespace in front does not change what `lstrip()` leaves. */
  lemma {:induction false} StripStartBlankPrefix(p: string, x: string)
    requires IsBlank(p)
    ensures StripStart(p + x) == StripStart(x)
  {
    if p != [] {
      assert (p + x)[0] == p[0] && (p + x)[1..] == p[1..] + x;
      StripStartBlankPrefix(p[1..], x);
    } else {
      assert p + x == x;
    }
  }

  /** The leading run of non-whitespace ends at the first whitespace character. */
  lemma {:induction false} WordLengthAt(s: string, n: nat)
    requires n <= |s| && (forall k :: 0 <= k < n ==> !IsSpace(s[k])) && (n < |s| ==> IsSpace(s[n]))
    ensures WordLength(s) == n
  {
    if n > 0 {
      WordLengthAt(s[1..], n - 1);
    }
  }

  /**
   * `s.split()` cuts at every whitespace character: the words on either side
   * of one are the words of the two parts.
   */
  lemma {:induction false} WordsSplitAtSpace(a: string, c: char, b: string)
    requires IsSpace(c)
    ensures Words(a + [c] + b) == Words(a) + Words(b)
    decreases |a|
  {
    var ta := StripStart(a);
    var p := a[..|a| - |ta|];
    assert a == p + ta;
    if ta == [] {
      assert a == p;
      WordsBlankFront(p, c, b);
      WordsEmptyIffBlank(a);
    } else {
      var m := WordLength(ta);
      assert m > 0;
      var rest := ta + [c] + b;
      WordsAfterWord(p, ta, m, rest, c, b);
      WordsSplitAtSpace(ta[m..], c, b);
      WordsOfStripped(a, ta, m);
      assert a + [c] + b == p + ta + [c] + b;
      ConsAppend(ta[..m], Words(ta[m..]), Words(b));
    }
  }

  /** Whitespace before a space contributes no word. */
  lemma WordsBlankFront(p: string, c: char, b: string)
    requires IsBlank(p) && IsSpace(c)
    ensures Words(p + [c] + b) == Words(b)
  {
    assert IsBlank(p + [c]) by {
      assert forall k :: 0 <= k < |p| ==> (p + [c])[k] == p[k];
    }
    assert p + [c] + b == (p + [c]) + b;
    StripStartBlankPrefix(p + [c], b);
  }

  /** After the leading whitespace, the first word of `ta + [c] + b` is that of `ta`. */
  lemma WordsAfterWord(p: string, ta: string, m: nat, rest: string, c: char, b: string)
    requires IsBlank(p) && ta != [] && !IsSpace(ta[0]) && IsSpace(c)
    requires m == WordLength(ta) && rest == ta + [c] + b
    ensures m > 0 && Words(p + ta + [c] + b) == [ta[..m]] + Words(ta[m..] + [c] + b)
  {
    AppendAssoc(p, ta + [c], b);
    AppendAssoc(p, ta, [c]);
    StripStartBlankPrefix(p, rest);
    assert rest[0] == ta[0];
    assert StripStart(rest) == rest;
    WordLengthExtend(ta, c, b);
    AppendAssoc(ta, [c], b);
    AppendAssoc(ta[m..], [c], b);
    SliceOfAppend(ta, [c] + b, m);
  }

  /** A space after `ta` ends its first word there at the latest. */
  lemma WordLengthExtend(ta: string, c: char, b: string)
    requires IsSpace(c)
    ensures WordLength(ta + [c] + b) == WordLength(ta)
  {
    var rest := ta + [c] + b;
    assert forall k :: 0 <= k < |ta| ==> rest[k] == ta[k];
    assert rest[|ta|] == c;
    WordLengthAt(rest, WordLength(ta));
  }

  lemma AppendAssoc(x: string, y: string, z: string)
    ensures x + y + z == x + (y + z)
  {
  }

  lemma ConsAppend(w: string, u: seq<string>, v: seq<string>)
    ensures [w] + (u + v) == ([w] + u) + v
  {
  }

  lemma SliceOfAppend(x: string, y: string, m: nat)
    requires m <= |x|
    ensures (x + y)[m..] == x[m..] + y && (x + y)[..m] == x[..m]
  {
  }

  /** The words of a text are read from its `lstrip()`. */
  lemma WordsOfStripped(a: string, ta: string, m: nat)
    requires ta == StripStart(a) && ta != [] && m == WordLength(ta)
    ensures Words(a) == [ta[..m]] + Words(ta[m..])
  {
  }

  /** `s.replace(c, '')`. */
  function Without(s: string, c: char): (r: string)
    ensures c !in r
    ensures forall k :: 0 <= k < |r| ==> r[k] in s
    ensures forall k :: 0 <= k < |s| && s[k] != c ==> s[k] in r
  {
    if s == [] then []
    else if s[0] == c then Without(s[1..], c)
    else [s[0]] + Without(s[1..], c)
  }

  /**
   * `a <= b` on Python strings: code point by code point, a proper prefix first.
   */
  predicate LexLe(a: string, b: string) {
    a == [] || (b != [] && (a[0] < b[0] || (a[0] == b[0] && LexLe(a[1..], b[1..]))))
  }

  /** `a < b` on Python strings. */
  predicate LexLt(a: string, b: string) {
    LexLe(a, b) && a != b
  }

  lemma {:induction false} LexLeReflexive(a: string)
    ensures LexLe(a, a)
  {
    if a != [] {
      LexLeReflexive(a[1..]);
    }
  }

  lemma {:induction false} LexLeTotal(a: string, b: string)
    ensures LexLe(a, b) || LexLe(b, a)
  {
    if a != [] && b != [] && a[0] == b[0] {
      LexLeTotal(a[1..], b[1..]);
    }
  }

  lemma {:induction false} LexLeTransitive(a: string, b: string, c: string)
    requires LexLe(a, b) && LexLe(b, c)
    ensures LexLe(a, c)
  {
    if a != [] && b != [] && c != [] && a[0] == b[0] == c[0] {
      LexLeTransitive(a[1..], b[1..], c[1..]);
    }
  }

  lemma {:induction false} LexLeAntisymmetric(a: string, b: string)
    requires LexLe(a, b) && LexLe(b, a)
    ensures a == b
  {
    if a != [] && b != [] {
      LexLeAntisymmetric(a[1..], b[1..]);
      assert a == [a[0]] + a[1..] && b == [b[0]] + b[1..];
    }
  }

  /**
   * Strings that agree on a common prefix and then differ in two equally long
   * pieces are ordered by those pieces, whatever follows them.
   */
  lemma {:induction false} LexLtAtPiece(common: string, x: string, y: string, restX: string, restY: string)
    requires |x| == |y| && LexLt(x, y)
    ensures LexLt(common + x + restX, common + y + restY)
  {
    if common != [] {
      LexLtAtPiece(common[1..], x, y, restX, restY);
      assert (common + x + restX)[1..] == common[1..] + x + restX;
      assert (common + y + restY)[1..] == common[1..] + y + restY;
    } else {
      assert common + x + restX == x + restX;
      assert common + y + restY == y + restY;
      LexLtPieces(x, y, restX, restY);
    }
  }

  lemma {:induction false} LexLtPieces(x: string, y: string, restX: string, restY: string)
    requires |x| == |y| && LexLt(x, y)
    ensures LexLt(x + restX, y + restY)
  {
    assert x != [] && y != [];
    if x[0] < y[0] {
    } else {
      assert x[0] == y[0];
      assert x[1..] != y[1..] by { assert x == [x[0]] + x[1..] && y == [y[0]] + y[1..]; }
      LexLtPieces(x[1..], y[1..], restX, restY);
      assert (x + restX)[1..] == x[1..] + restX;
      assert (y + restY)[1..] == y[1..] + restY;
    }
  }
}
