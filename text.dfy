/** JavaScript string primitives the rest of the model relies on: the
    whitespace class shared by `String.prototype.trim` and the regex class
    `\s`, the regex line terminators, `trim`, `includes`, `split`, `join`,
    ASCII case folding, decimal rendering of integers and `parseInt(s, 10)`.
    A `char` is a Unicode scalar value, while a JavaScript string is a
    sequence of UTF-16 code units; the two agree on every character outside
    the surrogate range that lies in the Basic Multilingual Plane. */
module Text {

  import opened Wrappers

  /** The characters matched by `\s` and removed by `trim`:
      ECMAScript WhiteSpace plus LineTerminator. */
  predicate IsWhitespace(c: char) {
    c == ' ' || c == '\t' || c == '\n' || c == '\r' || c == '\U{000B}' || c == '\U{000C}'
    || c == '\U{00A0}' || c == '\U{1680}' || ('\U{2000}' <= c <= '\U{200A}')
    || c == '\U{2028}' || c == '\U{2029}' || c == '\U{202F}' || c == '\U{205F}'
    || c == '\U{3000}' || c == '\U{FEFF}'
  }

  /** The characters that a regex `.` refuses unless the `s` flag is set. */
  predicate IsLineTerminator(c: char) {
    c == '\n' || c == '\r' || c == '\U{2028}' || c == '\U{2029}'
  }

  predicate AllWhitespace(s: string) {
    forall k :: 0 <= k < |s| ==> IsWhitespace(s[k])
  }

  /** `s` has no whitespace at either end. */
  predicate Trimmed(s: string) {
    s == [] || (!IsWhitespace(s[0]) && !IsWhitespace(s[|s| - 1]))
  }

  /** The first index from `i` on that does not hold whitespace. */
  function SkipWhitespace(s: string, i: nat): (j: nat)
    requires i <= |s|
    ensures i <= j <= |s|
    ensures forall k :: i <= k < j ==> IsWhitespace(s[k])
    ensures j == |s| || !IsWhitespace(s[j])
    decreases |s| - i
  {
    if i < |s| && IsWhitespace(s[i]) then SkipWhitespace(s, i + 1) else i
  }

  /** The end of `s[i..j]` once the whitespace at its end is dropped. */
  function SkipTrailingWhitespace(s: string, i: nat, j: nat): (e: nat)
    requires i <= j <= |s|
    ensures i <= e <= j
    ensures forall k :: e <= k < j ==> IsWhitespace(s[k])
    ensures e == i || !IsWhitespace(s[e - 1])
    decreases j - i
  {
    if i < j && IsWhitespace(s[j - 1]) then SkipTrailingWhitespace(s, i, j - 1) else j
  }

  /** `String.prototype.trimStart`. */
  function TrimStart(s: string): (r: string)
    ensures r == [] || !IsWhitespace(r[0])
  {
    s[SkipWhitespace(s, 0)..]
  }

  /** `String.prototype.trim`: the slice of `s` between its leading and its
      trailing run of whitespace. */
  function Trim(s: string): (r: string)
    ensures Trimmed(r)
  {
    var a := SkipWhitespace(s, 0);
    s[a..SkipTrailingWhitespace(s, a, |s|)]
  }

  /** Trimming removes exactly the surrounding whitespace: a text that is
      already trimmed comes back unchanged from any whitespace padding. */
  lemma TrimOfPadded(w1: string, x: string, w2: string)
    requires AllWhitespace(w1) && AllWhitespace(w2) && Trimmed(x)
    ensures Trim(w1 + x + w2) == x
  {
    var s := w1 + x + w2;
    var a := SkipWhitespace(s, 0);
    var e := SkipTrailingWhitespace(s, a, |s|);
    assert forall k :: 0 <= k < |w1| ==> s[k] == w1[k];
    assert forall k :: 0 <= k < |w2| ==> s[|w1| + |x| + k] == w2[k];
    if x != [] {
      assert s[|w1|] == x[0] && s[|w1| + |x| - 1] == x[|x| - 1];
      assert a == |w1| && e == |w1| + |x|;
    }
    assert s[a..e] == x;
  }

  /** A trimmed text is left as it is. */
  lemma TrimOfTrimmed(s: string)
    requires Trimmed(s)
    ensures Trim(s) == s
  {
    assert [] + s + [] == s;
    TrimOfPadded([], s, []);
  }

  /** `trim` is idempotent. */
  lemma TrimIdempotent(s: string)
    ensures Trim(Trim(s)) == Trim(s)
  {
    TrimOfTrimmed(Trim(s));
  }

  /** A text trims to the empty string exactly when it is all whitespace. */
  lemma TrimEmptyIff(s: string)
    ensures Trim(s) == [] <==> AllWhitespace(s)
  {
    var a := SkipWhitespace(s, 0);
    if a < |s| {
      assert SkipTrailingWhitespace(s, a, |s|) > a;
    }
  }

  /** A text containing a non-whitespace character does not trim to empty. */
  lemma TrimNonEmpty(s: string, k: nat)
    requires k < |s| && !IsWhitespace(s[k])
    ensures Trim(s) != []
  {
    TrimEmptyIff(s);
  }

  // ---------------------------------------------------------------------
  // Substrings

  /** `sub` occurs in `s` starting at index `i`. */
  predicate StartsWithAt(s: string, sub: string, i: nat) {
    i + |sub| <= |s| && s[i..i + |sub|] == sub
  }

  /** `String.prototype.includes`. */
  predicate Contains(s: string, sub: string) {
    exists i :: 0 <= i <= |s| - |sub| && StartsWithAt(s, sub, i)
  }

  lemma CharsAt(s: string, sub: string, i: nat)
    requires StartsWithAt(s, sub, i)
    ensures forall k :: 0 <= k < |sub| ==> s[i + k] == sub[k]
  {
    forall k | 0 <= k < |sub| ensures s[i + k] == sub[k] {
      assert s[i..i + |sub|][k] == s[i + k];
    }
  }

  /** A piece of a concatenation that starts with `sub` contains it. */
  lemma ContainsInside(a: string, b: string, c: string, sub: string)
    requires |sub| <= |b| && b[..|sub|] == sub
    ensures Contains(a + b + c, sub)
  {
    var s := a + b + c;
    assert s[|a|..|a| + |sub|] == b[..|sub|];
    assert StartsWithAt(s, sub, |a|);
  }

  /** A prefix is contained. */
  lemma ContainsPrefix(s: string, sub: string)
    requires |sub| <= |s| && s[..|sub|] == sub
    ensures Contains(s, sub)
  {
    assert StartsWithAt(s, sub, 0);
  }

  /** Refutes `Contains(s, sub)` through one character of `sub`: every place
      where `sub[k]` occurs in `s` is followed or preceded, at distance
      `d - k`, by something other than `sub[d]`. */
  lemma NotContainsByAnchor(s: string, sub: string, k: nat, d: nat)
    requires k < |sub| && d < |sub|
    requires forall j :: 0 <= j < |s| && s[j] == sub[k] ==>
               !(0 <= j - k + d < |s| && s[j - k + d] == sub[d])
    ensures !Contains(s, sub)
  {
    forall i | 0 <= i <= |s| - |sub| && StartsWithAt(s, sub, i)
      ensures s[i + k] == sub[k] && s[i + d] == sub[d]
    {
      CharsAt(s, sub, i);
    }
  }

  /** `c` does not occur in `s`. */
  predicate Lacks(s: string, c: char) {
    forall j :: 0 <= j < |s| ==> s[j] != c
  }

  /** In `s`, `x` is never directly followed by `y`. */
  predicate NeverFollowed(s: string, x: char, y: char) {
    forall j :: 0 <= j < |s| - 1 && s[j] == x ==> s[j + 1] != y
  }

  lemma LacksConcat(a: string, b: string, c: char)
    requires Lacks(a, c) && Lacks(b, c)
    ensures Lacks(a + b, c)
  {
    forall j | 0 <= j < |a + b| ensures (a + b)[j] != c {
      if j < |a| {
        assert (a + b)[j] == a[j];
      } else {
        assert (a + b)[j] == b[j - |a|];
      }
    }
  }

  lemma NeverFollowedConcat(a: string, b: string, x: char, y: char)
    requires NeverFollowed(a, x, y) && NeverFollowed(b, x, y)
    requires a == [] || b == [] || a[|a| - 1] != x || b[0] != y
    ensures NeverFollowed(a + b, x, y)
  {
    forall j | 0 <= j < |a + b| - 1 && (a + b)[j] == x ensures (a + b)[j + 1] != y {
      if j + 1 < |a| {
        assert (a + b)[j] == a[j] && (a + b)[j + 1] == a[j + 1];
      } else if j + 1 == |a| {
        assert (a + b)[j] == a[j] && (a + b)[j + 1] == b[0];
      } else {
        assert (a + b)[j] == b[j - |a|] && (a + b)[j + 1] == b[j + 1 - |a|];
      }
    }
  }

  /** A text without one of the characters of `sub` does not contain it. */
  lemma NotContainsByMissing(s: string, sub: string, k: nat)
    requires k < |sub| && Lacks(s, sub[k])
    ensures !Contains(s, sub)
  {
    NotContainsByAnchor(s, sub, k, k);
  }

  /** A text where two adjacent characters of `sub` never appear together
      does not contain it. */
  lemma NotContainsByPair(s: string, sub: string, k: nat)
    requires k + 1 < |sub| && NeverFollowed(s, sub[k], sub[k + 1])
    ensures !Contains(s, sub)
  {
    forall j | 0 <= j < |s| && s[j] == sub[k]
      ensures !(0 <= j - k + (k + 1) < |s| && s[j - k + (k + 1)] == sub[k + 1])
    {
      assert j - k + (k + 1) == j + 1;
    }
    NotContainsByAnchor(s, sub, k, k + 1);
  }

  /** The two refutations above for a text written as three pieces, each
      checked on its own. */
  lemma NotContainsByMissing3(a: string, b: string, c: string, sub: string, k: nat)
    requires k < |sub| && Lacks(a, sub[k]) && Lacks(b, sub[k]) && Lacks(c, sub[k])
    ensures !Contains(a + b + c, sub)
  {
    LacksConcat(a, b, sub[k]);
    LacksConcat(a + b, c, sub[k]);
    NotContainsByMissing(a + b + c, sub, k);
  }

  lemma NotContainsByPair3(a: string, b: string, c: string, sub: string, k: nat)
    requires k + 1 < |sub|
    requires NeverFollowed(a, sub[k], sub[k + 1]) && NeverFollowed(b, sub[k], sub[k + 1])
    requires NeverFollowed(c, sub[k], sub[k + 1])
    requires a != [] ==> a[|a| - 1] != sub[k]
    requires b != [] ==> b[|b| - 1] != sub[k]
    ensures !Contains(a + b + c, sub)
  {
    NeverFollowedConcat(a, b, sub[k], sub[k + 1]);
    assert a + b != [] ==> (a + b)[|a + b| - 1] != sub[k] by {
      if b != [] {
        assert (a + b)[|a + b| - 1] == b[|b| - 1];
      } else if a != [] {
        assert (a + b)[|a + b| - 1] == a[|a| - 1];
      }
    }
    NeverFollowedConcat(a + b, c, sub[k], sub[k + 1]);
    NotContainsByPair(a + b + c, sub, k);
  }

  /** A piece that starts with `sub` makes the text contain it. */
  lemma ContainsInSecond(a: string, b: string, sub: string)
    requires |sub| <= |b| && b[..|sub|] == sub
    ensures Contains(a + b, sub)
  {
    assert (a + b)[|a|..|a| + |sub|] == b[..|sub|];
    assert StartsWithAt(a + b, sub, |a|);
  }

  // ---------------------------------------------------------------------
  // ASCII case folding, as a non-unicode `i` regex compares ASCII letters

  function AsciiLower(c: char): (r: char)
    ensures 'A' <= c <= 'Z' ==> r as int == c as int + 32
    ensures !('A' <= c <= 'Z') ==> r == c
  {
    if 'A' <= c <= 'Z' then (c as int + 32) as char else c
  }

  /** `marker` (written in lower case) occurs at index `i` of `s`, ignoring
      the case of ASCII letters. */
  predicate MarkerAt(s: string, i: nat, marker: string) {
    i + |marker| <= |s|
    && forall j {:trigger AsciiLower(s[j])} :: i <= j < i + |marker| ==> AsciiLower(s[j]) == marker[j - i]
  }

  /** Whether a marker occurs inside a piece of `s` depends on that piece
      only. */
  lemma MarkerShift(s: string, x: string, off: nat, j: nat, marker: string)
    requires off + |x| <= |s| && s[off..off + |x|] == x
    requires j + |marker| <= |x|
    ensures MarkerAt(s, off + j, marker) == MarkerAt(x, j, marker)
  {
    var i := off + j;
    if MarkerAt(x, j, marker) {
      forall n | i <= n < i + |marker| ensures AsciiLower(s[n]) == marker[n - i] {
        assert s[n] == s[off..off + |x|][n - off];
        assert AsciiLower(x[n - off]) == marker[n - off - j];
      }
    }
    if MarkerAt(s, i, marker) {
      forall n | j <= n < j + |marker| ensures AsciiLower(x[n]) == marker[n - j] {
        assert x[n] == s[off..off + |x|][n] == s[off + n];
        assert AsciiLower(s[off + n]) == marker[off + n - i];
      }
    }
  }

  // ---------------------------------------------------------------------
  // split and join

  /** `s.split(sep)` for a one-character separator: the pieces between the
      separators, in order, always at least one. */
  function Split(s: string, sep: char): (r: seq<string>)
    ensures |r| >= 1
    ensures forall i :: 0 <= i < |r| ==> sep !in r[i]
  {
    if s == [] then [[]]
    else
      var rest := Split(s[1..], sep);
      if s[0] == sep then [[]] + rest
      else [[s[0]] + rest[0]] + rest[1..]
  }

  /** `parts.join(sep)`; the empty list joins to the empty string. */
  function Join(parts: seq<string>, sep: string): string {
    if |parts| == 0 then []
    else if |parts| == 1 then parts[0]
    else parts[0] + sep + Join(parts[1..], sep)
  }

  /** Splitting and re-joining with the same separator gives back the text. */
  lemma {:induction false} JoinSplit(s: string, sep: char)
    ensures Join(Split(s, sep), [sep]) == s
  {
    if s != [] {
      var rest := Split(s[1..], sep);
      JoinSplit(s[1..], sep);
      if s[0] == sep {
        assert Split(s, sep) == [[]] + rest;
        assert ([[]] + rest)[1..] == rest;
      } else {
        var r := Split(s, sep);
        assert r == [[s[0]] + rest[0]] + rest[1..];
        if |rest| == 1 {
          assert s == [s[0]] + s[1..];
        } else {
          assert r[1..] == rest[1..];
          assert Join(rest, [sep]) == rest[0] + [sep] + Join(rest[1..], [sep]);
          assert s == [s[0]] + s[1..];
        }
      }
    }
  }

  /** The first piece of a split is the text up to the first separator. */
  lemma {:induction false} SplitHead(x: string, sep: char, y: string)
    requires sep !in x
    ensures Split(x + [sep] + y, sep) == [x] + Split(y, sep)
  {
    if x == [] {
      assert [] + [sep] + y == [sep] + y;
      assert ([sep] + y)[1..] == y;
    } else {
      assert (x + [sep] + y)[1..] == x[1..] + [sep] + y;
      SplitHead(x[1..], sep, y);
      assert [x[0]] + x[1..] == x;
    }
  }

  lemma {:induction false} SplitNoSeparator(x: string, sep: char)
    requires sep !in x
    ensures Split(x, sep) == [x]
  {
    if x != [] {
      SplitNoSeparator(x[1..], sep);
      assert [x[0]] + x[1..] == x;
    }
  }

  /** A text that does not start with the separator has a first piece that
      starts with the same character. */
  lemma SplitFirstChar(s: string, sep: char)
    requires s != [] && s[0] != sep
    ensures Split(s, sep)[0] != [] && Split(s, sep)[0][0] == s[0]
  {
  }

  /** Joining non-empty strings gives a non-empty string. */
  lemma JoinNonEmpty(parts: seq<string>, sep: string)
    requires |parts| > 0 && parts[0] != []
    ensures Join(parts, sep) != []
  {
  }

  // ---------------------------------------------------------------------
  // Integers and their decimal text

  predicate IsDigit(c: char) {
    '0' <= c <= '9'
  }

  function DigitValue(c: char): (r: nat)
    requires IsDigit(c)
    ensures r <= 9
  {
    c as int - '0' as int
  }

  function DigitChar(d: nat): (c: char)
    requires d <= 9
    ensures IsDigit(c) && DigitValue(c) == d
  {
    ('0' as int + d) as char
  }

  /** Decimal text of a natural number, without leading zeros. */
  function NatToString(n: nat): (r: string)
    ensures |r| >= 1
    ensures forall k :: 0 <= k < |r| ==> IsDigit(r[k])
    ensures |r| > 1 ==> r[0] != '0'
  {
    if n < 10 then [DigitChar(n)] else NatToString(n / 10) + [DigitChar(n % 10)]
  }

  /** `String(n)` for an integer. */
  function IntToString(n: int): (r: string)
    ensures |r| >= 1
    ensures n < 0 <==> r[0] == '-'
  {
    if n < 0 then "-" + NatToString(-n) else NatToString(n)
  }

  /** Value of a string of decimal digits. */
  function DigitsValue(s: string): (r: nat)
    requires forall k :: 0 <= k < |s| ==> IsDigit(s[k])
  {
    if s == [] then 0 else DigitsValue(s[..|s| - 1]) * 10 + DigitValue(s[|s| - 1])
  }

  /** Reading back the decimal text of a natural number gives that number. */
  lemma {:induction false} NatToStringRoundTrip(n: nat)
    ensures DigitsValue(NatToString(n)) == n
  {
    if n >= 10 {
      NatToStringRoundTrip(n / 10);
      var r := NatToString(n);
      assert r[..|r| - 1] == NatToString(n / 10);
    }
  }

  /** The length of the run of decimal digits at the start of `s`. */
  function DigitRun(s: string): (n: nat)
    ensures n <= |s|
    ensures forall k :: 0 <= k < n ==> IsDigit(s[k])
    ensures n == |s| || !IsDigit(s[n])
  {
    if s != [] && IsDigit(s[0]) then 1 + DigitRun(s[1..]) else 0
  }

  /** `parseInt(s, 10)`: skip leading whitespace, read an optional sign and
      the longest run of decimal digits; `None` stands for `NaN` (no digit). */
  function ParseInt(s: string): (r: Option<int>)
  {
    var t := TrimStart(s);
    var neg := t != [] && t[0] == '-';
    var u := if t != [] && (t[0] == '-' || t[0] == '+') then t[1..] else t;
    var n := DigitRun(u);
    if n == 0 then None
    else
      var v: int := DigitsValue(u[..n]);
      Some(if neg then -v else v)
  }

  lemma DigitIsNotWhitespace(c: char)
    requires IsDigit(c)
    ensures !IsWhitespace(c)
  {
  }

  lemma {:induction false} DigitRunOfDigits(d: string, x: string)
    requires forall k :: 0 <= k < |d| ==> IsDigit(d[k])
    requires x == [] || !IsDigit(x[0])
    ensures DigitRun(d + x) == |d|
  {
    if d != [] {
      assert (d + x)[0] == d[0];
      assert (d + x)[1..] == d[1..] + x;
      DigitRunOfDigits(d[1..], x);
    } else {
      assert d + x == x;
    }
  }

  /** `parseInt` reads the leading run of decimal digits and ignores what
      follows it. */
  lemma ParseIntOfDigitRun(d: string)
    requires d != [] && forall k :: 0 <= k < |d| ==> IsDigit(d[k])
    ensures ParseInt(d) == Some(DigitsValue(d))
  {
    ParseIntOfDigits(d, []);
    assert d + [] == d;
  }

  lemma ParseIntOfDigits(d: string, x: string)
    requires d != [] && forall k :: 0 <= k < |d| ==> IsDigit(d[k])
    requires x == [] || !IsDigit(x[0])
    ensures ParseInt(d + x) == Some(DigitsValue(d))
  {
    var s := d + x;
    assert s[0] == d[0];
    DigitIsNotWhitespace(d[0]);
    assert SkipWhitespace(s, 0) == 0;
    assert TrimStart(s) == s;
    DigitRunOfDigits(d, x);
    assert s[..|d|] == d;
  }

  /** `parseInt(String(n), 10) == n`: reading back the decimal text of an
      integer gives that integer. */
  lemma ParseIntRoundTrip(n: int)
    ensures ParseInt(IntToString(n)) == Some(n)
  {
    var m: nat := if n < 0 then -n else n;
    var d := NatToString(m);
    NatToStringRoundTrip(m);
    DigitRunOfDigits(d, []);
    assert d + [] == d;
    assert d[..|d|] == d;
    if n < 0 {
      var s := "-" + d;
      assert IntToString(n) == s;
      assert SkipWhitespace(s, 0) == 0;
      assert TrimStart(s) == s;
      assert s[1..] == d;
    } else {
      DigitIsNotWhitespace(d[0]);
      assert SkipWhitespace(d, 0) == 0;
      assert TrimStart(d) == d;
    }
  }
}
