/**
 * The few java.lang.String, Integer and java.util.regex behaviours the TTML decoder
 * relies on, written out over `seq<char>`: ASCII case mapping, `trim`, the three ways
 * the decoder calls `split`, and `Integer.parseInt` / `Long.parseLong` with their
 * range checks.
 */
module JavaText {
  import opened Wrappers

  const INT_MIN: int := -0x8000_0000
  const INT_MAX: int := 0x7fff_ffff
  const LONG_MIN: int := -0x8000_0000_0000_0000
  const LONG_MAX: int := 0x7fff_ffff_ffff_ffff

  /** The exceptions whose effect the decoder model distinguishes. */
  datatype Exception =
    | NumberFormatException
    | SubtitleDecoderException
    | XmlPullParserException
    | NullPointerException
    | NoSuchElementException
    | IndexOutOfBoundsException

  /** The characters of the regex class `\s`: space, tab, newline, vertical tab, form feed, carriage return. */
  const RegexSpaces: set<char> := {' ', '\t', '\n', '\r', 11 as char, 12 as char}

  /** Every `\s` character is at most a space, so a character above it is no separator. */
  lemma AboveSpaceNotWhitespace(c: char)
    ensures c > ' ' ==> c !in RegexSpaces
  {
  }

  predicate IsDigit(c: char) {
    '0' <= c <= '9'
  }

  predicate AllDigits(s: string) {
    forall i :: 0 <= i < |s| ==> IsDigit(s[i])
  }

  predicate NoneIn(s: string, cs: set<char>) {
    forall i :: 0 <= i < |s| ==> s[i] !in cs
  }

  function LowerChar(c: char): char {
    if 'A' <= c <= 'Z' then (c as int + 32) as char else c
  }

  /** `toLowerCase` restricted to ASCII letters. */
  function ToLower(s: string): (r: string)
    ensures |r| == |s|
    ensures forall i :: 0 <= i < |s| ==> r[i] == LowerChar(s[i])
  {
    seq(|s|, i requires 0 <= i < |s| => LowerChar(s[i]))
  }

  predicate EqualsIgnoreCase(a: string, b: string) {
    ToLower(a) == ToLower(b)
  }

  /** `String.trim`: drops every leading and trailing character whose code is at most U+0020. */
  function TrimStart(s: string): (r: string)
    ensures |r| <= |s| && r == s[|s| - |r|..]
    ensures r == [] || r[0] > ' '
  {
    if |s| > 0 && s[0] <= ' ' then TrimStart(s[1..]) else s
  }

  function TrimEnd(s: string): (r: string)
    ensures |r| <= |s| && r == s[..|r|]
    ensures r == [] || r[|r| - 1] > ' '
  {
    if |s| > 0 && s[|s| - 1] <= ' ' then TrimEnd(s[..|s| - 1]) else s
  }

  function Trim(s: string): (r: string)
    ensures r == [] || (r[0] > ' ' && r[|r| - 1] > ' ')
  {
    var t := TrimStart(s);
    var r := TrimEnd(t);
    assert r != [] ==> r[0] == t[0];
    r
  }

  /**
   * `s.split(p, -1)` for a pattern matching exactly one character of `seps`: the pieces
   * between consecutive separators, empty pieces included.
   */
  function SplitEach(s: string, seps: set<char>): (r: seq<string>)
    ensures |r| >= 1
    ensures forall k :: 0 <= k < |r| ==> NoneIn(r[k], seps)
  {
    if s == [] then [""]
    else
      var rest := SplitEach(s[1..], seps);
      if s[0] in seps then [""] + rest else [[s[0]] + rest[0]] + rest[1..]
  }

  /**
   * `s.split(p, -1)` for a pattern matching a maximal run of characters of `seps`
   * (`Util.split(s, "\\s+")`): a leading or trailing run yields an empty first or last piece.
   */
  function SplitRuns(s: string, seps: set<char>): (r: seq<string>)
    ensures |r| >= 1
    ensures forall k :: 0 <= k < |r| ==> NoneIn(r[k], seps)
    ensures s != [] && s[0] in seps ==> r[0] == ""
  {
    if s == [] then [""]
    else
      var rest := SplitRuns(s[1..], seps);
      if s[0] in seps then
        (if |s| > 1 && s[1] in seps then rest else [""] + rest)
      else [[s[0]] + rest[0]] + rest[1..]
  }

  function DropTrailingEmpty(r: seq<string>): (q: seq<string>)
    ensures |q| <= |r| && q == r[..|q|]
    ensures q == [] || q[|q| - 1] != ""
  {
    if r != [] && r[|r| - 1] == "" then DropTrailingEmpty(r[..|r| - 1]) else r
  }

  /**
   * `s.split("\\s")` (limit 0): the string itself when no separator occurs, otherwise the
   * pieces with trailing empty pieces removed.
   */
  function SplitDefault(s: string, seps: set<char>): (r: seq<string>)
    ensures NoneIn(s, seps) ==> r == [s]
  {
    if NoneIn(s, seps) then [s] else DropTrailingEmpty(SplitEach(s, seps))
  }

  /** Joins pieces with one separator between consecutive pieces. */
  function Join(pieces: seq<string>, sep: char): string {
    if pieces == [] then ""
    else if |pieces| == 1 then pieces[0]
    else pieces[0] + [sep] + Join(pieces[1..], sep)
  }

  function CountIn(s: string, seps: set<char>): nat {
    if s == [] then 0 else (if s[0] in seps then 1 else 0) + CountIn(s[1..], seps)
  }

  /** Splitting on one character and joining with it gives the string back, one piece per separator plus one. */
  lemma {:induction false} SplitEachJoin(s: string, c: char)
    ensures Join(SplitEach(s, {c}), c) == s
    ensures |SplitEach(s, {c})| == CountIn(s, {c}) + 1
  {
    if s != [] {
      SplitEachJoin(s[1..], c);
      var rest := SplitEach(s[1..], {c});
      if s[0] != c {
        if |rest| > 1 {
          calc {
            Join([[s[0]] + rest[0]] + rest[1..], c);
            [s[0]] + rest[0] + [c] + Join(rest[1..], c);
            [s[0]] + Join(rest, c);
          }
        }
      }
    }
  }

  function DigitValue(c: char): nat
    requires IsDigit(c)
  {
    c as int - '0' as int
  }

  /** The value of a non-empty string of decimal digits. */
  function DigitsValue(s: string): nat
    requires AllDigits(s)
  {
    if s == [] then 0 else DigitsValue(s[..|s| - 1]) * 10 + DigitValue(s[|s| - 1])
  }

  function Digit(d: nat): char
    requires d < 10
  {
    ('0' as int + d) as char
  }

  /** Decimal rendering of a natural number, without leading zeros. */
  function NatToString(n: nat): (s: string)
    ensures |s| >= 1 && AllDigits(s)
  {
    if n < 10 then [Digit(n)] else NatToString(n / 10) + [Digit(n % 10)]
  }

  lemma {:induction false} NatToStringValue(n: nat)
    ensures DigitsValue(NatToString(n)) == n
  {
    var s := NatToString(n);
    if n >= 10 {
      NatToStringValue(n / 10);
      assert s[..|s| - 1] == NatToString(n / 10);
    }
  }

  /**
   * `Integer.parseInt` (bounds of int) and `Long.parseLong` (bounds of long): an optional
   * sign followed by at least one digit, whose value lies within the bounds; anything
   * else is a NumberFormatException, here None.
   */
  function ParseInteger(s: string, lo: int, hi: int): (r: Option<int>)
    ensures r.Some? ==> lo <= r.value <= hi
    ensures r.Some? ==> |s| > 0 && (IsDigit(s[0]) || (|s| > 1 && (s[0] == '-' || s[0] == '+'))) && AllDigits(s[1..])
  {
    if |s| > 1 && (s[0] == '-' || s[0] == '+') && AllDigits(s[1..]) then
      var v: int := if s[0] == '-' then 0 - DigitsValue(s[1..]) as int else DigitsValue(s[1..]);
      if lo <= v <= hi then Some(v) else None
    else if |s| > 0 && AllDigits(s) then
      var v := DigitsValue(s);
      if lo <= v <= hi then Some(v) else None
    else None
  }

  function ParseInt(s: string): Option<int> {
    ParseInteger(s, INT_MIN, INT_MAX)
  }

  function ParseLong(s: string): Option<int> {
    ParseInteger(s, LONG_MIN, LONG_MAX)
  }

  /** Decimal rendering of an integer, with a leading '-' when negative. */
  function IntToString(v: int): string {
    if v < 0 then "-" + NatToString(-v) else NatToString(v)
  }

  /** Every integer within the bounds, written out in decimal, parses back to itself. */
  lemma ParseIntegerRoundTrip(v: int, lo: int, hi: int)
    requires lo <= v <= hi
    ensures ParseInteger(IntToString(v), lo, hi) == Some(v)
  {
    var s := IntToString(v);
    if v < 0 {
      var digits := NatToString(-v);
      assert s == "-" + digits;
      assert s[1..] == digits;
      NatToStringValue(-v);
      assert |s| > 1 && s[0] == '-' && AllDigits(s[1..]);
    } else {
      NatToStringValue(v);
      assert IsDigit(s[0]);
      assert !(|s| > 1 && (s[0] == '-' || s[0] == '+'));
    }
  }

  /**
   * An optional sign and a non-empty run of digits parse to the signed value of the digits
   * exactly when that value lies within the bounds; with the shape ensured by ParseInteger,
   * this is all the text that parses.
   */
  lemma ParseIntegerSigned(sign: string, digits: string, lo: int, hi: int)
    requires sign == "" || sign == "-" || sign == "+"
    requires digits != [] && AllDigits(digits)
    ensures var v := if sign == "-" then 0 - DigitsValue(digits) as int else DigitsValue(digits) as int;
            ParseInteger(sign + digits, lo, hi) == if lo <= v <= hi then Some(v) else None
  {
    var s := sign + digits;
    if sign == "" {
      assert s == digits && IsDigit(s[0]);
    } else {
      assert s[0] == sign[0] && s[1..] == digits;
    }
  }

  /** `"+7"` is 7 and `"abc"` is a NumberFormatException. */
  lemma ParseIntegerExamples()
    ensures ParseInt("+7") == Some(7)
    ensures ParseInt("abc") == None
  {
    assert "+7" == "+" + "7";
    ParseIntegerSigned("+", "7", INT_MIN, INT_MAX);
    assert !IsDigit("abc"[0]);
  }

  function Pow10(n: nat): (r: nat)
    ensures r >= 1
  {
    if n == 0 then 1 else 10 * Pow10(n - 1)
  }

  /** Reading the digits of `a + b` is reading `a`, shifting it by `|b|` places and adding `b`. */
  lemma {:induction false} DigitsValueConcat(a: string, b: string)
    requires AllDigits(a) && AllDigits(b)
    ensures AllDigits(a + b)
    ensures DigitsValue(a + b) == DigitsValue(a) * Pow10(|b|) + DigitsValue(b)
  {
    var ab := a + b;
    AllDigitsConcat(a, b);
    if b == [] {
      assert ab == a;
    } else {
      var b' := b[..|b| - 1];
      assert ab[..|ab| - 1] == a + b' && ab[|ab| - 1] == b[|b| - 1];
      DigitsValueConcat(a, b');
      var x, y, d, p := DigitsValue(a), DigitsValue(b'), DigitValue(b[|b| - 1]), Pow10(|b'|);
      assert DigitsValue(ab) == (x * p + y) * 10 + d;
      assert DigitsValue(b) == y * 10 + d;
      assert Pow10(|b|) == 10 * p;
      ShiftAdd(x, p, y, d);
    }
  }

  lemma AllDigitsConcat(a: string, b: string)
    requires AllDigits(a) && AllDigits(b)
    ensures AllDigits(a + b)
  {
    var ab := a + b;
    forall i | 0 <= i < |ab| ensures IsDigit(ab[i]) {
      if i < |a| { assert ab[i] == a[i]; } else { assert ab[i] == b[i - |a|]; }
    }
  }

  lemma ShiftAdd(x: int, p: int, y: int, d: int)
    ensures (x * p + y) * 10 + d == x * (10 * p) + (y * 10 + d)
  {
    MulShift(x, p);
  }

  lemma MulShift(x: int, p: int)
    ensures (x * p) * 10 == x * (10 * p)
  {
    calc {
      (x * p) * 10;
      x * p + x * p + x * p + x * p + x * p + x * p + x * p + x * p + x * p + x * p;
      x * (10 * p);
    }
  }

  /** Leading zeros do not change the value of a digit string. */
  lemma LeadingZero(b: string)
    requires AllDigits(b)
    ensures AllDigits("0" + b) && DigitsValue("0" + b) == DigitsValue(b)
  {
    DigitsValueConcat("0", b);
  }

  /** The number of leading decimal digits of `s`. */
  function DigitPrefixLen(s: string): (n: nat)
    ensures n <= |s| && AllDigits(s[..n])
    ensures n < |s| ==> !IsDigit(s[n])
  {
    if s != [] && IsDigit(s[0]) then
      var n := 1 + DigitPrefixLen(s[1..]);
      assert forall i :: 1 <= i < n ==> s[..n][i] == s[1..][..n - 1][i - 1];
      n
    else 0
  }

  lemma DigitPrefixOfDigits(a: string, b: string)
    requires AllDigits(a)
    ensures DigitPrefixLen(a + b) == |a| + DigitPrefixLen(b)
  {
    if a != [] {
      assert (a + b)[0] == a[0] && IsDigit(a[0]);
      assert (a + b)[1..] == a[1..] + b;
      assert AllDigits(a[1..]) by {
        forall i | 0 <= i < |a[1..]| ensures IsDigit(a[1..][i]) {
          assert a[1..][i] == a[i + 1];
        }
      }
      DigitPrefixOfDigits(a[1..], b);
      assert DigitPrefixLen(a + b) == 1 + DigitPrefixLen((a + b)[1..]);
    } else {
      assert a + b == b;
    }
  }

  /** A string without separators is one piece. */
  lemma {:induction false} SplitRunsNone(s: string, seps: set<char>)
    requires NoneIn(s, seps)
    ensures SplitRuns(s, seps) == [s]
  {
    if s != [] {
      assert NoneIn(s[1..], seps) by {
        forall i | 0 <= i < |s[1..]| ensures s[1..][i] !in seps { assert s[1..][i] == s[i + 1]; }
      }
      SplitRunsNone(s[1..], seps);
      assert [s[0]] + s[1..] == s;
    }
  }

  /** A separator-free piece followed by one separator and a text that starts with a non-separator. */
  lemma {:induction false} SplitRunsCons(x: string, c: char, rest: string, seps: set<char>)
    requires NoneIn(x, seps) && c in seps && rest != [] && rest[0] !in seps
    ensures SplitRuns(x + [c] + rest, seps) == [x] + SplitRuns(rest, seps)
  {
    var s := x + [c] + rest;
    if x == [] {
      assert s == [c] + rest && s[1..] == rest && s[1] == rest[0];
    } else {
      assert s[0] == x[0] && s[1..] == x[1..] + [c] + rest;
      assert NoneIn(x[1..], seps) by {
        forall i | 0 <= i < |x[1..]| ensures x[1..][i] !in seps { assert x[1..][i] == x[i + 1]; }
      }
      SplitRunsCons(x[1..], c, rest, seps);
      assert [x[0]] + x[1..] == x;
    }
  }

  /** Two separator-free pieces around one separator. */
  lemma SplitRunsPair(x: string, c: char, y: string, seps: set<char>)
    requires NoneIn(x, seps) && c in seps && NoneIn(y, seps)
    ensures SplitRuns(x + [c] + y, seps) == [x, y]
  {
    if y == [] {
      SplitRunsTrailing(x, c, seps);
      assert x + [c] + y == x + [c];
    } else {
      SplitRunsCons(x, c, y, seps);
      SplitRunsNone(y, seps);
    }
  }

  lemma {:induction false} SplitRunsTrailing(x: string, c: char, seps: set<char>)
    requires NoneIn(x, seps) && c in seps
    ensures SplitRuns(x + [c], seps) == [x, ""]
  {
    var s := x + [c];
    if x == [] {
      assert s == [c] && s[1..] == [];
    } else {
      assert s[0] == x[0] && s[1..] == x[1..] + [c];
      assert NoneIn(x[1..], seps) by {
        forall i | 0 <= i < |x[1..]| ensures x[1..][i] !in seps { assert x[1..][i] == x[i + 1]; }
      }
      SplitRunsTrailing(x[1..], c, seps);
      assert [x[0]] + x[1..] == x;
    }
  }

  /**
   * When the text ends with a non-separator, every piece after the first is non-empty,
   * and so is the first when the text also starts with a non-separator.
   */
  lemma {:induction false} SplitRunsNonEmpty(s: string, seps: set<char>)
    requires s != [] && s[|s| - 1] !in seps
    ensures forall k :: 1 <= k < |SplitRuns(s, seps)| ==> SplitRuns(s, seps)[k] != ""
    ensures s[0] !in seps ==> SplitRuns(s, seps)[0] != ""
  {
    if |s| > 1 {
      assert s[1..][|s[1..]| - 1] == s[|s| - 1];
      SplitRunsNonEmpty(s[1..], seps);
    }
  }

  /** Splitting `a c b` at the separator `c`, where neither side holds a separator, gives the two sides. */
  lemma {:induction false} SplitEachPair(a: string, c: char, b: string, seps: set<char>)
    requires c in seps && NoneIn(a, seps) && NoneIn(b, seps)
    ensures SplitEach(a + [c] + b, seps) == [a, b]
  {
    var s := a + [c] + b;
    if a == [] {
      assert s == [c] + b;
      assert s[1..] == b;
      SplitEachNone(b, seps);
    } else {
      assert s[0] == a[0] && s[1..] == a[1..] + [c] + b;
      assert NoneIn(a[1..], seps) by {
        forall i | 0 <= i < |a[1..]| ensures a[1..][i] !in seps { assert a[1..][i] == a[i + 1]; }
      }
      SplitEachPair(a[1..], c, b, seps);
      assert [a[0]] + a[1..] == a;
    }
  }

  /** A string without separators is one piece. */
  lemma {:induction false} SplitEachNone(b: string, seps: set<char>)
    requires NoneIn(b, seps)
    ensures SplitEach(b, seps) == [b]
  {
    if b != [] {
      assert NoneIn(b[1..], seps) by {
        forall i | 0 <= i < |b[1..]| ensures b[1..][i] !in seps { assert b[1..][i] == b[i + 1]; }
      }
      SplitEachNone(b[1..], seps);
      assert [b[0]] + b[1..] == b;
    }
  }
}
