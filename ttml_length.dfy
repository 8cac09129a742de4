/**
 * TtmlLength: a region coordinate such as `10%`, `-4px`, `2em`, `3c` or `auto`.
 *
 * The pattern `^(-?\d+\.?\d*?)([^\.\s]+)$` is recognised by hand. Its lazy `\d*?`
 * never captures a digit: after the integer digits and an optional '.', every
 * remaining character goes to the unit group. So the number group holds an
 * integer (`12.%` is 12 percent) and `12.5%` has the unit `5%`, which is unknown.
 */
module TtmlLength {
  import opened Wrappers
  import opened JavaText

  datatype LengthType = Percentage | Pixel | Em | Cell | Auto

  /** The TYPE_* tags of the source. */
  function TypeTag(k: LengthType): int {
    match k
    case Percentage => 0
    case Pixel => 1
    case Em => 2
    case Cell => 3
    case Auto => 4
  }

  datatype Length = Length(value: real, kind: LengthType)

  /** Characters a unit may not contain: '.' and `\s`. */
  const UnitExcluded: set<char> := {'.'} + RegexSpaces

  predicate IsUnitText(u: string) {
    u != [] && NoneIn(u, UnitExcluded)
  }

  /** The two groups of a match: group 1 is the sign, the digits and an optional '.'; group 2 the unit. */
  datatype LengthGroups = LengthGroups(negative: bool, digits: string, dot: bool, unit: string)

  function GroupOne(g: LengthGroups): string {
    (if g.negative then "-" else "") + g.digits + (if g.dot then "." else "")
  }

  /** The match of the pattern after the optional '-': digits, an optional '.', the unit. */
  function MatchDigitsAndUnit(rest: string): (m: Option<LengthGroups>)
    ensures m.Some? ==> |m.value.digits| >= 1 && AllDigits(m.value.digits) && !m.value.negative
  {
    var n := DigitPrefixLen(rest);
    if n == 0 then None
    else if n < |rest| && rest[n] == '.' then
      if IsUnitText(rest[n + 1..]) then Some(LengthGroups(false, rest[..n], true, rest[n + 1..])) else None
    else if n < |rest| then
      if IsUnitText(rest[n..]) then Some(LengthGroups(false, rest[..n], false, rest[n..])) else None
    else if n >= 2 then
      assert rest[..n - 1] == rest[..n][..n - 1];
      Some(LengthGroups(false, rest[..n - 1], false, rest[n - 1..]))
    else None
  }

  /**
   * The match the regex engine finds, trying the greedy `-?`, `\d+` and `\.?` at their longest
   * and the lazy `\d*?` at its shortest first. When no unit text follows the digits, the engine
   * backtracks one digit into the unit.
   */
  function MatchLengthFormat(s: string): (m: Option<LengthGroups>)
    ensures m.Some? ==> |m.value.digits| >= 1 && AllDigits(m.value.digits)
  {
    if |s| > 0 && s[0] == '-' then
      match MatchDigitsAndUnit(s[1..])
      case None => None
      case Some(g) => Some(g.(negative := true))
    else MatchDigitsAndUnit(s)
  }

  lemma MatchDigitsAndUnitShape(rest: string)
    requires MatchDigitsAndUnit(rest).Some?
    ensures var g := MatchDigitsAndUnit(rest).value;
      rest == g.digits + (if g.dot then "." else "") + g.unit && IsUnitText(g.unit)
  {
    var n := DigitPrefixLen(rest);
    if !(n < |rest|) {
      assert rest == rest[..n - 1] + rest[n - 1..];
      assert IsDigit(rest[..n][n - 1]);
      assert rest[n - 1..] == [rest[n - 1]];
    } else if rest[n] == '.' {
      assert rest == rest[..n] + "." + rest[n + 1..];
    } else {
      assert rest == rest[..n] + rest[n..];
    }
  }

  lemma MatchShape(s: string)
    requires MatchLengthFormat(s).Some?
    ensures var g := MatchLengthFormat(s).value; s == GroupOne(g) + g.unit && IsUnitText(g.unit)
  {
    if |s| > 0 && s[0] == '-' {
      var g0 := MatchDigitsAndUnit(s[1..]).value;
      assert MatchLengthFormat(s).value == g0.(negative := true);
      MatchDigitsAndUnitShape(s[1..]);
      NegatedGroupOne(g0);
      assert s[1..] == GroupOne(g0) + g0.unit;
      assert s == "-" + s[1..];
    } else {
      MatchDigitsAndUnitShape(s);
      var g := MatchLengthFormat(s).value;
      assert g == MatchDigitsAndUnit(s).value;
      NegatedGroupOne(g);
    }
  }

  /** The sign is the first character of group 1. */
  lemma NegatedGroupOne(g: LengthGroups)
    requires !g.negative
    ensures GroupOne(g.(negative := true)) + g.unit == "-" + (GroupOne(g) + g.unit)
    ensures GroupOne(g) == g.digits + (if g.dot then "." else "")
  {
  }

  /** A number as the pattern's group 1 admits it: an optional '-', a digit, then digits and at most one '.'. */
  function Unsigned(x: string): string {
    if x != [] && x[0] == '-' then x[1..] else x
  }

  ghost predicate NumberForm(x: string) {
    var y := Unsigned(x);
    && y != []
    && IsDigit(y[0])
    && (forall i :: 0 <= i < |y| ==> IsDigit(y[i]) || y[i] == '.')
    && CountIn(y, {'.'}) <= 1
  }

  /** `s` matches LENGTH_FORMAT with the given groups (some split of `s`, not necessarily the engine's). */
  ghost predicate LengthFormat(s: string, number: string, unit: string) {
    s == number + unit && NumberForm(number) && IsUnitText(unit)
  }

  lemma DigitPrefixStops(a: string, b: string)
    requires DigitPrefixLen(a) < |a|
    ensures DigitPrefixLen(a + b) == DigitPrefixLen(a)
  {
    if IsDigit(a[0]) {
      assert (a + b)[1..] == a[1..] + b;
      DigitPrefixStops(a[1..], b);
    }
  }

  lemma NoDotInDigitRun(y: string, p: nat)
    requires p <= |y| && AllDigits(y[..p])
    ensures CountIn(y, {'.'}) == CountIn(y[p..], {'.'})
  {
    if p > 0 {
      assert y[1..][..p - 1] == y[..p][1..];
      NoDotInDigitRun(y[1..], p - 1);
      assert y[1..][p - 1..] == y[p..];
    }
  }

  lemma NoDotAfterFirst(y: string)
    requires y != [] && y[0] == '.' && CountIn(y, {'.'}) <= 1
    ensures forall i :: 1 <= i < |y| ==> y[i] != '.'
  {
    forall i | 1 <= i < |y| ensures y[i] != '.' {
      if y[i] == '.' { CountPositive(y[1..], i - 1); }
    }
  }

  lemma CountPositive(y: string, i: nat)
    requires i < |y| && y[i] == '.'
    ensures CountIn(y, {'.'}) >= 1
  {
    if i > 0 { CountPositive(y[1..], i - 1); }
  }

  /** The engine finds the match it reports: its groups satisfy the pattern. */
  lemma MatchSound(s: string)
    requires MatchLengthFormat(s).Some?
    ensures var g := MatchLengthFormat(s).value; LengthFormat(s, GroupOne(g), g.unit)
  {
    var g := MatchLengthFormat(s).value;
    MatchShape(s);
    var x := GroupOne(g);
    var y := Unsigned(x);
    var tail := if g.dot then "." else "";
    assert y == g.digits + tail;
    assert CountIn(g.digits + tail, {'.'}) <= 1 by {
      NoDotInDigitRun(g.digits + tail, |g.digits|);
      assert (g.digits + tail)[|g.digits|..] == tail;
    }
  }

  lemma CompleteDigitsOnly(y: string, unit: string)
    requires y != [] && AllDigits(y) && IsUnitText(unit)
    ensures MatchDigitsAndUnit(y + unit).Some?
  {
    var rest := y + unit;
    DigitPrefixOfDigits(y, unit);
    var k := DigitPrefixLen(unit);
    var n := |y| + k;
    assert rest[n..] == unit[k..];
    if k < |unit| {
      assert unit[k] != '.';
      assert forall i :: 0 <= i < |unit[k..]| ==> unit[k..][i] == unit[k + i];
    }
  }

  lemma CompleteWithDot(y: string, p: nat, unit: string)
    requires 1 <= p < |y| && AllDigits(y[..p]) && y[p] == '.'
    requires forall i :: p < i < |y| ==> IsDigit(y[i])
    requires IsUnitText(unit)
    ensures MatchDigitsAndUnit(y + unit).Some?
  {
    var rest := y + unit;
    assert y == y[..p] + y[p..];
    assert rest == y[..p] + (y[p..] + unit);
    DigitPrefixOfDigits(y[..p], y[p..] + unit);
    assert DigitPrefixLen(y[p..] + unit) == 0;
    assert rest[p] == '.';
    var u := rest[p + 1..];
    assert u == y[p + 1..] + unit;
    forall i | 0 <= i < |u| ensures u[i] !in UnitExcluded {
      if i < |y| - p - 1 {
        assert u[i] == y[p + 1 + i];
      } else {
        assert u[i] == unit[i - (|y| - p - 1)];
      }
    }
  }

  /** Whenever some split of `s` satisfies the pattern, the engine reports a match. */
  lemma MatchComplete(s: string, number: string, unit: string)
    requires LengthFormat(s, number, unit)
    ensures MatchLengthFormat(s).Some?
  {
    var neg := number[0] == '-';
    var y := Unsigned(number);
    var rest := if neg then s[1..] else s;
    assert rest == y + unit;
    assert s[0] == number[0];
    var p := DigitPrefixLen(y);
    if p == |y| {
      assert y[..p] == y;
      CompleteDigitsOnly(y, unit);
    } else {
      assert IsDigit(y[p]) || y[p] == '.';
      NoDotInDigitRun(y, p);
      NoDotAfterFirst(y[p..]);
      forall i | p < i < |y| ensures IsDigit(y[i]) {
        assert y[p..][i - p] == y[i];
        assert y[i] != '.';
      }
      CompleteWithDot(y, p, unit);
    }
  }

  /** The value of group 1: Float.parseFloat cannot fail on what the pattern admits. */
  function GroupValue(g: LengthGroups): real
    requires AllDigits(g.digits)
  {
    var magnitude := DigitsValue(g.digits) as real;
    if g.negative then -magnitude else magnitude
  }

  function UnitOf(u: string): Option<LengthType> {
    if u == "px" then Some(Pixel)
    else if u == "%" then Some(Percentage)
    else if u == "em" then Some(Em)
    else if u == "c" then Some(Cell)
    else None
  }

  function UnitName(k: LengthType): string
    requires k != Auto
  {
    match k
    case Pixel => "px"
    case Percentage => "%"
    case Em => "em"
    case Cell => "c"
  }

  /** The TtmlLength built from a match, or null (None) when the lower-cased unit is not known. */
  function LengthOf(g: LengthGroups): (r: Option<Length>)
    requires AllDigits(g.digits)
    ensures r.Some? ==> r.value.kind != Auto && UnitOf(ToLower(g.unit)) == Some(r.value.kind)
  {
    match UnitOf(ToLower(g.unit))
    case None => None
    case Some(k) => Some(Length(GroupValue(g), k))
  }

  /** TtmlLength.parse: `auto` in any case, else number and unit; null (None) for anything else, never an exception. */
  function Parse(s: string): (r: Option<Length>)
    ensures r.Some? && r.value.kind == Auto ==> r.value.value == -1.0
    ensures r.Some? && r.value.kind != Auto ==>
      MatchLengthFormat(s).Some? && UnitOf(ToLower(MatchLengthFormat(s).value.unit)) == Some(r.value.kind)
    ensures r.Some? && r.value.kind != Auto ==>
      MatchLengthFormat(s).Some? && r.value.value == GroupValue(MatchLengthFormat(s).value)
  {
    if EqualsIgnoreCase(s, "auto") then Some(Length(-1.0, Auto))
    else
      match MatchLengthFormat(s)
      case None => None
      case Some(g) => LengthOf(g)
  }

  lemma NotAuto(s: string)
    requires s != [] && (IsDigit(s[0]) || s[0] == '-')
    ensures !EqualsIgnoreCase(s, "auto")
  {
    assert ToLower(s)[0] == LowerChar(s[0]);
  }

  /** Exactly the spellings of `auto` parse to the AUTO type, always with value -1. */
  lemma ParseAutoIff(s: string)
    ensures (Parse(s).Some? && Parse(s).value.kind == Auto) <==> EqualsIgnoreCase(s, "auto")
    ensures EqualsIgnoreCase(s, "auto") ==> Parse(s) == Some(Length(-1.0, Auto))
  {
    if !EqualsIgnoreCase(s, "auto") {
      match MatchLengthFormat(s)
      case None =>
      case Some(g) =>
        var u := ToLower(g.unit);
        assert UnitOf(u).Some? ==> UnitOf(u).value != Auto;
    }
  }

  /** A parsed number-and-unit length always carries an integral value: no fraction digit reaches it. */
  lemma ParseIntegral(s: string)
    requires Parse(s).Some? && Parse(s).value.kind != Auto
    ensures Parse(s).value.value == Parse(s).value.value.Floor as real
  {
    var g := MatchLengthFormat(s).value;
    var m := DigitsValue(g.digits);
    assert Parse(s).value.value == GroupValue(g);
    assert GroupValue(g) == if g.negative then -(m as real) else m as real;
    assert (-(m as real)).Floor == -(m as int);
  }

  lemma LowerKeepsExcluded(u: string)
    requires NoneIn(ToLower(u), UnitExcluded)
    ensures NoneIn(u, UnitExcluded)
  {
    forall i | 0 <= i < |u| ensures u[i] !in UnitExcluded {
      assert ToLower(u)[i] == LowerChar(u[i]);
    }
  }

  lemma DigitsThenUnit(digits: string, unit: string)
    requires digits != [] && AllDigits(digits) && IsUnitText(unit) && !IsDigit(unit[0])
    ensures MatchDigitsAndUnit(digits + unit) == Some(LengthGroups(false, digits, false, unit))
  {
    var rest := digits + unit;
    DigitPrefixOfDigits(digits, unit);
    assert DigitPrefixLen(unit) == 0;
    assert rest[..|digits|] == digits && rest[|digits|..] == unit;
  }

  lemma MatchSignedDigitsThenUnit(negative: bool, digits: string, unit: string)
    requires digits != [] && AllDigits(digits) && IsUnitText(unit) && !IsDigit(unit[0])
    ensures MatchLengthFormat((if negative then "-" else "") + digits + unit)
         == Some(LengthGroups(negative, digits, false, unit))
  {
    DigitsThenUnit(digits, unit);
    var s := (if negative then "-" else "") + digits + unit;
    if negative {
      assert s[1..] == digits + unit;
    } else {
      assert s == digits + unit;
      assert s[0] == digits[0];
    }
  }

  function Magnitude(v: int): nat {
    if v < 0 then -v else v
  }

  lemma IntThenUnitMatches(v: int, unit: string)
    requires IsUnitText(unit) && !IsDigit(unit[0])
    ensures !EqualsIgnoreCase(IntToString(v) + unit, "auto")
    ensures MatchLengthFormat(IntToString(v) + unit) == Some(LengthGroups(v < 0, NatToString(Magnitude(v)), false, unit))
  {
    var digits := NatToString(Magnitude(v));
    var s := (if v < 0 then "-" else "") + digits + unit;
    assert s == IntToString(v) + unit;
    assert s[0] == '-' || s[0] == digits[0];
    NotAuto(s);
    MatchSignedDigitsThenUnit(v < 0, digits, unit);
  }

  /** Writing an integer followed by a unit name in any letter case parses back to that value and unit. */
  lemma {:induction false} ParseRoundTrip(v: int, unit: string, k: LengthType)
    requires k != Auto && ToLower(unit) == UnitName(k)
    ensures Parse(IntToString(v) + unit) == Some(Length(v as real, k))
  {
    UnitSpelling(unit, k);
    IntThenUnitMatches(v, unit);
    SignedDigitsValue(v, unit);
  }

  /** A unit name in any letter case is unit text that starts with a letter. */
  lemma UnitSpelling(unit: string, k: LengthType)
    requires k != Auto && ToLower(unit) == UnitName(k)
    ensures IsUnitText(unit) && !IsDigit(unit[0]) && UnitOf(ToLower(unit)) == Some(k)
  {
    LowerKeepsExcluded(unit);
    assert ToLower(unit)[0] == LowerChar(unit[0]);
  }

  /** The groups of a written integer give back its value. */
  lemma SignedDigitsValue(v: int, unit: string)
    ensures GroupValue(LengthGroups(v < 0, NatToString(Magnitude(v)), false, unit)) == v as real
  {
    NatToStringValue(Magnitude(v));
  }

  lemma DigitsDotRest(whole: string, tail: string)
    requires whole != [] && AllDigits(whole)
    ensures var m := MatchDigitsAndUnit(whole + "." + tail);
      m.Some? ==> m.value.unit == tail
  {
    var rest := whole + "." + tail;
    assert rest == whole + ("." + tail);
    DigitPrefixOfDigits(whole, "." + tail);
    assert DigitPrefixLen("." + tail) == 0;
    assert rest[|whole|] == '.' && rest[|whole| + 1..] == tail;
  }

  lemma MatchSignedFraction(negative: bool, whole: string, tail: string)
    requires whole != [] && AllDigits(whole)
    ensures var m := MatchLengthFormat((if negative then "-" else "") + whole + "." + tail);
      m.Some? ==> m.value.unit == tail
  {
    var body := whole + "." + tail;
    var s := (if negative then "-" else "") + whole + "." + tail;
    DigitsDotRest(whole, tail);
    if negative {
      assert s[1..] == body;
    } else {
      assert s == body;
      assert s[0] == whole[0];
    }
  }

  /** A literal with fraction digits, such as `12.5%`, is rejected: the unit group then starts with a digit. */
  lemma {:induction false} FractionRejected(negative: bool, whole: string, fraction: string, unit: string)
    requires whole != [] && AllDigits(whole) && fraction != [] && AllDigits(fraction)
    ensures Parse((if negative then "-" else "") + whole + "." + fraction + unit) == None
  {
    var s := (if negative then "-" else "") + whole + "." + fraction + unit;
    var tail := fraction + unit;
    assert s == (if negative then "-" else "") + whole + "." + tail;
    assert s[0] == '-' || s[0] == whole[0];
    NotAuto(s);
    MatchSignedFraction(negative, whole, tail);
    var m := MatchLengthFormat(s);
    if m.Some? {
      DigitUnitUnknown(m.value.unit);
    }
  }

  lemma DigitUnitUnknown(u: string)
    requires u != [] && IsDigit(u[0])
    ensures UnitOf(ToLower(u)) == None
  {
    assert ToLower(u)[0] == LowerChar(u[0]);
  }
}
