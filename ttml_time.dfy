/**
 * Time expressions of the `begin`, `end` and `dur` attributes, in microseconds.
 *
 * Two grammars are recognised by hand:
 *   CLOCK_TIME  `^([0-9][0-9]+):([0-9][0-9]):([0-9][0-9])(?:(\.[0-9]+)|:([0-9][0-9])(?:\.([0-9]+))?)?$`
 *   OFFSET_TIME `^([0-9]+(?:\.[0-9]+)?)(h|m|s|ms|f|t)$`
 * Both are deterministic: each group is a maximal digit run, so a matching string has
 * exactly one decomposition. The seconds are accumulated in a double and the product
 * with 10^6 is cast to `long`.
 */
module TtmlTime {
  import opened Wrappers
  import opened JavaText
  import opened JavaNumbers
  import opened TtmlParameters

  const MICROS_PER_SECOND: int := 1000000

  predicate IsDigitRun(s: string) {
    s != [] && AllDigits(s)
  }

  predicate IsTwoDigits(s: string) {
    |s| == 2 && AllDigits(s)
  }

  /** `.fraction` (group 4, kept without its dot), or `:frames` (group 5) with optional `.subframes` (group 6). */
  datatype ClockTail = NoTail | FractionTail(fraction: string) | FramesTail(frames: string, subframes: Option<string>)

  datatype ClockGroups = ClockGroups(hours: string, minutes: string, seconds: string, tail: ClockTail)

  predicate WellFormedTail(t: ClockTail) {
    match t
    case NoTail => true
    case FractionTail(f) => IsDigitRun(f)
    case FramesTail(ff, sub) => IsTwoDigits(ff) && (sub.Some? ==> IsDigitRun(sub.value))
  }

  /** Hours have at least two digits; minutes and seconds exactly two. */
  predicate WellFormedClock(g: ClockGroups) {
    |g.hours| >= 2 && AllDigits(g.hours) && IsTwoDigits(g.minutes) && IsTwoDigits(g.seconds) && WellFormedTail(g.tail)
  }

  function TailText(t: ClockTail): string {
    match t
    case NoTail => ""
    case FractionTail(f) => "." + f
    case FramesTail(ff, sub) => ":" + ff + (if sub.Some? then "." + sub.value else "")
  }

  /** The text a clock time is written as. */
  function ClockText(g: ClockGroups): string {
    g.hours + ":" + g.minutes + ":" + g.seconds + TailText(g.tail)
  }

  function MatchClockTail(t: string): Option<ClockTail> {
    if t == [] then Some(NoTail)
    else if t[0] == '.' then
      if IsDigitRun(t[1..]) then Some(FractionTail(t[1..])) else None
    else if t[0] == ':' && |t| >= 3 && IsTwoDigits(t[1..3]) then
      if |t| == 3 then Some(FramesTail(t[1..3], None))
      else if t[3] == '.' && IsDigitRun(t[4..]) then Some(FramesTail(t[1..3], Some(t[4..])))
      else None
    else None
  }

  /** CLOCK_TIME, as the groups of its unique match. */
  function MatchClockTime(s: string): Option<ClockGroups> {
    var n := DigitPrefixLen(s);
    if n >= 2 && n + 6 <= |s| && s[n] == ':' && IsTwoDigits(s[n + 1..n + 3]) && s[n + 3] == ':'
       && IsTwoDigits(s[n + 4..n + 6])
    then
      match MatchClockTail(s[n + 6..])
      case None => None
      case Some(t) => Some(ClockGroups(s[..n], s[n + 1..n + 3], s[n + 4..n + 6], t))
    else None
  }

  lemma MatchClockTailSound(t: string)
    requires MatchClockTail(t).Some?
    ensures WellFormedTail(MatchClockTail(t).value) && TailText(MatchClockTail(t).value) == t
  {
    if t != [] && t[0] == '.' {
      assert t == "." + t[1..];
    } else if t != [] {
      if |t| == 3 {
        assert t == ":" + t[1..3];
      } else {
        assert t == ":" + t[1..3] + "." + t[4..];
      }
    }
  }

  lemma MatchClockTailComplete(t: ClockTail)
    requires WellFormedTail(t)
    ensures MatchClockTail(TailText(t)) == Some(t)
  {
    var x := TailText(t);
    match t
    case NoTail =>
    case FractionTail(f) =>
      assert x[1..] == f;
    case FramesTail(ff, sub) =>
      assert x[1..3] == ff;
      if sub.Some? {
        assert x[3] == '.' && x[4..] == sub.value;
      }
  }

  /** Every string CLOCK_TIME accepts is the text of well-formed groups, and those are the groups reported. */
  lemma MatchClockTimeSound(s: string)
    requires MatchClockTime(s).Some?
    ensures WellFormedClock(MatchClockTime(s).value) && ClockText(MatchClockTime(s).value) == s
  {
    var n := DigitPrefixLen(s);
    var g := MatchClockTime(s).value;
    assert g == ClockGroups(s[..n], s[n + 1..n + 3], s[n + 4..n + 6], MatchClockTail(s[n + 6..]).value);
    MatchClockTailSound(s[n + 6..]);
    ClockSplit(s, n);
  }

  /** A text with colons at `n` and `n + 3` is its pieces around them. */
  lemma ClockSplit(s: string, n: nat)
    requires n + 6 <= |s| && s[n] == ':' && s[n + 3] == ':'
    ensures s == s[..n] + ":" + s[n + 1..n + 3] + ":" + s[n + 4..n + 6] + s[n + 6..]
  {
    assert s[..n + 6] == s[..n] + ":" + s[n + 1..n + 3] + ":" + s[n + 4..n + 6];
    assert s == s[..n + 6] + s[n + 6..];
  }

  /** CLOCK_TIME accepts the text of every well-formed set of groups and reports exactly those groups. */
  lemma MatchClockTimeComplete(g: ClockGroups)
    requires WellFormedClock(g)
    ensures MatchClockTime(ClockText(g)) == Some(g)
  {
    ClockTextHours(g);
    ClockSlices(g.hours, g.minutes, g.seconds, TailText(g.tail));
    MatchClockTailComplete(g.tail);
    MatchClockTimeAt(ClockText(g), |g.hours|, g.tail);
  }

  /** The digit run a clock text starts with is its hours. */
  lemma ClockTextHours(g: ClockGroups)
    requires WellFormedClock(g)
    ensures DigitPrefixLen(ClockText(g)) == |g.hours|
  {
    var rest := ":" + g.minutes + ":" + g.seconds + TailText(g.tail);
    assert ClockText(g) == g.hours + rest;
    DigitPrefixOfDigits(g.hours, rest);
    assert DigitPrefixLen(rest) == 0;
  }

  /** The pieces of a clock text, found again by slicing. */
  lemma ClockSlices(h: string, m: string, sec: string, tail: string)
    requires |m| == 2 && |sec| == 2
    ensures var s := h + ":" + m + ":" + sec + tail; var n := |h|;
      && |s| == n + 6 + |tail| && s[..n] == h && s[n] == ':' && s[n + 1..n + 3] == m && s[n + 3] == ':'
      && s[n + 4..n + 6] == sec && s[n + 6..] == tail
  {
  }

  /** CLOCK_TIME with the hours ending at `n` and the tail matched. */
  lemma MatchClockTimeAt(s: string, n: nat, t: ClockTail)
    requires DigitPrefixLen(s) == n && n >= 2 && n + 6 <= |s| && s[n] == ':' && s[n + 3] == ':'
    requires IsTwoDigits(s[n + 1..n + 3]) && IsTwoDigits(s[n + 4..n + 6]) && MatchClockTail(s[n + 6..]) == Some(t)
    ensures MatchClockTime(s) == Some(ClockGroups(s[..n], s[n + 1..n + 3], s[n + 4..n + 6], t))
  {
  }

  datatype OffsetUnit = Hours | Minutes | Seconds | Millis | Frames | Ticks

  function UnitText(u: OffsetUnit): string {
    match u
    case Hours => "h"
    case Minutes => "m"
    case Seconds => "s"
    case Millis => "ms"
    case Frames => "f"
    case Ticks => "t"
  }

  function ParseUnit(s: string): (u: Option<OffsetUnit>)
    ensures u.Some? ==> UnitText(u.value) == s
  {
    if s == "h" then Some(Hours)
    else if s == "m" then Some(Minutes)
    else if s == "s" then Some(Seconds)
    else if s == "ms" then Some(Millis)
    else if s == "f" then Some(Frames)
    else if s == "t" then Some(Ticks)
    else None
  }

  lemma ParseUnitText(u: OffsetUnit)
    ensures ParseUnit(UnitText(u)) == Some(u)
  {
  }

  /** Group 1 split at its dot, and group 2. */
  datatype OffsetGroups = OffsetGroups(whole: string, fraction: Option<string>, unit: OffsetUnit)

  predicate WellFormedOffset(g: OffsetGroups) {
    IsDigitRun(g.whole) && (g.fraction.Some? ==> IsDigitRun(g.fraction.value))
  }

  function OffsetText(g: OffsetGroups): string {
    g.whole + (if g.fraction.Some? then "." + g.fraction.value else "") + UnitText(g.unit)
  }

  /** OFFSET_TIME, as the groups of its unique match. */
  function MatchOffsetTime(s: string): Option<OffsetGroups> {
    var n := DigitPrefixLen(s);
    if n == 0 then None
    else if n < |s| && s[n] == '.' then
      var k := DigitPrefixLen(s[n + 1..]);
      if k == 0 then None
      else
        match ParseUnit(s[n + 1 + k..])
        case None => None
        case Some(u) => Some(OffsetGroups(s[..n], Some(s[n + 1..n + 1 + k]), u))
    else
      match ParseUnit(s[n..])
      case None => None
      case Some(u) => Some(OffsetGroups(s[..n], None, u))
  }

  /** Every string OFFSET_TIME accepts is the text of well-formed groups, and those are the groups reported. */
  lemma MatchOffsetTimeSound(s: string)
    requires MatchOffsetTime(s).Some?
    ensures WellFormedOffset(MatchOffsetTime(s).value) && OffsetText(MatchOffsetTime(s).value) == s
  {
    var n := DigitPrefixLen(s);
    if n < |s| && s[n] == '.' {
      var k := DigitPrefixLen(s[n + 1..]);
      assert s[n + 1..][..k] == s[n + 1..n + 1 + k];
      assert s[n + 1..][k..] == s[n + 1 + k..];
      assert s == s[..n] + "." + s[n + 1..n + 1 + k] + s[n + 1 + k..];
    } else {
      assert s == s[..n] + s[n..];
    }
  }

  lemma UnitTextNotDigitOrDot(u: OffsetUnit)
    ensures !IsDigit(UnitText(u)[0]) && UnitText(u)[0] != '.' && UnitText(u)[0] != ':'
  {
  }

  /** OFFSET_TIME accepts the text of every well-formed set of groups and reports exactly those groups. */
  lemma MatchOffsetTimeComplete(g: OffsetGroups)
    requires WellFormedOffset(g)
    ensures MatchOffsetTime(OffsetText(g)) == Some(g)
  {
    UnitTextNotDigitOrDot(g.unit);
    ParseUnitText(g.unit);
    if g.fraction.Some? {
      MatchOffsetWithFraction(g.whole, g.fraction.value, g.unit);
    } else {
      var s := OffsetText(g);
      var unit := UnitText(g.unit);
      var n := |g.whole|;
      assert s == g.whole + unit;
      DigitPrefixOfDigits(g.whole, unit);
      assert s[..n] == g.whole && s[n..] == unit;
    }
  }

  lemma MatchOffsetWithFraction(whole: string, f: string, u: OffsetUnit)
    requires IsDigitRun(whole) && IsDigitRun(f)
    ensures MatchOffsetTime(OffsetText(OffsetGroups(whole, Some(f), u))) == Some(OffsetGroups(whole, Some(f), u))
  {
    var unit := UnitText(u);
    UnitTextNotDigitOrDot(u);
    ParseUnitText(u);
    assert OffsetText(OffsetGroups(whole, Some(f), u)) == whole + "." + f + unit;
    OffsetFractionPositions(whole, f, unit);
  }

  lemma OffsetFractionPositions(whole: string, f: string, unit: string)
    requires IsDigitRun(whole) && IsDigitRun(f) && unit != [] && !IsDigit(unit[0])
    ensures var s, n := whole + "." + f + unit, |whole|;
      && DigitPrefixLen(s) == n && n < |s| && s[n] == '.' && s[..n] == whole
      && DigitPrefixLen(s[n + 1..]) == |f| && s[n + 1..n + 1 + |f|] == f && s[n + 1 + |f|..] == unit
  {
    var s, n := whole + "." + f + unit, |whole|;
    var rest := "." + f + unit;
    assert s == whole + rest;
    DigitPrefixOfDigits(whole, rest);
    assert s[..n] == whole && s[n] == '.';
    var t := s[n + 1..];
    assert t == f + unit;
    DigitPrefixOfDigits(f, unit);
    assert t[..|f|] == f && t[|f|..] == unit;
  }

  /** `Double.parseDouble` of `.digits`. */
  function FractionValue(f: string): real
    requires AllDigits(f)
  {
    DigitsValue(f) as real / Pow10(|f|) as real
  }

  /** `Double.parseDouble` of group 1 of OFFSET_TIME. */
  function DecimalValue(whole: string, fraction: Option<string>): real
    requires AllDigits(whole) && (fraction.Some? ==> AllDigits(fraction.value))
  {
    DigitsValue(whole) as real + (if fraction.Some? then FractionValue(fraction.value) else 0.0)
  }

  /**
   * The seconds of a clock time as the double accumulates them: `Long.parseLong(hours) * 3600`
   * wraps around as a long multiplication; an hours or sub-frames group too long for a
   * long is a NumberFormatException.
   */
  function ClockSeconds(g: ClockGroups, rate: FrameAndTickRate): Result<Double, Exception>
    requires WellFormedClock(g)
  {
    match ParseLong(g.hours)
    case None => Err(NumberFormatException)
    case Some(h) =>
      var whole := Finite((Wrap64(h * 3600) + DigitsValue(g.minutes) * 60 + DigitsValue(g.seconds)) as real);
      match g.tail
      case NoTail => Ok(whole)
      case FractionTail(f) => Ok(Add(whole, Finite(FractionValue(f))))
      case FramesTail(ff, sub) =>
        var withFrames := Add(whole, Div(Finite(DigitsValue(ff) as real), rate.effectiveFrameRate));
        if sub.None? then Ok(withFrames)
        else
          match ParseLong(sub.value)
          case None => Err(NumberFormatException)
          case Some(sf) =>
            Ok(Add(withFrames, Div(Div(Finite(sf as real), Finite(rate.subFrameRate as real)), rate.effectiveFrameRate)))
  }

  /** The seconds of an offset time: the decimal number scaled by its unit. */
  function OffsetSeconds(g: OffsetGroups, rate: FrameAndTickRate): Double
    requires WellFormedOffset(g)
  {
    var x := Finite(DecimalValue(g.whole, g.fraction));
    match g.unit
    case Hours => Mul(x, Finite(3600.0))
    case Minutes => Mul(x, Finite(60.0))
    case Seconds => x
    case Millis => Div(x, Finite(1000.0))
    case Frames => Div(x, rate.effectiveFrameRate)
    case Ticks => Div(x, Finite(rate.tickRate as real))
  }

  function ToMicros(seconds: Double): int {
    ToLong(Mul(seconds, Finite(MICROS_PER_SECOND as real)))
  }

  /** The value `parseTimeExpression` returns or the exception it throws. */
  function TimeExpression(time: string, rate: FrameAndTickRate): (r: Result<int, Exception>)
    ensures r.Ok? ==> LONG_MIN <= r.value <= LONG_MAX
    ensures r.Err? ==> r.error == NumberFormatException || r.error == SubtitleDecoderException
  {
    var clock := MatchClockTime(time);
    if clock.Some? then
      MatchClockTimeSound(time);
      var seconds :- ClockSeconds(clock.value, rate);
      Ok(ToMicros(seconds))
    else
      var offset := MatchOffsetTime(time);
      if offset.Some? then
        MatchOffsetTimeSound(time);
        Ok(ToMicros(OffsetSeconds(offset.value, rate)))
      else Err(SubtitleDecoderException)
  }

  /** The clock-time terms added to `durationSeconds` one by one, as the source does. */
  method AccumulateClockSeconds(g: ClockGroups, rate: FrameAndTickRate) returns (r: Result<Double, Exception>)
    requires WellFormedClock(g)
    ensures r == ClockSeconds(g, rate)
  {
    var hours := ParseLong(g.hours);
    if hours.None? {
      return Err(NumberFormatException);
    }
    var durationSeconds := Finite(Wrap64(hours.value * 3600) as real);
    durationSeconds := Add(durationSeconds, Finite((DigitsValue(g.minutes) * 60) as real));
    durationSeconds := Add(durationSeconds, Finite(DigitsValue(g.seconds) as real));
    if g.tail.FractionTail? {
      durationSeconds := Add(durationSeconds, Finite(FractionValue(g.tail.fraction)));
    }
    if g.tail.FramesTail? {
      durationSeconds := Add(durationSeconds, Div(Finite(DigitsValue(g.tail.frames) as real), rate.effectiveFrameRate));
      if g.tail.subframes.Some? {
        var subframes := ParseLong(g.tail.subframes.value);
        if subframes.None? {
          return Err(NumberFormatException);
        }
        var term := Div(Div(Finite(subframes.value as real), Finite(rate.subFrameRate as real)), rate.effectiveFrameRate);
        durationSeconds := Add(durationSeconds, term);
      }
    }
    return Ok(durationSeconds);
  }

  /** The offset scaled in place by the unit's switch, as the source does. */
  method ScaleOffsetSeconds(g: OffsetGroups, rate: FrameAndTickRate) returns (offsetSeconds: Double)
    requires WellFormedOffset(g)
    ensures offsetSeconds == OffsetSeconds(g, rate)
  {
    offsetSeconds := Finite(DecimalValue(g.whole, g.fraction));
    match g.unit {
      case Hours => offsetSeconds := Mul(offsetSeconds, Finite(3600.0));
      case Minutes => offsetSeconds := Mul(offsetSeconds, Finite(60.0));
      case Seconds =>
      case Millis => offsetSeconds := Div(offsetSeconds, Finite(1000.0));
      case Frames => offsetSeconds := Div(offsetSeconds, rate.effectiveFrameRate);
      case Ticks => offsetSeconds := Div(offsetSeconds, Finite(rate.tickRate as real));
    }
  }

  /** `parseTimeExpression`: clock time first, then offset time, else SubtitleDecoderException. */
  method ParseTimeExpression(time: string, rate: FrameAndTickRate) returns (r: Result<int, Exception>)
    ensures r == TimeExpression(time, rate)
  {
    var clock := MatchClockTime(time);
    if clock.Some? {
      MatchClockTimeSound(time);
      var durationSeconds := AccumulateClockSeconds(clock.value, rate);
      if durationSeconds.Err? {
        return Err(durationSeconds.error);
      }
      return Ok(ToMicros(durationSeconds.value));
    }
    var offset := MatchOffsetTime(time);
    if offset.Some? {
      MatchOffsetTimeSound(time);
      var offsetSeconds := ScaleOffsetSeconds(offset.value, rate);
      return Ok(ToMicros(offsetSeconds));
    }
    return Err(SubtitleDecoderException);
  }

  /** Positive rates: a finite, positive effective frame rate and positive sub-frame and tick rates. */
  predicate PositiveRates(rate: FrameAndTickRate) {
    rate.effectiveFrameRate.Finite? && rate.effectiveFrameRate.v > 0.0 && rate.subFrameRate > 0 && rate.tickRate > 0
  }

  /**
   * The clock-time formula in exact arithmetic: H·3600 + M·60 + S + fraction + frames/fps
   * + subframes/subFrameRate/fps seconds.
   */
  function ClockSecondsExact(g: ClockGroups, rate: FrameAndTickRate): real
    requires WellFormedClock(g) && PositiveRates(rate)
  {
    var whole := (DigitsValue(g.hours) * 3600 + DigitsValue(g.minutes) * 60 + DigitsValue(g.seconds)) as real;
    var fps := rate.effectiveFrameRate.v;
    match g.tail
    case NoTail => whole
    case FractionTail(f) => whole + FractionValue(f)
    case FramesTail(ff, sub) =>
      whole + DigitsValue(ff) as real / fps
      + (if sub.Some? then DigitsValue(sub.value) as real / rate.subFrameRate as real / fps else 0.0)
  }

  /** The offset-time formula in exact arithmetic: the number times 3600, 60 or 1, or over 1000, fps or the tick rate. */
  function OffsetSecondsExact(g: OffsetGroups, rate: FrameAndTickRate): real
    requires WellFormedOffset(g) && PositiveRates(rate)
  {
    var x := DecimalValue(g.whole, g.fraction);
    match g.unit
    case Hours => x * 3600.0
    case Minutes => x * 60.0
    case Seconds => x
    case Millis => x / 1000.0
    case Frames => x / rate.effectiveFrameRate.v
    case Ticks => x / rate.tickRate as real
  }

  lemma ParseLongDigits(s: string)
    requires IsDigitRun(s) && DigitsValue(s) <= LONG_MAX
    ensures ParseLong(s) == Some(DigitsValue(s))
  {
    assert IsDigit(s[0]);
  }

  /**
   * A well-formed clock time whose hours do not overflow a long, under positive rates, is
   * the clock-time formula times 10^6, cast to long.
   */
  lemma {:induction false} ClockTimeFormula(g: ClockGroups, rate: FrameAndTickRate)
    requires WellFormedClock(g) && PositiveRates(rate)
    requires DigitsValue(g.hours) * 3600 <= LONG_MAX
    requires g.tail.FramesTail? && g.tail.subframes.Some? ==> DigitsValue(g.tail.subframes.value) <= LONG_MAX
    ensures TimeExpression(ClockText(g), rate)
         == Ok(ToLong(Finite(ClockSecondsExact(g, rate) * MICROS_PER_SECOND as real)))
  {
    MatchClockTimeComplete(g);
    ClockSecondsExactly(g, rate);
    ClockTimeMicros(ClockText(g), g, rate);
  }

  /** Without overflow and under positive rates the double accumulation is exact. */
  lemma ClockSecondsExactly(g: ClockGroups, rate: FrameAndTickRate)
    requires WellFormedClock(g) && PositiveRates(rate)
    requires DigitsValue(g.hours) * 3600 <= LONG_MAX
    requires g.tail.FramesTail? && g.tail.subframes.Some? ==> DigitsValue(g.tail.subframes.value) <= LONG_MAX
    ensures ClockSeconds(g, rate) == Ok(Finite(ClockSecondsExact(g, rate)))
  {
    ParseLongDigits(g.hours);
    var h := DigitsValue(g.hours);
    assert Wrap64(h * 3600) == h * 3600;
    if g.tail.FramesTail? && g.tail.subframes.Some? {
      ParseLongDigits(g.tail.subframes.value);
    }
  }

  /** A clock time is its accumulated seconds in microseconds. */
  lemma ClockTimeMicros(s: string, g: ClockGroups, rate: FrameAndTickRate)
    requires MatchClockTime(s) == Some(g) && WellFormedClock(g) && ClockSeconds(g, rate).Ok?
    ensures TimeExpression(s, rate) == Ok(ToMicros(ClockSeconds(g, rate).value))
  {
  }

  /** A well-formed offset time under positive rates is the offset-time formula times 10^6, cast to long. */
  lemma {:induction false} OffsetTimeFormula(g: OffsetGroups, rate: FrameAndTickRate)
    requires WellFormedOffset(g) && PositiveRates(rate)
    ensures TimeExpression(OffsetText(g), rate)
         == Ok(ToLong(Finite(OffsetSecondsExact(g, rate) * MICROS_PER_SECOND as real)))
  {
    MatchOffsetTimeComplete(g);
    NoClockInOffset(g);
    assert OffsetSeconds(g, rate) == Finite(OffsetSecondsExact(g, rate));
  }

  /** An offset time has no ':' and so is never a clock time. */
  lemma NoClockInOffset(g: OffsetGroups)
    requires WellFormedOffset(g)
    ensures MatchClockTime(OffsetText(g)).None?
  {
    var rest := (if g.fraction.Some? then "." + g.fraction.value else "") + UnitText(g.unit);
    var s := OffsetText(g);
    assert s == g.whole + rest;
    UnitTextNotDigitOrDot(g.unit);
    assert rest[0] != ':' && !IsDigit(rest[0]);
    DigitPrefixOfDigits(g.whole, rest);
    assert DigitPrefixLen(rest) == 0;
    assert s[|g.whole|] == rest[0];
    NoColonNoClock(s);
  }

  /** A text whose digit prefix is not followed by ':' is no clock time. */
  lemma NoColonNoClock(s: string)
    requires DigitPrefixLen(s) < |s| && s[DigitPrefixLen(s)] != ':'
    ensures MatchClockTime(s).None?
  {
  }

  lemma TruncInt(k: int)
    ensures Trunc(k as real) == k
  {
  }

  /** Two decimal digits for a value below 100. */
  function TwoDigits(n: nat): (s: string)
    requires n < 100
    ensures IsTwoDigits(s) && DigitsValue(s) == n
  {
    var s := [Digit(n / 10), Digit(n % 10)];
    assert s[..1] == [Digit(n / 10)] && [Digit(n / 10)][..0] == [];
    assert DigitValue(Digit(n / 10)) == n / 10 && DigitValue(Digit(n % 10)) == n % 10;
    assert DigitsValue(s[..1]) == n / 10;
    assert DigitsValue(s) == DigitsValue(s[..1]) * 10 + DigitValue(s[1]);
    s
  }

  /** Hours written with at least two digits. */
  function HoursText(h: nat): (s: string)
    ensures |s| >= 2 && AllDigits(s) && DigitsValue(s) == h
  {
    if h < 100 then TwoDigits(h)
    else
      NatToStringValue(h);
      NatToStringLength(h);
      NatToString(h)
  }

  lemma {:induction false} NatToStringLength(n: nat)
    requires n >= 10
    ensures |NatToString(n)| >= 2
  {
    assert NatToString(n) == NatToString(n / 10) + [Digit(n % 10)];
  }

  /** `HH:MM:SS` is (H·3600 + M·60 + S)·10^6 microseconds, whatever the rates. */
  lemma {:induction false} ClockTimeWhole(h: nat, m: nat, sec: nat, rate: FrameAndTickRate)
    requires m < 100 && sec < 100
    requires (h * 3600 + m * 60 + sec) * MICROS_PER_SECOND <= LONG_MAX
    ensures TimeExpression(HoursText(h) + ":" + TwoDigits(m) + ":" + TwoDigits(sec), rate)
         == Ok((h * 3600 + m * 60 + sec) * MICROS_PER_SECOND)
  {
    var g := ClockGroups(HoursText(h), TwoDigits(m), TwoDigits(sec), NoTail);
    assert ClockText(g) == HoursText(h) + ":" + TwoDigits(m) + ":" + TwoDigits(sec);
    MatchClockTimeComplete(g);
    ParseLongDigits(g.hours);
    var total := h * 3600 + m * 60 + sec;
    assert ClockSeconds(g, rate) == Ok(Finite(total as real));
    assert total as real * MICROS_PER_SECOND as real == (total * MICROS_PER_SECOND) as real;
    TruncInt(total * MICROS_PER_SECOND);
  }

  /** A literal that does not start with a digit, such as a negative time, is malformed. */
  lemma TimeNeedsLeadingDigit(s: string, rate: FrameAndTickRate)
    requires s == [] || !IsDigit(s[0])
    ensures TimeExpression(s, rate) == Err(SubtitleDecoderException)
  {
  }

  lemma ToLongNonNegative(x: real)
    requires x >= 0.0
    ensures ToLong(Finite(x)) >= 0
  {
  }

  /** `00:00:01.500` is 1 500 000 microseconds. */
  lemma ClockFractionExample()
    ensures TimeExpression("00:00:01.500", DEFAULT_FRAME_AND_TICK_RATE) == Ok(1500000)
  {
    var g := ClockGroups("00", "00", "01", FractionTail("500"));
    ClockFractionGroups();
    ClockTimeFormula(g, DEFAULT_FRAME_AND_TICK_RATE);
    assert 1.5 * MICROS_PER_SECOND as real == 1500000 as real;
    TruncInt(1500000);
  }

  lemma ClockFractionGroups()
    ensures var g := ClockGroups("00", "00", "01", FractionTail("500"));
      && WellFormedClock(g) && ClockText(g) == "00:00:01.500" && DigitsValue(g.hours) == 0
      && ClockSecondsExact(g, DEFAULT_FRAME_AND_TICK_RATE) == 1.5
  {
    var g := ClockGroups("00", "00", "01", FractionTail("500"));
    assert ClockText(g) == "00:00:01.500";
    assert "00"[..1] == "0" && "01"[..1] == "0" && "500"[..2] == "50" && "50"[..1] == "5";
    assert DigitsValue("0") == 0 && DigitsValue("5") == 5 && DigitsValue("50") == 50;
    assert DigitsValue("00") == 0 && DigitsValue("01") == 1;
    assert Pow10(1) == 10 && Pow10(2) == 100;
    assert DigitsValue("500") == 500 && Pow10(3) == 1000;
  }

  /** `2.5s` is 2 500 000 microseconds. */
  lemma OffsetSecondsExample()
    ensures TimeExpression("2.5s", DEFAULT_FRAME_AND_TICK_RATE) == Ok(2500000)
  {
    var g := OffsetGroups("2", Some("5"), Seconds);
    assert OffsetText(g) == "2.5s";
    assert DigitsValue("5") == 5 && DigitsValue("2") == 2 && Pow10(1) == 10;
    OffsetTimeFormula(g, DEFAULT_FRAME_AND_TICK_RATE);
    assert OffsetSecondsExact(g, DEFAULT_FRAME_AND_TICK_RATE) == 2.5;
    TruncInt(2500000);
  }

  /** `1f` at 25 frames per second is 40 000 microseconds. */
  lemma OffsetFrameExample()
    ensures TimeExpression("1f", FrameAndTickRate(Finite(25.0), 1, 1)) == Ok(40000)
  {
    var g := OffsetGroups("1", None, Frames);
    var rate := FrameAndTickRate(Finite(25.0), 1, 1);
    assert OffsetText(g) == "1f";
    assert DigitsValue("1") == 1;
    OffsetTimeFormula(g, rate);
    assert OffsetSecondsExact(g, rate) == 0.04;
    TruncInt(40000);
  }

  /** The hours of a clock time, when they fit a long, do not overflow once multiplied by 3600. */
  predicate HoursFit(s: string) {
    var clock := MatchClockTime(s);
    clock.Some? ==>
      var h := ParseLong(clock.value.hours);
      h.Some? ==> h.value * 3600 <= LONG_MAX
  }

  /** Under positive rates, and unless the hours overflow, every time expression is non-negative. */
  lemma TimeNonNegative(s: string, rate: FrameAndTickRate)
    requires PositiveRates(rate) && HoursFit(s) && TimeExpression(s, rate).Ok?
    ensures TimeExpression(s, rate).value >= 0
  {
    var clock := MatchClockTime(s);
    if clock.Some? {
      MatchClockTimeSound(s);
      var g := clock.value;
      if g.tail.FramesTail? && g.tail.subframes.Some? {
        assert ParseLong(g.tail.subframes.value).Some?;
      }
      ClockNonNegative(g, rate);
    } else {
      var g := MatchOffsetTime(s).value;
      MatchOffsetTimeSound(s);
      OffsetNonNegative(g, rate);
    }
  }

  lemma ClockNonNegative(g: ClockGroups, rate: FrameAndTickRate)
    requires WellFormedClock(g) && PositiveRates(rate)
    requires DigitsValue(g.hours) * 3600 <= LONG_MAX
    requires g.tail.FramesTail? && g.tail.subframes.Some? ==> DigitsValue(g.tail.subframes.value) <= LONG_MAX
    ensures TimeExpression(ClockText(g), rate).Ok? && TimeExpression(ClockText(g), rate).value >= 0
  {
    ClockTimeFormula(g, rate);
    var x := ClockSecondsExact(g, rate);
    ClockSecondsExactNonNegative(g, rate);
    ScaledNonNegative(x);
  }

  lemma ClockSecondsExactNonNegative(g: ClockGroups, rate: FrameAndTickRate)
    requires WellFormedClock(g) && PositiveRates(rate)
    ensures ClockSecondsExact(g, rate) >= 0.0
  {
    var fps := rate.effectiveFrameRate.v;
    if g.tail.FramesTail? {
      DivNonNegative(DigitsValue(g.tail.frames) as real, fps);
      if g.tail.subframes.Some? {
        var a := DigitsValue(g.tail.subframes.value) as real;
        DivNonNegative(a, rate.subFrameRate as real);
        DivNonNegative(a / rate.subFrameRate as real, fps);
      }
    }
  }

  lemma DivNonNegative(a: real, b: real)
    requires a >= 0.0 && b > 0.0
    ensures a / b >= 0.0
  {
  }

  lemma ScaledNonNegative(x: real)
    requires x >= 0.0
    ensures ToLong(Finite(x * MICROS_PER_SECOND as real)) >= 0
  {
    assert x * MICROS_PER_SECOND as real >= 0.0;
    ToLongNonNegative(x * MICROS_PER_SECOND as real);
  }

  lemma OffsetNonNegative(g: OffsetGroups, rate: FrameAndTickRate)
    requires WellFormedOffset(g) && PositiveRates(rate)
    ensures TimeExpression(OffsetText(g), rate).Ok? && TimeExpression(OffsetText(g), rate).value >= 0
  {
    OffsetTimeFormula(g, rate);
    OffsetSecondsExactNonNegative(g, rate);
    ScaledNonNegative(OffsetSecondsExact(g, rate));
  }

  lemma OffsetSecondsExactNonNegative(g: OffsetGroups, rate: FrameAndTickRate)
    requires WellFormedOffset(g) && PositiveRates(rate)
    ensures OffsetSecondsExact(g, rate) >= 0.0
  {
    var x := DecimalValue(g.whole, g.fraction);
    DivNonNegative(x, rate.effectiveFrameRate.v);
    DivNonNegative(x, rate.tickRate as real);
  }

  /**
   * Hours whose product with 3600 exceeds a long wrap around: a clock time with such hours
   * (below 2^64 / 3600) is a negative number of microseconds.
   */
  lemma HoursWrapAround(h: nat, rate: FrameAndTickRate)
    requires LONG_MAX < h * 3600 < 0x1_0000_0000_0000_0000
    ensures TimeExpression(HoursText(h) + ":00:00", rate).Ok?
    ensures TimeExpression(HoursText(h) + ":00:00", rate).value < 0
  {
    var g := ClockGroups(HoursText(h), "00", "00", NoTail);
    assert ClockText(g) == HoursText(h) + ":00:00";
    MatchClockTimeComplete(g);
    ParseLongDigits(g.hours);
    Wrap64Above(h * 3600);
    assert DigitsValue("00") == 0;
    var w := Wrap64(h * 3600);
    assert ClockSeconds(g, rate) == Ok(Finite(w as real));
    assert w < 0;
    assert w as real * MICROS_PER_SECOND as real <= -1.0;
  }
}
