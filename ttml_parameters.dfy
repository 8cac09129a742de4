/**
 * The document parameters read from the `tt` element in the TTML parameter namespace:
 * frame, sub-frame and tick rates (which scale time expressions) and the cell resolution
 * (whose row count sets the text size of every region).
 */
module TtmlParameters {
  import opened Wrappers
  import opened JavaText
  import opened JavaNumbers
  import opened XmlEvents

  const TTP: string := "http://www.w3.org/ns/ttml#parameter"

  const DEFAULT_FRAME_RATE: int := 30

  /** The effective frame rate is a float in the source; the other two rates are ints. */
  datatype FrameAndTickRate = FrameAndTickRate(effectiveFrameRate: Double, subFrameRate: int, tickRate: int)

  const DEFAULT_FRAME_AND_TICK_RATE: FrameAndTickRate := FrameAndTickRate(Finite(30.0), 1, 1)

  datatype CellResolution = CellResolution(columns: int, rows: int)

  const DEFAULT_CELL_RESOLUTION: CellResolution := CellResolution(32, 15)

  /** An optional int attribute: its default when absent, `Integer.parseInt` of its value otherwise. */
  function IntParameter(value: Option<string>, default: int): (r: Result<int, Exception>)
    ensures value.None? ==> r == Ok(default)
    ensures r.Err? ==> r.error == NumberFormatException
  {
    match value
    case None => Ok(default)
    case Some(v) =>
      match ParseInt(v)
      case None => Err(NumberFormatException)
      case Some(n) => Ok(n)
  }

  /** `frameRateMultiplier`: exactly two parts separated by one space, numerator over denominator. */
  function FrameRateMultiplier(value: Option<string>): (r: Result<Double, Exception>)
    ensures value.None? ==> r == Ok(Finite(1.0))
    ensures value.Some? && CountIn(value.value, {' '}) != 1 ==> r == Err(SubtitleDecoderException)
  {
    match value
    case None => Ok(Finite(1.0))
    case Some(v) =>
      var parts := SplitEach(v, {' '});
      SplitEachJoin(v, ' ');
      if |parts| != 2 then Err(SubtitleDecoderException)
      else
        match (ParseInt(parts[0]), ParseInt(parts[1]))
        case (Some(numerator), Some(denominator)) =>
          Ok(Div(Finite(numerator as real), Finite(denominator as real)))
        case _ => Err(NumberFormatException)
  }

  /**
   * `parseFrameAndTickRates`: frameRate (default 30), frameRateMultiplier (default 1),
   * subFrameRate and tickRate (default 1); a malformed value escapes as an exception.
   */
  function ParseFrameAndTickRates(attrs: seq<Attr>): (r: Result<FrameAndTickRate, Exception>)
    ensures r.Err? ==> r.error == NumberFormatException || r.error == SubtitleDecoderException
    ensures r.Ok? ==>
      var frameRate := IntParameter(NamespacedValue(attrs, TTP, "frameRate"), DEFAULT_FRAME_RATE);
      var multiplier := FrameRateMultiplier(NamespacedValue(attrs, TTP, "frameRateMultiplier"));
      frameRate.Ok? && multiplier.Ok? && r.value.effectiveFrameRate == Mul(Finite(frameRate.value as real), multiplier.value)
    ensures NamespacedValue(attrs, TTP, "subFrameRate").None? && r.Ok? ==> r.value.subFrameRate == 1
    ensures NamespacedValue(attrs, TTP, "tickRate").None? && r.Ok? ==> r.value.tickRate == 1
  {
    var frameRate :- IntParameter(NamespacedValue(attrs, TTP, "frameRate"), DEFAULT_FRAME_RATE);
    var multiplier :- FrameRateMultiplier(NamespacedValue(attrs, TTP, "frameRateMultiplier"));
    var subFrameRate :- IntParameter(NamespacedValue(attrs, TTP, "subFrameRate"), DEFAULT_FRAME_AND_TICK_RATE.subFrameRate);
    var tickRate :- IntParameter(NamespacedValue(attrs, TTP, "tickRate"), DEFAULT_FRAME_AND_TICK_RATE.tickRate);
    Ok(FrameAndTickRate(Mul(Finite(frameRate as real), multiplier), subFrameRate, tickRate))
  }

  /** With none of the four attributes the rates are 30 frames, 1 sub-frame and 1 tick per second. */
  lemma DefaultRates(attrs: seq<Attr>)
    requires NamespacedValue(attrs, TTP, "frameRate").None?
    requires NamespacedValue(attrs, TTP, "frameRateMultiplier").None?
    requires NamespacedValue(attrs, TTP, "subFrameRate").None?
    requires NamespacedValue(attrs, TTP, "tickRate").None?
    ensures ParseFrameAndTickRates(attrs) == Ok(DEFAULT_FRAME_AND_TICK_RATE)
  {
    assert Mul(Finite(30.0), Finite(1.0)) == Finite(30.0);
  }

  /** Without a frameRate the effective rate is the default 30 scaled by the multiplier. */
  lemma RateWithoutFrameRate(attrs: seq<Attr>)
    requires NamespacedValue(attrs, TTP, "frameRate").None?
    ensures var r := ParseFrameAndTickRates(attrs);
            var multiplier := FrameRateMultiplier(NamespacedValue(attrs, TTP, "frameRateMultiplier"));
            r.Ok? ==> multiplier.Ok? && r.value.effectiveFrameRate == Mul(Finite(30.0), multiplier.value)
  {
    assert IntParameter(NamespacedValue(attrs, TTP, "frameRate"), DEFAULT_FRAME_RATE) == Ok(30);
  }

  /** Without a multiplier the effective rate is the frameRate itself. */
  lemma RateWithoutMultiplier(attrs: seq<Attr>)
    requires NamespacedValue(attrs, TTP, "frameRateMultiplier").None?
    ensures var r := ParseFrameAndTickRates(attrs);
            var frameRate := IntParameter(NamespacedValue(attrs, TTP, "frameRate"), DEFAULT_FRAME_RATE);
            r.Ok? ==> frameRate.Ok? && r.value.effectiveFrameRate == Finite(frameRate.value as real)
  {
    assert FrameRateMultiplier(NamespacedValue(attrs, TTP, "frameRateMultiplier")) == Ok(Finite(1.0));
    var frameRate := IntParameter(NamespacedValue(attrs, TTP, "frameRate"), DEFAULT_FRAME_RATE);
    if frameRate.Ok? {
      assert Mul(Finite(frameRate.value as real), Finite(1.0)) == Finite(frameRate.value as real);
    }
  }

  /** CELL_RESOLUTION `^(\d+) (\d+)$`: two digit runs separated by exactly one space. */
  function MatchCellResolution(v: string): (r: Option<(string, string)>)
    ensures r.Some? ==> v == r.value.0 + " " + r.value.1
    ensures r.Some? ==> r.value.0 != [] && AllDigits(r.value.0) && r.value.1 != [] && AllDigits(r.value.1)
  {
    var parts := SplitEach(v, {' '});
    if |parts| == 2 && parts[0] != [] && AllDigits(parts[0]) && parts[1] != [] && AllDigits(parts[1]) then
      SplitEachJoin(v, ' ');
      Some((parts[0], parts[1]))
    else None
  }

  /**
   * `parseCellResolution`: the default when the attribute is absent, does not match or does
   * not fit an int; a zero column or row count throws.
   */
  function ParseCellResolution(attrs: seq<Attr>, default: CellResolution): (r: Result<CellResolution, Exception>)
    ensures r.Ok? ==> r.value == default || (r.value.columns > 0 && r.value.rows > 0)
    ensures r.Err? ==> r.error == SubtitleDecoderException
    ensures NamespacedValue(attrs, TTP, "cellResolution").None? ==> r == Ok(default)
    ensures var v := NamespacedValue(attrs, TTP, "cellResolution");
            v.Some? && MatchCellResolution(v.value).None? ==> r == Ok(default)
    ensures var v := NamespacedValue(attrs, TTP, "cellResolution");
            v.Some? && MatchCellResolution(v.value).Some?
            && (ParseInt(MatchCellResolution(v.value).value.0).None? || ParseInt(MatchCellResolution(v.value).value.1).None?)
            ==> r == Ok(default)
  {
    match NamespacedValue(attrs, TTP, "cellResolution")
    case None => Ok(default)
    case Some(v) =>
      match MatchCellResolution(v)
      case None => Ok(default)
      case Some((c, w)) =>
        match (ParseInt(c), ParseInt(w))
        case (Some(columns), Some(rows)) =>
          if columns == 0 || rows == 0 then Err(SubtitleDecoderException)
          else Ok(CellResolution(columns, rows))
        case _ => Ok(default)
  }

  /** Digits never contain a space. */
  lemma DigitsNoSpace(s: string)
    requires AllDigits(s)
    ensures NoneIn(s, {' '})
  {
  }

  /** `cellResolution="C R"` with positive C and R in range of int gives exactly C columns and R rows. */
  lemma CellResolutionRoundTrip(attrs: seq<Attr>, columns: int, rows: int, default: CellResolution)
    requires 0 < columns <= INT_MAX && 0 < rows <= INT_MAX
    requires NamespacedValue(attrs, TTP, "cellResolution") == Some(IntToString(columns) + " " + IntToString(rows))
    ensures ParseCellResolution(attrs, default) == Ok(CellResolution(columns, rows))
  {
    var c, w := IntToString(columns), IntToString(rows);
    DigitsNoSpace(c);
    DigitsNoSpace(w);
    SplitEachPair(c, ' ', w, {' '});
    assert c + " " + w == c + [' '] + w;
    ParseIntegerRoundTrip(columns, INT_MIN, INT_MAX);
    ParseIntegerRoundTrip(rows, INT_MIN, INT_MAX);
  }

  /** A zero count in a well-formed `cellResolution` is an error that ends decoding, not a fallback to the default. */
  lemma CellResolutionZeroThrows(attrs: seq<Attr>, columns: int, rows: int, default: CellResolution)
    requires 0 <= columns <= INT_MAX && 0 <= rows <= INT_MAX && (columns == 0 || rows == 0)
    requires NamespacedValue(attrs, TTP, "cellResolution") == Some(IntToString(columns) + " " + IntToString(rows))
    ensures ParseCellResolution(attrs, default) == Err(SubtitleDecoderException)
  {
    var c, w := IntToString(columns), IntToString(rows);
    DigitsNoSpace(c);
    DigitsNoSpace(w);
    SplitEachPair(c, ' ', w, {' '});
    assert c + " " + w == c + [' '] + w;
    ParseIntegerRoundTrip(columns, INT_MIN, INT_MAX);
    ParseIntegerRoundTrip(rows, INT_MIN, INT_MAX);
  }

  /** `ttp:cellResolution="0 15"` alone: the rates parse and the cell resolution throws. */
  lemma ZeroCellResolutionExample(attrs: seq<Attr>)
    requires attrs == [Attr(TTP, "cellResolution", "0 15")]
    ensures ParseFrameAndTickRates(attrs).Ok?
    ensures ParseCellResolution(attrs, DEFAULT_CELL_RESOLUTION) == Err(SubtitleDecoderException)
  {
    assert NamespacedValue(attrs, TTP, "cellResolution") == Some("0 15");
    ZeroFifteenText();
    CellResolutionZeroThrows(attrs, 0, 15, DEFAULT_CELL_RESOLUTION);
  }

  lemma ZeroFifteenText()
    ensures IntToString(0) + " " + IntToString(15) == "0 15"
  {
    assert NatToString(15) == NatToString(1) + [Digit(5)];
  }

  /**
   * With `frameRate="F"` and `frameRateMultiplier="N D"` (D non-zero), and no sub-frame or
   * tick rate, the effective frame rate is the float product F·(N/D) and the other rates keep their defaults.
   */
  lemma EffectiveFrameRate(attrs: seq<Attr>, frameRate: int, numerator: int, denominator: int)
    requires INT_MIN <= frameRate <= INT_MAX && INT_MIN <= numerator <= INT_MAX && INT_MIN <= denominator <= INT_MAX
    requires denominator != 0
    requires NamespacedValue(attrs, TTP, "frameRate") == Some(IntToString(frameRate))
    requires NamespacedValue(attrs, TTP, "frameRateMultiplier") == Some(IntToString(numerator) + " " + IntToString(denominator))
    requires NamespacedValue(attrs, TTP, "subFrameRate").None? && NamespacedValue(attrs, TTP, "tickRate").None?
    ensures ParseFrameAndTickRates(attrs)
         == Ok(FrameAndTickRate(Mul(Finite(frameRate as real), Finite(Ratio(numerator, denominator))), 1, 1))
  {
    ParseIntegerRoundTrip(frameRate, INT_MIN, INT_MAX);
    assert IntParameter(NamespacedValue(attrs, TTP, "frameRate"), DEFAULT_FRAME_RATE) == Ok(frameRate);
    MultiplierRoundTrip(numerator, denominator);
    var q := Ratio(numerator, denominator);
    assert FrameRateMultiplier(NamespacedValue(attrs, TTP, "frameRateMultiplier")) == Ok(Finite(q));
    assert IntParameter(NamespacedValue(attrs, TTP, "subFrameRate"), 1) == Ok(1);
    assert IntParameter(NamespacedValue(attrs, TTP, "tickRate"), 1) == Ok(1);
  }

  function Ratio(numerator: int, denominator: int): real
    requires denominator != 0
  {
    numerator as real / denominator as real
  }

  lemma MultiplierRoundTrip(numerator: int, denominator: int)
    requires INT_MIN <= numerator <= INT_MAX && INT_MIN <= denominator <= INT_MAX && denominator != 0
    ensures FrameRateMultiplier(Some(IntToString(numerator) + " " + IntToString(denominator)))
         == Ok(Finite(Ratio(numerator, denominator)))
  {
    var n, d := IntToString(numerator), IntToString(denominator);
    ParseIntegerRoundTrip(numerator, INT_MIN, INT_MAX);
    ParseIntegerRoundTrip(denominator, INT_MIN, INT_MAX);
    IntToStringNoSpace(numerator);
    IntToStringNoSpace(denominator);
    SplitEachPair(n, ' ', d, {' '});
    assert n + " " + d == n + [' '] + d;
  }

  lemma IntToStringNoSpace(v: int)
    ensures NoneIn(IntToString(v), {' '})
  {
    var s := IntToString(v);
    if v < 0 {
      var digits := NatToString(-v);
      assert s == "-" + digits;
      forall i | 0 <= i < |s| ensures s[i] != ' ' {
        if i > 0 { assert s[i] == digits[i - 1]; }
      }
    }
  }
}
