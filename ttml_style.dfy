/**
 * Styling attributes as the decoder reads them from `style` elements and from content
 * elements: the attribute loop of `parseStyleAttributes`, the `fontSize` grammar of
 * `parseFontSize` and the whitespace-separated style references of `parseStyleIds`.
 */
module TtmlStyle {
  import opened Wrappers
  import opened JavaText
  import opened XmlEvents
  import opened TtmlTime

  datatype FontSizeUnit = Pixel | Em | Percent

  datatype Alignment = AlignNormal | AlignOpposite | AlignCenter

  /**
   * The properties the decoder sets on a style; None is a property left unset. `chained`
   * lists, in order, the styles passed to `chain`: the referenced global style, or None
   * when the reference names no declared style.
   */
  datatype Style = Style(
    id: Option<string>,
    backgroundColor: Option<int>,
    fontColor: Option<int>,
    fontFamily: Option<string>,
    fontSizeUnit: Option<FontSizeUnit>,
    fontSize: Option<real>,
    bold: Option<bool>,
    italic: Option<bool>,
    textAlign: Option<Alignment>,
    linethrough: Option<bool>,
    underline: Option<bool>,
    chained: seq<Option<Style>>)

  /** `new TtmlStyle()`. */
  const EMPTY_STYLE: Style := Style(None, None, None, None, None, None, None, None, None, None, None, [])

  /** `createIfNull`. */
  function CreateIfNull(style: Option<Style>): (r: Style)
    ensures style.Some? ==> r == style.value
    ensures style.None? ==> r == EMPTY_STYLE
  {
    style.GetOr(EMPTY_STYLE)
  }

  // ---------------------------------------------------------------------------------------
  // fontSize

  datatype FontSize = FontSize(unit: FontSizeUnit, size: real)

  function UnitSuffix(u: FontSizeUnit): string {
    match u
    case Pixel => "px"
    case Em => "em"
    case Percent => "%"
  }

  /** Group 3 of FONT_SIZE and the text before it; the three suffixes end in different characters. */
  function SplitUnit(s: string): (r: Option<(string, FontSizeUnit)>)
    ensures r.Some? ==> s == r.value.0 + UnitSuffix(r.value.1)
  {
    if |s| >= 2 && s[|s| - 2..] == "px" then Some((s[..|s| - 2], Pixel))
    else if |s| >= 2 && s[|s| - 2..] == "em" then Some((s[..|s| - 2], Em))
    else if |s| >= 1 && s[|s| - 1] == '%' then Some((s[..|s| - 1], Percent))
    else None
  }

  /** The characters the regular-expression `.` does not match. */
  predicate LineTerminator(c: char) {
    c == '\n' || c == '\r' || c == 0x85 as char || c == 0x2028 as char || c == 0x2029 as char
  }

  /** `([0-9]*\.)?[0-9]+`: digits, or optional digits, a decimal point and digits. */
  predicate DecimalNumber(n: string) {
    var p := DigitPrefixLen(n);
    n != [] && (p == |n| || (p + 1 < |n| && n[p] == '.' && AllDigits(n[p + 1..])))
  }

  /** `([0-9]*.)?[0-9]+` as FONT_SIZE writes it: the separator is any character but a line terminator. */
  predicate LooseNumber(n: string) {
    var p := DigitPrefixLen(n);
    n != [] && (p == |n| || (p + 1 < |n| && !LineTerminator(n[p]) && AllDigits(n[p + 1..])))
  }

  lemma DigitPrefixAll(n: string)
    requires DigitPrefixLen(n) == |n|
    ensures AllDigits(n)
  {
    assert n[..|n|] == n;
  }

  /** `Float.valueOf` of a decimal number (float rounding is not modelled). */
  function DecimalNumberValue(n: string): real
    requires DecimalNumber(n)
  {
    var p := DigitPrefixLen(n);
    if p == |n| then
      DigitPrefixAll(n);
      DecimalValue(n, None)
    else DecimalValue(n[..p], Some(n[p + 1..]))
  }

  /**
   * `Float.valueOf` of digits `a`, one character `c` and digits `b`: a decimal point; an
   * exponent after a non-empty mantissa; a sign, or a control character that `trim`
   * removes, before `b` alone. Any other separator is a NumberFormatException.
   */
  function LooseNumberValue(n: string): (r: Result<real, Exception>)
    requires LooseNumber(n)
    ensures r.Err? ==> r.error == NumberFormatException
  {
    var p := DigitPrefixLen(n);
    if p == |n| then
      DigitPrefixAll(n);
      Ok(DecimalValue(n, None))
    else
      var a, c, b := n[..p], n[p], n[p + 1..];
      if c == '.' then Ok(DecimalValue(a, Some(b)))
      else if (c == 'e' || c == 'E') && a != [] then Ok(DigitsValue(a) as real * Pow10(DigitsValue(b)) as real)
      else if a == [] && c == '-' then Ok(0.0 - DigitsValue(b) as real)
      else if a == [] && (c == '+' || c <= ' ') then Ok(DigitsValue(b) as real)
      else Err(NumberFormatException)
  }

  /** The expression FONT_SIZE is matched against: the whole value, or the second of two values. */
  function FontSizeTarget(expression: string): (r: Result<string, Exception>)
    ensures r.Err? ==> r.error == SubtitleDecoderException
  {
    var expressions := SplitRuns(expression, RegexSpaces);
    if |expressions| == 1 then Ok(expression)
    else if |expressions| == 2 then Ok(expressions[1])
    else Err(SubtitleDecoderException)
  }

  /**
   * `parseFontSize` with the decimal point of FONT_SIZE escaped: every failure is a
   * SubtitleDecoderException, which `parseStyleAttributes` catches.
   */
  function ParseFontSize(expression: string): (r: Result<FontSize, Exception>)
    ensures r.Err? ==> r.error == SubtitleDecoderException
  {
    var target :- FontSizeTarget(expression);
    var m := SplitUnit(target);
    if m.Some? && DecimalNumber(m.value.0) then Ok(FontSize(m.value.1, DecimalNumberValue(m.value.0)))
    else Err(SubtitleDecoderException)
  }

  /**
   * `parseFontSize` as written: the unescaped `.` of FONT_SIZE admits any separator, and
   * `Float.valueOf` then throws a NumberFormatException that nothing catches.
   */
  function FontSizeAsWritten(expression: string): (r: Result<FontSize, Exception>)
    ensures r.Err? ==> r.error == SubtitleDecoderException || r.error == NumberFormatException
    ensures r.Ok? ==> FontSizeTarget(expression).Ok? && SplitUnit(FontSizeTarget(expression).value).Some?
                      && SplitUnit(FontSizeTarget(expression).value).value.1 == r.value.unit
  {
    var target :- FontSizeTarget(expression);
    var m := SplitUnit(target);
    if m.Some? && LooseNumber(m.value.0) then
      var size :- LooseNumberValue(m.value.0);
      Ok(FontSize(m.value.1, size))
    else Err(SubtitleDecoderException)
  }

  lemma SplitUnitOf(n: string, u: FontSizeUnit)
    requires n != [] && IsDigit(n[|n| - 1])
    ensures SplitUnit(n + UnitSuffix(u)) == Some((n, u))
  {
    var s := n + UnitSuffix(u);
    match u
    case Pixel => assert s[|s| - 2..] == "px" && s[..|s| - 2] == n;
    case Em =>
      assert s[|s| - 2..] == "em" && s[..|s| - 2] == n;
      assert s[|s| - 2..] != "px" by { assert s[|s| - 1] == 'm'; }
    case Percent =>
      assert s[|s| - 1] == '%' && s[..|s| - 1] == n;
      assert s[|s| - 2..] != "px" && s[|s| - 2..] != "em" by { assert s[|s| - 2..][1] == '%'; }
  }

  lemma NoSpacesInNumber(n: string, u: FontSizeUnit)
    requires forall i :: 0 <= i < |n| ==> IsDigit(n[i]) || n[i] == '.'
    ensures NoneIn(n + UnitSuffix(u), RegexSpaces)
  {
    var s := n + UnitSuffix(u);
    forall i | 0 <= i < |s| ensures s[i] !in RegexSpaces {
      if i < |n| { assert s[i] == n[i]; } else { assert s[i] == UnitSuffix(u)[i - |n|]; }
    }
  }

  /** `a.b` followed by a unit, with digit strings `a` (possibly empty) and `b`, is that decimal in that unit. */
  lemma FontSizeDecimalRoundTrip(a: string, b: string, u: FontSizeUnit)
    requires AllDigits(a) && AllDigits(b) && b != []
    ensures ParseFontSize(a + "." + b + UnitSuffix(u)) == Ok(FontSize(u, DecimalValue(a, Some(b))))
  {
    var n := a + "." + b;
    var s := n + UnitSuffix(u);
    DecimalText(a, b);
    NoSpacesInNumber(n, u);
    SplitRunsNone(s, RegexSpaces);
    SplitUnitOf(n, u);
  }

  /** The text `a.b` of two digit strings: digits and one dot, the digit run ending at the dot. */
  lemma DecimalText(a: string, b: string)
    requires AllDigits(a) && AllDigits(b) && b != []
    ensures var n := a + "." + b;
      && (forall i :: 0 <= i < |n| ==> IsDigit(n[i]) || n[i] == '.')
      && IsDigit(n[|n| - 1]) && DigitPrefixLen(n) == |a| && n[..|a|] == a && n[|a|] == '.' && n[|a| + 1..] == b
  {
    var n := a + "." + b;
    forall i | 0 <= i < |n| ensures IsDigit(n[i]) || n[i] == '.' {
      if i < |a| { assert n[i] == a[i]; } else if i > |a| { assert n[i] == b[i - |a| - 1]; }
    }
    assert n[|n| - 1] == b[|b| - 1];
    DigitPrefixOfDigits(a, "." + b);
    assert n == a + ("." + b);
  }

  /** A natural number followed by a unit is that number in that unit. */
  lemma FontSizeWholeRoundTrip(v: nat, u: FontSizeUnit)
    ensures ParseFontSize(NatToString(v) + UnitSuffix(u)) == Ok(FontSize(u, v as real))
  {
    var n := NatToString(v);
    var s := n + UnitSuffix(u);
    NoSpacesInNumber(n, u);
    SplitRunsNone(s, RegexSpaces);
    assert FontSizeTarget(s) == Ok(s);
    SplitUnitOf(n, u);
    DigitPrefixOfDigits(n, "");
    assert n + "" == n;
    assert DecimalNumber(n);
    NatToStringValue(v);
    assert DecimalNumberValue(n) == v as real;
  }

  /** Of two whitespace-separated values only the second counts. */
  lemma FontSizeSecondValue(x: string, y: string)
    requires NoneIn(x, RegexSpaces) && NoneIn(y, RegexSpaces)
    ensures ParseFontSize(x + " " + y) == ParseFontSize(y)
  {
    SplitRunsPair(x, ' ', y, RegexSpaces);
    assert x + " " + y == x + [' '] + y;
    SplitRunsNone(y, RegexSpaces);
  }

  /** Three whitespace-separated values are rejected. */
  lemma FontSizeThreeValues(x: string, y: string, z: string)
    requires NoneIn(x, RegexSpaces) && NoneIn(y, RegexSpaces) && NoneIn(z, RegexSpaces) && y != []
    ensures ParseFontSize(x + " " + y + " " + z) == Err(SubtitleDecoderException)
  {
    assert NoneIn(y, RegexSpaces) && y[0] !in RegexSpaces;
    SplitRunsPair(y, ' ', z, RegexSpaces);
    assert x + " " + y + " " + z == x + [' '] + (y + [' '] + z);
    SplitRunsCons(x, ' ', y + [' '] + z, RegexSpaces);
  }

  /** Wherever the escaped pattern accepts, the pattern as written accepts the same size. */
  lemma FontSizeAsWrittenAgrees(expression: string)
    requires ParseFontSize(expression).Ok?
    ensures FontSizeAsWritten(expression) == ParseFontSize(expression)
  {
  }

  /** Digits, one separator that is neither a digit nor `.`, `e`, `E`, and digits: a loose number `Float.valueOf` refuses. */
  lemma SeparatorNumber(a: string, c: char, b: string)
    requires AllDigits(a) && a != [] && AllDigits(b) && b != []
    requires !IsDigit(c) && c != '.' && c != 'e' && c != 'E' && !LineTerminator(c)
    ensures var n := a + [c] + b;
      LooseNumber(n) && !DecimalNumber(n) && LooseNumberValue(n) == Err(NumberFormatException)
  {
    var n := a + [c] + b;
    assert n == a + ([c] + b);
    DigitPrefixOfDigits(a, [c] + b);
    assert DigitPrefixLen([c] + b) == 0;
    assert n[..|a|] == a && n[|a|] == c && n[|a| + 1..] == b;
  }

  /**
   * Digits, a separator other than a digit, a decimal point, an exponent letter, a line
   * terminator or whitespace, then digits and a unit: the pattern as written accepts it and
   * `Float.valueOf` throws; with the point escaped it is an ordinary, ignored fontSize error.
   */
  lemma {:induction false} FontSizeSeparatorThrows(a: string, c: char, b: string, u: FontSizeUnit)
    requires AllDigits(a) && a != [] && AllDigits(b) && b != []
    requires !IsDigit(c) && c != '.' && c != 'e' && c != 'E' && !LineTerminator(c) && c !in RegexSpaces
    ensures FontSizeAsWritten(a + [c] + b + UnitSuffix(u)) == Err(NumberFormatException)
    ensures ParseFontSize(a + [c] + b + UnitSuffix(u)) == Err(SubtitleDecoderException)
  {
    var n := a + [c] + b;
    var s := n + UnitSuffix(u);
    assert NoneIn(s, RegexSpaces) by {
      forall i | 0 <= i < |s| ensures s[i] !in RegexSpaces {
        if i < |a| { assert s[i] == a[i]; }
        else if i == |a| { assert s[i] == c; }
        else if i < |n| { assert s[i] == b[i - |a| - 1]; }
        else { assert s[i] == UnitSuffix(u)[i - |n|]; }
      }
    }
    SplitRunsNone(s, RegexSpaces);
    assert FontSizeTarget(s) == Ok(s);
    assert n[|n| - 1] == b[|b| - 1];
    SplitUnitOf(n, u);
    SeparatorNumber(a, c, b);
  }

  /** `fontSize="1x5px"`, for one. */
  lemma FontSizeFindingExample()
    ensures FontSizeAsWritten("1x5px") == Err(NumberFormatException)
    ensures ParseFontSize("1x5px") == Err(SubtitleDecoderException)
  {
    assert "1x5px" == "1" + ['x'] + "5" + UnitSuffix(Pixel);
    FontSizeSeparatorThrows("1", 'x', "5", Pixel);
  }

  // ---------------------------------------------------------------------------------------
  // parseStyleAttributes

  /** `textAlign`, compared in lower case. */
  function TextAlignOf(value: string): (r: Option<Alignment>)
    ensures r.Some? <==> ToLower(value) in {"left", "start", "right", "end", "center"}
  {
    var v := ToLower(value);
    if v == "left" || v == "start" then Some(AlignNormal)
    else if v == "right" || v == "end" then Some(AlignOpposite)
    else if v == "center" then Some(AlignCenter)
    else None
  }

  /** Whether an attribute makes `parseStyleAttributes` create a style when it has none. */
  predicate CreatesStyle(a: Attr, elementName: string) {
    || (a.name == "id" && elementName == "style")
    || a.name in {"backgroundColor", "color", "fontFamily", "fontSize", "fontWeight", "fontStyle"}
    || (a.name == "textAlign" && TextAlignOf(a.value).Some?)
    || (a.name == "textDecoration" && ToLower(a.value) in {"linethrough", "nolinethrough", "underline", "nounderline"})
  }

  /** The attribute names `parseStyleAttributes` reacts to. */
  const STYLE_ATTRIBUTE_NAMES: set<string> :=
    {"id", "backgroundColor", "color", "fontFamily", "fontSize", "fontWeight", "fontStyle", "textAlign", "textDecoration"}

  /**
   * One iteration of the attribute loop. `parseColor` stands for `ColorParser.parseTtmlColor`;
   * None is its IllegalArgumentException, after which the colour is left unset.
   */
  function ApplyStyleAttribute(style: Option<Style>, a: Attr, elementName: string, parseColor: string -> Option<int>)
    : (r: Option<Style>)
    ensures style.Some? ==> r.Some?
    ensures r.Some? && !(a.name == "id" && elementName == "style") ==> r.value.id == CreateIfNull(style).id
    ensures a.name !in STYLE_ATTRIBUTE_NAMES ==> r == style
  {
    var v := a.value;
    var s := CreateIfNull(style);
    if a.name == "id" then
      (if elementName == "style" then Some(s.(id := Some(v))) else style)
    else if a.name == "backgroundColor" then
      Some(if parseColor(v).Some? then s.(backgroundColor := parseColor(v)) else s)
    else if a.name == "color" then
      Some(if parseColor(v).Some? then s.(fontColor := parseColor(v)) else s)
    else if a.name == "fontFamily" then
      Some(s.(fontFamily := Some(v)))
    else if a.name == "fontSize" then
      Some(match ParseFontSize(v)
           case Ok(f) => s.(fontSizeUnit := Some(f.unit), fontSize := Some(f.size))
           case Err(_) => s)
    else if a.name == "fontWeight" then
      Some(s.(bold := Some(EqualsIgnoreCase(v, "bold"))))
    else if a.name == "fontStyle" then
      Some(s.(italic := Some(EqualsIgnoreCase(v, "italic"))))
    else if a.name == "textAlign" then
      (if TextAlignOf(v).Some? then Some(s.(textAlign := TextAlignOf(v))) else style)
    else if a.name == "textDecoration" then
      var d := ToLower(v);
      if d == "linethrough" then Some(s.(linethrough := Some(true)))
      else if d == "nolinethrough" then Some(s.(linethrough := Some(false)))
      else if d == "underline" then Some(s.(underline := Some(true)))
      else if d == "nounderline" then Some(s.(underline := Some(false)))
      else style
    else style
  }

  /** The style after the attribute loop has run over `attrs`, in order. */
  function StyleAttributes(attrs: seq<Attr>, elementName: string, style: Option<Style>, parseColor: string -> Option<int>): Option<Style>
  {
    if attrs == [] then style
    else ApplyStyleAttribute(StyleAttributes(attrs[..|attrs| - 1], elementName, style, parseColor), attrs[|attrs| - 1], elementName, parseColor)
  }

  /** `parseStyleAttributes`: the attribute loop over the element's attributes. */
  method ParseStyleAttributes(attrs: seq<Attr>, elementName: string, style: Option<Style>, parseColor: string -> Option<int>)
    returns (r: Option<Style>)
    ensures r == StyleAttributes(attrs, elementName, style, parseColor)
  {
    r := style;
    var i := 0;
    while i < |attrs|
      invariant 0 <= i <= |attrs|
      invariant r == StyleAttributes(attrs[..i], elementName, style, parseColor)
    {
      var a := attrs[i];
      var value := a.value;
      if a.name == "id" {
        if elementName == "style" {
          r := Some(CreateIfNull(r).(id := Some(value)));
        }
      } else if a.name == "backgroundColor" {
        var s := CreateIfNull(r);
        var color := parseColor(value);
        if color.Some? {
          s := s.(backgroundColor := color);
        }
        r := Some(s);
      } else if a.name == "color" {
        var s := CreateIfNull(r);
        var color := parseColor(value);
        if color.Some? {
          s := s.(fontColor := color);
        }
        r := Some(s);
      } else if a.name == "fontFamily" {
        r := Some(CreateIfNull(r).(fontFamily := Some(value)));
      } else if a.name == "fontSize" {
        var s := CreateIfNull(r);
        var size := ParseFontSize(value);
        if size.Ok? {
          s := s.(fontSizeUnit := Some(size.value.unit), fontSize := Some(size.value.size));
        }
        r := Some(s);
      } else if a.name == "fontWeight" {
        r := Some(CreateIfNull(r).(bold := Some(EqualsIgnoreCase(value, "bold"))));
      } else if a.name == "fontStyle" {
        r := Some(CreateIfNull(r).(italic := Some(EqualsIgnoreCase(value, "italic"))));
      } else if a.name == "textAlign" {
        var lower := ToLower(value);
        if lower == "left" || lower == "start" {
          r := Some(CreateIfNull(r).(textAlign := Some(AlignNormal)));
        } else if lower == "right" || lower == "end" {
          r := Some(CreateIfNull(r).(textAlign := Some(AlignOpposite)));
        } else if lower == "center" {
          r := Some(CreateIfNull(r).(textAlign := Some(AlignCenter)));
        }
      } else if a.name == "textDecoration" {
        var lower := ToLower(value);
        if lower == "linethrough" {
          r := Some(CreateIfNull(r).(linethrough := Some(true)));
        } else if lower == "nolinethrough" {
          r := Some(CreateIfNull(r).(linethrough := Some(false)));
        } else if lower == "underline" {
          r := Some(CreateIfNull(r).(underline := Some(true)));
        } else if lower == "nounderline" {
          r := Some(CreateIfNull(r).(underline := Some(false)));
        }
      }
      assert attrs[..i + 1][..i] == attrs[..i];
      i := i + 1;
    }
    assert attrs[..|attrs|] == attrs;
  }

  /**
   * A content element gets a style exactly when one of its attributes creates one, and a
   * style once present is never dropped.
   */
  lemma {:induction false} StyleCreatedIff(attrs: seq<Attr>, elementName: string, style: Option<Style>, parseColor: string -> Option<int>)
    ensures StyleAttributes(attrs, elementName, style, parseColor).None?
        <==> style.None? && forall i :: 0 <= i < |attrs| ==> !CreatesStyle(attrs[i], elementName)
  {
    if attrs != [] {
      var init := attrs[..|attrs| - 1];
      StyleCreatedIff(init, elementName, style, parseColor);
      ApplyCreatesStyle(StyleAttributes(init, elementName, style, parseColor), attrs[|attrs| - 1], elementName, parseColor);
      assert forall i :: 0 <= i < |init| ==> init[i] == attrs[i];
    }
  }

  /** One attribute leaves the style null exactly when it was null and the attribute creates none. */
  lemma ApplyCreatesStyle(style: Option<Style>, a: Attr, elementName: string, parseColor: string -> Option<int>)
    ensures ApplyStyleAttribute(style, a, elementName, parseColor).None? <==> style.None? && !CreatesStyle(a, elementName)
  {
  }

  /** A `fontFamily` attribute sets the family; any other attribute keeps a present style and its family. */
  lemma ApplyFontFamily(style: Option<Style>, a: Attr, elementName: string, parseColor: string -> Option<int>)
    ensures a.name == "fontFamily" ==> var r := ApplyStyleAttribute(style, a, elementName, parseColor);
      r.Some? && r.value.fontFamily == Some(a.value)
    ensures a.name != "fontFamily" && style.Some? ==> var r := ApplyStyleAttribute(style, a, elementName, parseColor);
      r.Some? && r.value.fontFamily == style.value.fontFamily
  {
  }

  function IdOf(style: Option<Style>): Option<string> {
    if style.Some? then style.value.id else None
  }

  /** Only a `style` element's attributes can set the style id. */
  lemma {:induction false} IdOnlyOnStyleElement(attrs: seq<Attr>, elementName: string, style: Option<Style>, parseColor: string -> Option<int>)
    requires elementName != "style"
    ensures IdOf(StyleAttributes(attrs, elementName, style, parseColor)) == IdOf(style)
  {
    if attrs != [] {
      IdOnlyOnStyleElement(attrs[..|attrs| - 1], elementName, style, parseColor);
    }
  }

  /** The last `fontFamily` attribute decides the font family. */
  lemma {:induction false} LastFontFamilyWins(attrs: seq<Attr>, k: nat, elementName: string, style: Option<Style>, parseColor: string -> Option<int>)
    requires k < |attrs| && attrs[k].name == "fontFamily"
    requires forall j :: k < j < |attrs| ==> attrs[j].name != "fontFamily"
    ensures StyleAttributes(attrs, elementName, style, parseColor).Some?
    ensures StyleAttributes(attrs, elementName, style, parseColor).value.fontFamily == Some(attrs[k].value)
  {
    var init := attrs[..|attrs| - 1];
    if k < |attrs| - 1 {
      LastFontFamilyWins(init, k, elementName, style, parseColor);
    }
    ApplyFontFamily(StyleAttributes(init, elementName, style, parseColor), attrs[|attrs| - 1], elementName, parseColor);
  }

  /**
   * `backgroundColor` sets the background colour to what `parseColor` gives; when that fails
   * the style is only created. Every other property is that of the style before.
   */
  lemma ApplyBackgroundColor(style: Option<Style>, a: Attr, elementName: string, parseColor: string -> Option<int>)
    requires a.name == "backgroundColor"
    ensures var s := CreateIfNull(style);
      ApplyStyleAttribute(style, a, elementName, parseColor)
      == Some(if parseColor(a.value).Some? then s.(backgroundColor := parseColor(a.value)) else s)
  {
  }

  /** `color` sets the font colour to what `parseColor` gives; when that fails the style is only created. */
  lemma ApplyColor(style: Option<Style>, a: Attr, elementName: string, parseColor: string -> Option<int>)
    requires a.name == "color"
    ensures var s := CreateIfNull(style);
      ApplyStyleAttribute(style, a, elementName, parseColor)
      == Some(if parseColor(a.value).Some? then s.(fontColor := parseColor(a.value)) else s)
  {
  }

  /**
   * `fontSize` sets the unit and size `parseFontSize` reads; when that fails the style is
   * only created. Any other attribute keeps a present style's unit and size.
   */
  lemma ApplyFontSize(style: Option<Style>, a: Attr, elementName: string, parseColor: string -> Option<int>)
    ensures a.name == "fontSize" && ParseFontSize(a.value).Ok? ==>
      var f := ParseFontSize(a.value).value;
      ApplyStyleAttribute(style, a, elementName, parseColor)
      == Some(CreateIfNull(style).(fontSizeUnit := Some(f.unit), fontSize := Some(f.size)))
    ensures a.name == "fontSize" && ParseFontSize(a.value).Err? ==>
      ApplyStyleAttribute(style, a, elementName, parseColor) == Some(CreateIfNull(style))
    ensures a.name != "fontSize" && style.Some? ==> var r := ApplyStyleAttribute(style, a, elementName, parseColor);
      r.Some? && r.value.fontSizeUnit == style.value.fontSizeUnit && r.value.fontSize == style.value.fontSize
  {
  }

  /** `fontWeight` makes the style bold exactly when the value is `bold` in any case. */
  lemma ApplyFontWeight(style: Option<Style>, a: Attr, elementName: string, parseColor: string -> Option<int>)
    ensures a.name == "fontWeight" ==>
      ApplyStyleAttribute(style, a, elementName, parseColor)
      == Some(CreateIfNull(style).(bold := Some(ToLower(a.value) == "bold")))
    ensures a.name != "fontWeight" && style.Some? ==> var r := ApplyStyleAttribute(style, a, elementName, parseColor);
      r.Some? && r.value.bold == style.value.bold
  {
  }

  /** `fontStyle` makes the style italic exactly when the value is `italic` in any case. */
  lemma ApplyFontStyle(style: Option<Style>, a: Attr, elementName: string, parseColor: string -> Option<int>)
    requires a.name == "fontStyle"
    ensures ApplyStyleAttribute(style, a, elementName, parseColor)
         == Some(CreateIfNull(style).(italic := Some(ToLower(a.value) == "italic")))
  {
  }

  /** `textAlign` sets a recognised alignment; an unrecognised value changes nothing, not even creation. */
  lemma ApplyTextAlign(style: Option<Style>, a: Attr, elementName: string, parseColor: string -> Option<int>)
    requires a.name == "textAlign"
    ensures TextAlignOf(a.value).Some? ==>
      ApplyStyleAttribute(style, a, elementName, parseColor) == Some(CreateIfNull(style).(textAlign := TextAlignOf(a.value)))
    ensures TextAlignOf(a.value).None? ==> ApplyStyleAttribute(style, a, elementName, parseColor) == style
  {
  }

  /**
   * `textDecoration`: `linethrough`/`nolinethrough` switch line-through on and off,
   * `underline`/`nounderline` the underline, in any case; any other value changes nothing.
   */
  lemma ApplyTextDecoration(style: Option<Style>, a: Attr, elementName: string, parseColor: string -> Option<int>)
    requires a.name == "textDecoration"
    ensures var r := ApplyStyleAttribute(style, a, elementName, parseColor);
      var s := CreateIfNull(style);
      var d := ToLower(a.value);
      && (d == "linethrough" ==> r == Some(s.(linethrough := Some(true))))
      && (d == "nolinethrough" ==> r == Some(s.(linethrough := Some(false))))
      && (d == "underline" ==> r == Some(s.(underline := Some(true))))
      && (d == "nounderline" ==> r == Some(s.(underline := Some(false))))
      && (d !in {"linethrough", "nolinethrough", "underline", "nounderline"} ==> r == style)
  {
  }

  /** The last `fontSize` attribute, when it parses, decides the unit and size. */
  lemma {:induction false} LastFontSizeWins(attrs: seq<Attr>, k: nat, elementName: string, style: Option<Style>, parseColor: string -> Option<int>)
    requires k < |attrs| && attrs[k].name == "fontSize" && ParseFontSize(attrs[k].value).Ok?
    requires forall j :: k < j < |attrs| ==> attrs[j].name != "fontSize"
    ensures var r := StyleAttributes(attrs, elementName, style, parseColor);
      var f := ParseFontSize(attrs[k].value).value;
      r.Some? && r.value.fontSizeUnit == Some(f.unit) && r.value.fontSize == Some(f.size)
  {
    var init := attrs[..|attrs| - 1];
    if k < |attrs| - 1 {
      LastFontSizeWins(init, k, elementName, style, parseColor);
    }
    ApplyFontSize(StyleAttributes(init, elementName, style, parseColor), attrs[|attrs| - 1], elementName, parseColor);
  }

  /** The last `fontWeight` attribute decides whether the style is bold. */
  lemma {:induction false} LastFontWeightWins(attrs: seq<Attr>, k: nat, elementName: string, style: Option<Style>, parseColor: string -> Option<int>)
    requires k < |attrs| && attrs[k].name == "fontWeight"
    requires forall j :: k < j < |attrs| ==> attrs[j].name != "fontWeight"
    ensures var r := StyleAttributes(attrs, elementName, style, parseColor);
      r.Some? && r.value.bold == Some(ToLower(attrs[k].value) == "bold")
  {
    var init := attrs[..|attrs| - 1];
    if k < |attrs| - 1 {
      LastFontWeightWins(init, k, elementName, style, parseColor);
    }
    ApplyFontWeight(StyleAttributes(init, elementName, style, parseColor), attrs[|attrs| - 1], elementName, parseColor);
  }

  // ---------------------------------------------------------------------------------------
  // parseStyleIds

  /** `parseStyleIds`: the trimmed value split at runs of whitespace; nothing when it is blank. */
  function ParseStyleIds(value: string): (r: seq<string>)
    ensures forall k :: 0 <= k < |r| ==> r[k] != "" && NoneIn(r[k], RegexSpaces)
  {
    var t := Trim(value);
    if t == [] then []
    else
      TrimmedIdsNonEmpty(t);
      SplitRuns(t, RegexSpaces)
  }

  /** A trimmed non-blank value splits into non-empty ids. */
  lemma TrimmedIdsNonEmpty(t: string)
    requires t != [] && t[0] > ' ' && t[|t| - 1] > ' '
    ensures forall k :: 0 <= k < |SplitRuns(t, RegexSpaces)| ==> SplitRuns(t, RegexSpaces)[k] != ""
  {
    AboveSpaceNotWhitespace(t[0]);
    AboveSpaceNotWhitespace(t[|t| - 1]);
    SplitRunsNonEmpty(t, RegexSpaces);
  }

  predicate PlainId(id: string) {
    id != [] && NoneIn(id, RegexSpaces) && id[0] > ' ' && id[|id| - 1] > ' '
  }

  lemma {:induction false} SplitJoinedIds(ids: seq<string>)
    requires ids != [] && forall k :: 0 <= k < |ids| ==> PlainId(ids[k])
    ensures SplitRuns(Join(ids, ' '), RegexSpaces) == ids
    ensures Join(ids, ' ') != [] && Join(ids, ' ')[0] > ' ' && Join(ids, ' ')[|Join(ids, ' ')| - 1] > ' '
  {
    if |ids| == 1 {
      SplitRunsNone(ids[0], RegexSpaces);
    } else {
      var rest := Join(ids[1..], ' ');
      SplitJoinedIds(ids[1..]);
      assert PlainId(ids[0]) && PlainId(ids[1]);
      assert rest[0] !in RegexSpaces;
      var s := ids[0] + [' '] + rest;
      assert s[0] == ids[0][0] && s[|s| - 1] == rest[|rest| - 1];
      SplitRunsCons(ids[0], ' ', rest, RegexSpaces);
      assert [ids[0]] + ids[1..] == ids;
    }
  }

  /** Ids without whitespace, joined by single spaces, are read back one by one. */
  lemma StyleIdsRoundTrip(ids: seq<string>)
    requires forall k :: 0 <= k < |ids| ==> PlainId(ids[k])
    ensures ParseStyleIds(Join(ids, ' ')) == ids
  {
    var s := Join(ids, ' ');
    if ids == [] {
      assert s == [] && Trim(s) == [];
    } else {
      SplitJoinedIds(ids);
      TrimUnchanged(s);
      UntrimmedIds(s);
    }
  }

  /** Text that trimming leaves as it is splits without trimming. */
  lemma UntrimmedIds(s: string)
    requires s != [] && Trim(s) == s
    ensures ParseStyleIds(s) == SplitRuns(s, RegexSpaces)
  {
  }

  lemma TrimUnchanged(s: string)
    requires s != [] && s[0] > ' ' && s[|s| - 1] > ' '
    ensures Trim(s) == s
  {
    assert TrimStart(s) == s;
    assert TrimEnd(s) == s;
  }

  /** Blank references name no style. */
  lemma BlankStyleIds(value: string)
    requires forall i :: 0 <= i < |value| ==> value[i] <= ' '
    ensures ParseStyleIds(value) == []
  {
    BlankTrims(value);
  }

  lemma {:induction false} BlankTrims(value: string)
    requires forall i :: 0 <= i < |value| ==> value[i] <= ' '
    ensures TrimStart(value) == []
  {
    if value != [] {
      assert forall i :: 0 <= i < |value[1..]| ==> value[1..][i] == value[i + 1];
      BlankTrims(value[1..]);
    }
  }

  // ---------------------------------------------------------------------------------------
  // style elements of the head

  /**
   * A `style` element of the head: its attributes applied to a new style, which is chained
   * to each global style its `style` attribute names, then stored under its id, if it has one.
   */
  function DeclareStyle(attrs: seq<Attr>, globalStyles: map<string, Style>, parseColor: string -> Option<int>): (r: map<string, Style>)
    ensures globalStyles.Keys <= r.Keys
    ensures forall id :: id in r && (id !in globalStyles || r[id] != globalStyles[id]) ==> r[id].id == Some(id)
  {
    StyleCreatedIff(attrs, "style", Some(EMPTY_STYLE), parseColor);
    var style := StyleAttributes(attrs, "style", Some(EMPTY_STYLE), parseColor).value;
    var parent := AttributeValue(attrs, "style");
    var chained :=
      if parent.None? then style
      else style.(chained := style.chained + Chain(ParseStyleIds(parent.value), globalStyles));
    if chained.id.Some? then globalStyles[chained.id.value := chained] else globalStyles
  }

  /** `globalStyles.get(id)` for each referenced id, in order. */
  function Chain(ids: seq<string>, globalStyles: map<string, Style>): (r: seq<Option<Style>>)
    ensures |r| == |ids|
    ensures forall k :: 0 <= k < |ids| ==> r[k] == (if ids[k] in globalStyles then Some(globalStyles[ids[k]]) else None)
  {
    if ids == [] then []
    else [if ids[0] in globalStyles then Some(globalStyles[ids[0]]) else None] + Chain(ids[1..], globalStyles)
  }

  /**
   * Declaring a style with an `id` attribute stores it under the value of the last one and
   * leaves every other global style as it was; without an id nothing changes.
   */
  lemma {:induction false} DeclareStyleStores(attrs: seq<Attr>, k: nat, globalStyles: map<string, Style>, parseColor: string -> Option<int>)
    requires k < |attrs| && attrs[k].name == "id"
    requires forall j :: k < j < |attrs| ==> attrs[j].name != "id"
    ensures DeclareStyle(attrs, globalStyles, parseColor).Keys == globalStyles.Keys + {attrs[k].value}
    ensures DeclareStyle(attrs, globalStyles, parseColor)[attrs[k].value].id == Some(attrs[k].value)
    ensures forall id :: id in globalStyles && id != attrs[k].value ==> DeclareStyle(attrs, globalStyles, parseColor)[id] == globalStyles[id]
  {
    LastIdWins(attrs, k, parseColor);
  }

  lemma {:induction false} LastIdWins(attrs: seq<Attr>, k: nat, parseColor: string -> Option<int>)
    requires k < |attrs| && attrs[k].name == "id"
    requires forall j :: k < j < |attrs| ==> attrs[j].name != "id"
    ensures IdOf(StyleAttributes(attrs, "style", Some(EMPTY_STYLE), parseColor)) == Some(attrs[k].value)
  {
    StyleCreatedIff(attrs[..|attrs| - 1], "style", Some(EMPTY_STYLE), parseColor);
    if k < |attrs| - 1 {
      LastIdWins(attrs[..|attrs| - 1], k, parseColor);
    }
  }

  /** A style element without an `id` attribute declares nothing. */
  lemma DeclareStyleWithoutId(attrs: seq<Attr>, globalStyles: map<string, Style>, parseColor: string -> Option<int>)
    requires forall j :: 0 <= j < |attrs| ==> attrs[j].name != "id"
    ensures DeclareStyle(attrs, globalStyles, parseColor) == globalStyles
  {
    StyleCreatedIff(attrs, "style", Some(EMPTY_STYLE), parseColor);
    NoIdAttribute(attrs, parseColor);
  }

  lemma {:induction false} NoIdAttribute(attrs: seq<Attr>, parseColor: string -> Option<int>)
    requires forall j :: 0 <= j < |attrs| ==> attrs[j].name != "id"
    ensures IdOf(StyleAttributes(attrs, "style", Some(EMPTY_STYLE), parseColor)) == None
  {
    if attrs != [] {
      StyleCreatedIff(attrs[..|attrs| - 1], "style", Some(EMPTY_STYLE), parseColor);
      NoIdAttribute(attrs[..|attrs| - 1], parseColor);
    }
  }
}
