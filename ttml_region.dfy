/**
 * Region declarations of the head (`parseRegionAttributes`): an id, an origin and an
 * extent, each a pair of lengths, the line anchor from `displayAlign` and a text size of
 * one row of the cell grid.
 */
module TtmlRegion {
  import opened Wrappers
  import opened JavaText
  import opened JavaNumbers
  import opened XmlEvents
  import opened TtmlLength
  import opened TtmlParameters

  /** `Cue.ANCHOR_TYPE_START`, `_MIDDLE` and `_END`. */
  datatype Anchor = AnchorStart | AnchorMiddle | AnchorEnd

  datatype Geometry = Geometry(x: Length, y: Length, lineAnchor: Anchor, width: Length, height: Length, textSize: Double)

  /**
   * A region: the anonymous region `""` is always present and has no geometry of its
   * own; a declared region has one.
   */
  datatype Region = Region(id: string, geometry: Option<Geometry>)

  const ANONYMOUS_REGION_ID: string := ""

  /** `new TtmlRegion(null)`, stored under the anonymous id. */
  const ANONYMOUS_REGION: Region := Region(ANONYMOUS_REGION_ID, None)

  /**
   * An origin or extent: `split("\\s")` must give exactly two tokens, the first not `auto`,
   * both lengths `TtmlLength.parse` accepts. The unit is not checked.
   */
  function LengthPair(value: string): (r: Option<(Length, Length)>)
    ensures r.Some? <==>
      var items := SplitDefault(value, RegexSpaces);
      |items| == 2 && Parse(items[0]).Some? && Parse(items[0]).value.kind != Auto && Parse(items[1]).Some?
    ensures r.Some? ==> (r.value.0 == Parse(SplitDefault(value, RegexSpaces)[0]).value
                         && r.value.1 == Parse(SplitDefault(value, RegexSpaces)[1]).value)
  {
    var items := SplitDefault(value, RegexSpaces);
    if |items| == 0 then None
    else
      var first := Parse(items[0]);
      if first.None? then None
      else if first.value.kind != Auto && |items| == 2 then
        var second := Parse(items[1]);
        if second.None? then None else Some((first.value, second.value))
      else None
  }

  /** `displayAlign`, compared in lower case: `center` and `after`; anything else, or none, is the start. */
  function LineAnchor(displayAlign: Option<string>): (r: Anchor)
    ensures r == AnchorMiddle <==> displayAlign.Some? && ToLower(displayAlign.value) == "center"
    ensures r == AnchorEnd <==> displayAlign.Some? && ToLower(displayAlign.value) == "after"
  {
    if displayAlign.None? then AnchorStart
    else
      var v := ToLower(displayAlign.value);
      if v == "center" then AnchorMiddle
      else if v == "after" then AnchorEnd
      else AnchorStart
  }

  /** `parseRegionAttributes`: None is the null that drops the declaration. */
  function ParseRegionAttributes(attrs: seq<Attr>, cellResolution: CellResolution): (r: Option<Region>)
    ensures r.Some? <==>
      && AttributeValue(attrs, "id").Some?
      && AttributeValue(attrs, "origin").Some? && LengthPair(AttributeValue(attrs, "origin").value).Some?
      && AttributeValue(attrs, "extent").Some? && LengthPair(AttributeValue(attrs, "extent").value).Some?
    ensures r.Some? ==>
      var origin := LengthPair(AttributeValue(attrs, "origin").value).value;
      var extent := LengthPair(AttributeValue(attrs, "extent").value).value;
      r.value == Region(AttributeValue(attrs, "id").value,
                        Some(Geometry(origin.0, origin.1, LineAnchor(AttributeValue(attrs, "displayAlign")),
                                      extent.0, extent.1, Div(Finite(1.0), Finite(cellResolution.rows as real)))))
  {
    var id := AttributeValue(attrs, "id");
    if id.None? then None
    else
      var origin := AttributeValue(attrs, "origin");
      if origin.None? || LengthPair(origin.value).None? then None
      else
        var extent := AttributeValue(attrs, "extent");
        if extent.None? || LengthPair(extent.value).None? then None
        else
          var (x, y) := LengthPair(origin.value).value;
          var (width, height) := LengthPair(extent.value).value;
          var anchor := LineAnchor(AttributeValue(attrs, "displayAlign"));
          var textSize := Div(Finite(1.0), Finite(cellResolution.rows as real));
          Some(Region(id.value, Some(Geometry(x, y, anchor, width, height, textSize))))
  }

  /** The two tokens `a b`, written with one space. */
  lemma TwoTokens(a: string, b: string)
    requires NoneIn(a, RegexSpaces) && NoneIn(b, RegexSpaces) && b != []
    ensures SplitDefault(a + " " + b, RegexSpaces) == [a, b]
  {
    var s := a + " " + b;
    assert s == a + [' '] + b;
    assert s[|a|] == ' ';
    SplitEachPair(a, ' ', b, RegexSpaces);
  }

  lemma LengthTextNoSpaces(v: int, unit: string)
    requires NoneIn(unit, RegexSpaces)
    ensures NoneIn(IntToString(v) + unit, RegexSpaces)
  {
    var n := IntToString(v);
    var s := n + unit;
    var digits := NatToString(Magnitude(v));
    assert n == (if v < 0 then "-" else "") + digits;
    forall i | 0 <= i < |s| ensures s[i] !in RegexSpaces {
      if i >= |n| {
        assert s[i] == unit[i - |n|];
      } else if v < 0 && i > 0 {
        assert s[i] == digits[i - 1];
      } else if v >= 0 {
        assert s[i] == digits[i];
      }
    }
  }

  /** `"A<u> B<u'>"` with integers A and B and units in any case reads back as the two lengths. */
  lemma {:induction false} LengthPairRoundTrip(a: int, unitA: string, ka: LengthType, b: int, unitB: string, kb: LengthType)
    requires ka != Auto && ToLower(unitA) == UnitName(ka)
    requires kb != Auto && ToLower(unitB) == UnitName(kb)
    ensures LengthPair(IntToString(a) + unitA + " " + IntToString(b) + unitB)
         == Some((Length(a as real, ka), Length(b as real, kb)))
  {
    var first, second := IntToString(a) + unitA, IntToString(b) + unitB;
    LowerKeepsExcluded(unitA);
    LowerKeepsExcluded(unitB);
    LengthTextNoSpaces(a, unitA);
    LengthTextNoSpaces(b, unitB);
    assert IntToString(a) + unitA + " " + IntToString(b) + unitB == first + " " + second;
    TwoTokens(first, second);
    ParseRoundTrip(a, unitA, ka);
    ParseRoundTrip(b, unitB, kb);
  }

  /** A first token `auto` drops the origin or extent, whatever follows. */
  lemma AutoFirstRejected(rest: string)
    requires NoneIn(rest, RegexSpaces) && rest != []
    ensures LengthPair("auto " + rest).None?
  {
    TwoTokens("auto", rest);
    assert EqualsIgnoreCase("auto", "auto");
  }

  /** A single token is not a pair. */
  lemma OneTokenRejected(token: string)
    requires NoneIn(token, RegexSpaces)
    ensures LengthPair(token).None?
  {
  }

  /**
   * A region with an id, an origin `X% Y%` and an extent `W% H%` is declared with those four
   * percentages and a text size of one row of the cell grid.
   */
  lemma RegionRoundTrip(attrs: seq<Attr>, id: string, x: int, y: int, w: int, h: int, cellResolution: CellResolution)
    requires AttributeValue(attrs, "id") == Some(id)
    requires AttributeValue(attrs, "origin") == Some(IntToString(x) + "%" + " " + IntToString(y) + "%")
    requires AttributeValue(attrs, "extent") == Some(IntToString(w) + "%" + " " + IntToString(h) + "%")
    ensures ParseRegionAttributes(attrs, cellResolution)
         == Some(Region(id, Some(Geometry(Length(x as real, Percentage), Length(y as real, Percentage),
                                          LineAnchor(AttributeValue(attrs, "displayAlign")),
                                          Length(w as real, Percentage), Length(h as real, Percentage),
                                          Div(Finite(1.0), Finite(cellResolution.rows as real))))))
  {
    assert ToLower("%") == "%";
    LengthPairRoundTrip(x, "%", Percentage, y, "%", Percentage);
    LengthPairRoundTrip(w, "%", Percentage, h, "%", Percentage);
  }

  /** Pixel origins are accepted too, although only percentages are meant to be supported. */
  lemma PixelOriginAccepted(attrs: seq<Attr>, x: int, y: int)
    requires AttributeValue(attrs, "id").Some?
    requires AttributeValue(attrs, "origin") == Some(IntToString(x) + "px" + " " + IntToString(y) + "px")
    requires AttributeValue(attrs, "extent") == Some(IntToString(x) + "px" + " " + IntToString(y) + "px")
    ensures ParseRegionAttributes(attrs, DEFAULT_CELL_RESOLUTION).Some?
    ensures ParseRegionAttributes(attrs, DEFAULT_CELL_RESOLUTION).value.geometry.value.x == Length(x as real, Pixel)
  {
    LowerPixelUnit();
    LengthPairRoundTrip(x, "px", Pixel, y, "px", Pixel);
    assert LengthPair(AttributeValue(attrs, "origin").value) == Some((Length(x as real, Pixel), Length(y as real, Pixel)));
  }

  lemma LowerPixelUnit()
    ensures ToLower("px") == UnitName(Pixel)
  {
    assert ToLower("px") == "px";
  }
}
