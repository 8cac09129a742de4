/**
 * `getCues`: the cues shown at one time. The two passes fill one accumulator per region;
 * each accumulator becomes a cue, in ascending order of region id, placed by its region.
 */
module TtmlCues {
  import opened Wrappers
  import opened JavaText
  import opened JavaNumbers
  import TtmlStyle
  import opened TtmlLength
  import opened TtmlRegion
  import opened TtmlMetadata
  import opened TtmlNode
  import opened TtmlTraversal
  import opened TtmlCleanUp

  /**
   * Where a cue goes. The line is a fraction of the viewport (`Cue.LINE_TYPE_FRACTION`), the
   * position anchor is unset and the text size is a fraction ignoring padding.
   */
  datatype Placement = Placement(line: real, lineAnchor: Anchor, position: real, textSize: Double, size: real)

  /** A cue: the cleaned-up text with its styled ranges, the background image and the placement. */
  datatype Cue = Cue(text: string, spans: seq<Span>, image: Option<Bitmap>, placement: Option<Placement>)

  // ---------------------------------------------------------------------------------------
  // line and position

  /** `getLineXValue`: a percentage becomes a fraction; any other length is its raw value. */
  function LineXValue(length: Length): (r: real)
    ensures length.kind == Percentage ==> r * 100.0 == length.value
    ensures length.kind != Percentage ==> r == length.value
  {
    if length.kind == Percentage then length.value / 100.0 else length.value
  }

  /** The share of the region's height below its top at which the line anchor sits. */
  function AnchorShare(anchor: Anchor): real {
    match anchor
    case AnchorStart => 0.0
    case AnchorMiddle => 0.5
    case AnchorEnd => 1.0
  }

  /**
   * `getLineYValue` as written: y as a fraction, plus half of the height's raw value for a
   * middle anchor or all of it for an end anchor. A percentage height is not divided by 100.
   */
  function LineYValueAsWritten(g: Geometry): (r: real)
    ensures r == LineXValue(g.y) + AnchorShare(g.lineAnchor) * g.height.value
  {
    var value := LineXValue(g.y);
    match g.lineAnchor
    case AnchorMiddle => value + g.height.value / 2.0
    case AnchorEnd => value + g.height.value
    case AnchorStart => value
  }

  /** `getLineYValue` with the height converted like every other length. */
  function LineYValue(g: Geometry): (r: real)
    ensures r == LineXValue(g.y) + AnchorShare(g.lineAnchor) * LineXValue(g.height)
  {
    var value := LineXValue(g.y);
    match g.lineAnchor
    case AnchorMiddle => value + LineXValue(g.height) / 2.0
    case AnchorEnd => value + LineXValue(g.height)
    case AnchorStart => value
  }

  /** A region inside the viewport, in percentages. */
  predicate InsideViewport(g: Geometry) {
    && g.y.kind == Percentage && g.height.kind == Percentage
    && 0.0 <= g.y.value && 0.0 <= g.height.value && g.y.value + g.height.value <= 100.0
  }

  /** The corrected line of a region inside the viewport is a fraction inside the region. */
  lemma LineInsideRegion(g: Geometry)
    requires InsideViewport(g)
    ensures LineXValue(g.y) <= LineYValue(g) <= LineXValue(g.y) + LineXValue(g.height)
    ensures 0.0 <= LineYValue(g) <= 1.0
  {
  }

  /** The two forms agree for a start anchor and for a height that is not a percentage. */
  lemma LineYValueAgrees(g: Geometry)
    requires g.lineAnchor == AnchorStart || g.height.kind != Percentage
    ensures LineYValueAsWritten(g) == LineYValue(g)
  {
  }

  /** As written, a percentage height moves a middle or end line by its raw value: off the region. */
  lemma LineYValueAsWrittenOffRegion(g: Geometry)
    requires InsideViewport(g) && g.lineAnchor != AnchorStart && g.height.value > 0.0
    ensures LineYValueAsWritten(g) > LineYValue(g)
    ensures LineYValueAsWritten(g) - LineXValue(g.y) == 100.0 * (LineYValue(g) - LineXValue(g.y))
  {
  }

  /** A region at 10% 20% of size 50% 30%, centred: 15.2 as written, 0.35 intended. */
  lemma LineYValueExample()
    ensures var g := Geometry(Length(10.0, Percentage), Length(20.0, Percentage), AnchorMiddle,
                              Length(50.0, Percentage), Length(30.0, Percentage), Finite(1.0 / 15.0));
      LineYValueAsWritten(g) == 15.2 && LineYValue(g) == 0.35 && LineYValue(g) <= 1.0 < LineYValueAsWritten(g)
  {
  }

  /** The placement of a cue in a region with a geometry; the anonymous region gives none. */
  function PlacementOf(region: Region): (r: Option<Placement>)
    ensures r.Some? <==> region.geometry.Some?
    ensures r.Some? ==> var g := region.geometry.value;
      && r.value.lineAnchor == g.lineAnchor && r.value.textSize == g.textSize
      && r.value.line == LineXValue(g.y) + AnchorShare(g.lineAnchor) * LineXValue(g.height)
      && r.value.position == LineXValue(g.x) && r.value.size == LineXValue(g.width)
  {
    match region.geometry
    case None => None
    case Some(g) => Some(Placement(LineYValue(g), g.lineAnchor, LineXValue(g.x), g.textSize, LineXValue(g.width)))
  }

  /** The cue of one region's accumulator. */
  function CueOf(output: Accumulator, region: Region): (r: Cue)
    ensures r.text == CleanUp(output.text) && r.spans == output.spans && r.image == output.image
    ensures r.placement == PlacementOf(region)
  {
    Cue(CleanUp(output.text), output.spans, output.image, PlacementOf(region))
  }

  // ---------------------------------------------------------------------------------------
  // region order

  /** `String.compareTo` < 0: the first differing character decides, else the shorter string. */
  predicate StringLess(a: string, b: string)
    decreases |a|
  {
    if a == [] then b != []
    else b != [] && (a[0] < b[0] || (a[0] == b[0] && StringLess(a[1..], b[1..])))
  }

  lemma {:induction false} StringLessIrreflexive(a: string)
    ensures !StringLess(a, a)
    decreases |a|
  {
    if a != [] {
      StringLessIrreflexive(a[1..]);
    }
  }

  lemma {:induction false} StringLessTransitive(a: string, b: string, c: string)
    requires StringLess(a, b) && StringLess(b, c)
    ensures StringLess(a, c)
    decreases |a|
  {
    if a != [] && a[0] == b[0] && b[0] == c[0] {
      StringLessTransitive(a[1..], b[1..], c[1..]);
    }
  }

  lemma {:induction false} StringLessTotal(a: string, b: string)
    requires a != b
    ensures StringLess(a, b) || StringLess(b, a)
    decreases |a|
  {
    if a != [] && b != [] && a[0] == b[0] {
      StringLessTotal(a[1..], b[1..]);
    }
  }

  /** A sequence of region ids in TreeMap order. */
  predicate Ascending(ids: seq<string>) {
    forall i, j :: 0 <= i < j < |ids| ==> StringLess(ids[i], ids[j])
  }

  /** The first key of a TreeMap: the least id. */
  method LeastId(s: set<string>) returns (m: string)
    requires s != {}
    ensures m in s && forall x :: x in s && x != m ==> StringLess(m, x)
  {
    ghost var someElement := ElementOf(s);
    m :| m in s;
    var rest := s - {m};
    while rest != {}
      invariant rest <= s && m in s && m !in rest
      invariant forall x :: x in s && x !in rest && x != m ==> StringLess(m, x)
      decreases |rest|
    {
      ghost var someElement := ElementOf(rest);
      var x :| x in rest;
      StringLessTotal(x, m);
      if StringLess(x, m) {
        forall y | y in s && y !in rest && y != x
          ensures StringLess(x, y)
        {
          if y != m {
            StringLessTransitive(x, m, y);
          }
        }
        m := x;
      }
      rest := rest - {x};
    }
  }

  // ---------------------------------------------------------------------------------------
  // the query

  /** The two passes from the root: `traverseForText` then `traverseForStyle`. */
  function RegionOutputs(root: Node, timeUs: int, images: Images, paragraphEnd: string -> string,
                         resolveStyle: (Option<TtmlStyle.Style>, Option<seq<string>>) -> Option<TtmlStyle.Style>)
    : Result<Outputs, Exception>
  {
    var text :- TextPass(root, [], timeUs, false, root.regionId, TextState(map[], map[]), images, paragraphEnd);
    StylePass(root, [], timeUs, text.scratch, text.outputs, resolveStyle)
  }

  /** Only pass one can fail: pass two always finds the accumulators pass one recorded. */
  lemma StylePassNeverFails(root: Node, timeUs: int, images: Images, paragraphEnd: string -> string,
                            resolveStyle: (Option<TtmlStyle.Style>, Option<seq<string>>) -> Option<TtmlStyle.Style>)
    requires TextPass(root, [], timeUs, false, root.regionId, TextState(map[], map[]), images, paragraphEnd).Ok?
    ensures RegionOutputs(root, timeUs, images, paragraphEnd, resolveStyle).Ok?
    ensures var text := TextPass(root, [], timeUs, false, root.regionId, TextState(map[], map[]), images, paragraphEnd).value;
      && RegionOutputs(root, timeUs, images, paragraphEnd, resolveStyle).value.Keys == text.outputs.Keys
      && forall k :: k in text.outputs ==>
           RegionOutputs(root, timeUs, images, paragraphEnd, resolveStyle).value[k].text == text.outputs[k].text
  {
    var st := TextState(map[], map[]);
    TextPassAppends(root, [], timeUs, false, root.regionId, st, images, paragraphEnd);
    var text := TextPass(root, [], timeUs, false, root.regionId, st, images, paragraphEnd).value;
    StylePassSucceeds(root, [], timeUs, text.scratch, text.outputs, resolveStyle);
    StylePassKeepsText(root, [], timeUs, text.scratch, text.outputs, resolveStyle);
  }

  /**
   * A document whose nodes all name declared regions, queried with its metadata table, gets
   * its cues: no pass fails and no accumulator lacks a region.
   */
  lemma QuerySucceeds(root: Node, timeUs: int, regionMap: map<string, Region>, images: Images,
                      paragraphEnd: string -> string,
                      resolveStyle: (Option<TtmlStyle.Style>, Option<seq<string>>) -> Option<TtmlStyle.Style>)
    requires images.Some? && RegionsIn(root, regionMap.Keys)
    ensures RegionOutputs(root, timeUs, images, paragraphEnd, resolveStyle).Ok?
    ensures RegionOutputs(root, timeUs, images, paragraphEnd, resolveStyle).value.Keys <= regionMap.Keys
  {
    TextPassSucceeds(root, [], timeUs, false, root.regionId, TextState(map[], map[]), images, paragraphEnd, regionMap.Keys);
    StylePassNeverFails(root, timeUs, images, paragraphEnd, resolveStyle);
  }

  /**
   * `getCues`: the two passes, then one cue per accumulator in ascending region-id order;
   * an accumulator whose region is not in `regionMap` is a NullPointerException.
   * `regionIds` names the region of each cue.
   */
  method GetCues(root: Node, timeUs: int, regionMap: map<string, Region>, images: Images,
                 paragraphEnd: string -> string,
                 resolveStyle: (Option<TtmlStyle.Style>, Option<seq<string>>) -> Option<TtmlStyle.Style>)
    returns (r: Result<seq<Cue>, Exception>, ghost regionIds: seq<string>)
    ensures var outputs := RegionOutputs(root, timeUs, images, paragraphEnd, resolveStyle);
      && (outputs.Err? ==> r == Err(outputs.error))
      && (outputs.Ok? ==>
            && (r.Err? <==> exists k :: k in outputs.value && k !in regionMap)
            && (r.Err? ==> r.error == NullPointerException)
            && (r.Ok? ==>
                  && |r.value| == |regionIds| && Ascending(regionIds)
                  && (forall k :: k in outputs.value <==> k in regionIds)
                  && forall i :: 0 <= i < |regionIds| ==>
                       regionIds[i] in regionMap && r.value[i] == CueOf(outputs.value[regionIds[i]], regionMap[regionIds[i]])))
  {
    regionIds := [];
    var text := TraverseForText(root, [], timeUs, false, root.regionId, TextState(map[], map[]), images, paragraphEnd);
    if text.Err? {
      return Err(text.error), regionIds;
    }
    var styled := TraverseForStyle(root, [], timeUs, text.value.scratch, text.value.outputs, resolveStyle);
    if styled.Err? {
      return Err(styled.error), regionIds;
    }
    r, regionIds := CuesInOrder(styled.value, regionMap);
  }

  /**
   * The cue loop of `getCues`: one cue per accumulator in ascending region-id order; an
   * accumulator whose region is not in `regionMap` is a NullPointerException.
   */
  method CuesInOrder(outputs: Outputs, regionMap: map<string, Region>) returns (r: Result<seq<Cue>, Exception>, ghost regionIds: seq<string>)
    ensures r.Err? <==> exists k :: k in outputs && k !in regionMap
    ensures r.Err? ==> r.error == NullPointerException
    ensures r.Ok? ==>
      && |r.value| == |regionIds| && Ascending(regionIds)
      && (forall k :: k in outputs <==> k in regionIds)
      && forall i :: 0 <= i < |regionIds| ==>
           regionIds[i] in regionMap && r.value[i] == CueOf(outputs[regionIds[i]], regionMap[regionIds[i]])
  {
    regionIds := [];
    var cues: seq<Cue> := [];
    var pending := outputs.Keys;
    while pending != {}
      invariant pending <= outputs.Keys
      invariant forall k :: k in outputs ==> (k in regionIds <==> k !in pending)
      invariant forall k :: k in regionIds ==> k in outputs
      invariant |cues| == |regionIds| && Ascending(regionIds)
      invariant forall i, k :: 0 <= i < |regionIds| && k in pending ==> StringLess(regionIds[i], k)
      invariant forall i :: 0 <= i < |regionIds| ==>
        regionIds[i] in regionMap && cues[i] == CueOf(outputs[regionIds[i]], regionMap[regionIds[i]])
      decreases |pending|
    {
      var id := LeastId(pending);
      if id !in regionMap {
        return Err(NullPointerException), regionIds;
      }
      var cue := RegionCue(outputs[id], regionMap[id]);
      AppendLeast(regionIds, pending, id);
      cues := cues + [cue];
      regionIds := regionIds + [id];
      pending := pending - {id};
    }
    return Ok(cues), regionIds;
  }

  /** Appending the least pending id keeps the ids ascending and below the rest. */
  lemma AppendLeast(ids: seq<string>, pending: set<string>, id: string)
    requires Ascending(ids) && id in pending
    requires forall i, k :: 0 <= i < |ids| && k in pending ==> StringLess(ids[i], k)
    requires forall x :: x in pending && x != id ==> StringLess(id, x)
    ensures Ascending(ids + [id])
    ensures forall i, k :: 0 <= i < |ids| + 1 && k in pending - {id} ==> StringLess((ids + [id])[i], k)
  {
  }

  /** The body of the cue loop for one region: the cleaned-up text and the region's placement. */
  method RegionCue(output: Accumulator, region: Region) returns (cue: Cue)
    ensures cue == CueOf(output, region)
  {
    var cleaned := CleanUpText(output.text);
    var placement: Option<Placement> := None;
    if region.geometry.Some? {
      var g := region.geometry.value;
      placement := Some(Placement(LineYValue(g), g.lineAnchor, LineXValue(g.x), g.textSize, LineXValue(g.width)));
    }
    cue := Cue(cleaned, output.spans, output.image, placement);
  }
}
