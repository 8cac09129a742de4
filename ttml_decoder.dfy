/**
 * The document builder (`TtmlDecoder.decode`): the per-element rules of `parseNode`, the
 * head section (`parseHeader`) and the event loop with its node stack and its counter of
 * unsupported elements.
 */
module TtmlDecoder {
  import opened Wrappers
  import opened JavaText
  import opened JavaNumbers
  import opened XmlEvents
  import opened TtmlParameters
  import opened TtmlTime
  import TtmlStyle
  import opened TtmlRegion
  import opened TtmlMetadata
  import opened TtmlNode
  import opened TtmlTraversal
  import TtmlCues

  const ATTR_BEGIN: string := "begin"
  const ATTR_DURATION: string := "dur"
  const ATTR_END: string := "end"
  const ATTR_STYLE: string := "style"
  const ATTR_REGION: string := "region"

  /** `isSupportedTag`: the elements the decoder builds or reads; any other element is skipped with its subtree. */
  predicate IsSupportedTag(tag: string)
    ensures tag == TAG_BODY || tag == TAG_DIV || tag == TAG_P || tag == TAG_SPAN || tag == TAG_BR ==> IsSupportedTag(tag)
    ensures tag == TAG_METADATA || tag == TAG_SMPTE_IMAGE ==> IsSupportedTag(tag)
    ensures tag == "" ==> !IsSupportedTag(tag)
  {
    tag in {TAG_TT, TAG_HEAD, TAG_BODY, TAG_DIV, TAG_P, TAG_SPAN, TAG_BR, TAG_STYLE, TAG_STYLING, TAG_LAYOUT,
            TAG_REGION, TAG_METADATA, TAG_SMPTE_IMAGE, TAG_SMPTE_DATA, TAG_SMPTE_INFORMATION}
  }

  // ---------------------------------------------------------------------------------------
  // parseNode

  /** The locals of `parseNode`'s attribute loop. Times are in microseconds, TIME_UNSET when absent. */
  datatype NodeAttributes = NodeAttributes(
    startTime: int,
    endTime: int,
    duration: int,
    styleIds: Option<seq<string>>,
    regionId: string,
    backgroundImageId: Option<string>)

  const NO_ATTRIBUTES: NodeAttributes := NodeAttributes(TIME_UNSET, TIME_UNSET, TIME_UNSET, None, ANONYMOUS_REGION_ID, None)

  predicate IsTimeAttribute(name: string) {
    name == ATTR_BEGIN || name == ATTR_END || name == ATTR_DURATION
  }

  /** A time attribute whose value `parseTimeExpression` rejects. */
  predicate TimeFails(a: Attr, rate: FrameAndTickRate) {
    IsTimeAttribute(a.name) && TimeExpression(a.value, rate).Err?
  }

  /** A `backgroundImage` value: ignored when empty, one leading `#` dropped. */
  function ImageReference(value: string): (r: Option<string>)
    ensures r.None? <==> value == ""
    ensures r.Some? && value[0] == '#' ==> value == "#" + r.value
    ensures r.Some? && value[0] != '#' ==> value == r.value
  {
    if |value| == 0 then None
    else if value[0] == '#' then Some(value[1..])
    else Some(value)
  }

  /** One iteration of `parseNode`'s attribute loop; a time that does not parse ends the loop with its exception. */
  function ApplyNodeAttribute(t: NodeAttributes, a: Attr, regionMap: map<string, Region>, rate: FrameAndTickRate)
    : Result<NodeAttributes, Exception>
  {
    if a.name == ATTR_BEGIN then
      var time :- TimeExpression(a.value, rate);
      Ok(t.(startTime := time))
    else if a.name == ATTR_END then
      var time :- TimeExpression(a.value, rate);
      Ok(t.(endTime := time))
    else if a.name == ATTR_DURATION then
      var time :- TimeExpression(a.value, rate);
      Ok(t.(duration := time))
    else if a.name == ATTR_STYLE then
      var ids := TtmlStyle.ParseStyleIds(a.value);
      Ok(if |ids| > 0 then t.(styleIds := Some(ids)) else t)
    else if a.name == ATTR_REGION then
      Ok(if a.value in regionMap then t.(regionId := a.value) else t)
    else if a.name == "backgroundImage" || a.name == "smpte:backgroundImage" then
      Ok(if ImageReference(a.value).Some? then t.(backgroundImageId := ImageReference(a.value)) else t)
    else Ok(t)
  }

  /** The attribute loop over `attrs`, in order: a region it keeps is always a declared one. */
  function NodeAttributesOf(attrs: seq<Attr>, regionMap: map<string, Region>, rate: FrameAndTickRate)
    : (r: Result<NodeAttributes, Exception>)
    ensures r.Ok? ==> r.value.regionId == ANONYMOUS_REGION_ID || r.value.regionId in regionMap
  {
    if attrs == [] then Ok(NO_ATTRIBUTES)
    else
      var t :- NodeAttributesOf(attrs[..|attrs| - 1], regionMap, rate);
      ApplyNodeAttribute(t, attrs[|attrs| - 1], regionMap, rate)
  }

  /** After a loop that has not failed, one more attribute fails it exactly when it is a time that does not parse. */
  lemma AttributeStepFails(attrs: seq<Attr>, regionMap: map<string, Region>, rate: FrameAndTickRate)
    requires attrs != [] && NodeAttributesOf(attrs[..|attrs| - 1], regionMap, rate).Ok?
    ensures var r := NodeAttributesOf(attrs, regionMap, rate);
      && (r.Err? <==> TimeFails(attrs[|attrs| - 1], rate))
      && (r.Err? ==> r.error == TimeExpression(attrs[|attrs| - 1].value, rate).error)
  {
  }

  /** A time attribute that does not parse fails the loop, wherever it stands. */
  lemma {:induction false} BadTimeFailsLoop(attrs: seq<Attr>, k: nat, regionMap: map<string, Region>, rate: FrameAndTickRate)
    requires k < |attrs| && TimeFails(attrs[k], rate)
    ensures NodeAttributesOf(attrs, regionMap, rate).Err?
  {
    var init := attrs[..|attrs| - 1];
    if k < |init| {
      assert init[k] == attrs[k];
      BadTimeFailsLoop(init, k, regionMap, rate);
    } else if NodeAttributesOf(init, regionMap, rate).Ok? {
      AttributeStepFails(attrs, regionMap, rate);
    }
  }

  /** A failed loop failed at the first time attribute that does not parse, with its exception. */
  lemma {:induction false} FirstBadTime(attrs: seq<Attr>, regionMap: map<string, Region>, rate: FrameAndTickRate)
    requires NodeAttributesOf(attrs, regionMap, rate).Err?
    ensures exists i :: 0 <= i < |attrs| && TimeFails(attrs[i], rate)
                        && NodeAttributesOf(attrs, regionMap, rate).error == TimeExpression(attrs[i].value, rate).error
                        && forall j :: 0 <= j < i ==> !TimeFails(attrs[j], rate)
  {
    var init := attrs[..|attrs| - 1];
    var last := |attrs| - 1;
    if NodeAttributesOf(init, regionMap, rate).Err? {
      FirstBadTime(init, regionMap, rate);
      var i :| 0 <= i < |init| && TimeFails(init[i], rate)
              && NodeAttributesOf(init, regionMap, rate).error == TimeExpression(init[i].value, rate).error
              && forall j :: 0 <= j < i ==> !TimeFails(init[j], rate);
      assert attrs[i] == init[i];
      assert forall j :: 0 <= j < i ==> attrs[j] == init[j];
    } else {
      AttributeStepFails(attrs, regionMap, rate);
      forall j | 0 <= j < last
        ensures !TimeFails(attrs[j], rate)
      {
        assert attrs[j] == init[j];
        if TimeFails(attrs[j], rate) {
          BadTimeFailsLoop(init, j, regionMap, rate);
        }
      }
    }
  }

  /**
   * The attribute loop fails exactly when some time attribute does not parse, and then with
   * the exception of the first such attribute.
   */
  lemma AttributeLoopFails(attrs: seq<Attr>, regionMap: map<string, Region>, rate: FrameAndTickRate)
    ensures var r := NodeAttributesOf(attrs, regionMap, rate);
      && (r.Err? <==> exists i :: 0 <= i < |attrs| && TimeFails(attrs[i], rate))
      && (r.Err? ==> exists i :: 0 <= i < |attrs| && TimeFails(attrs[i], rate)
                                && r.error == TimeExpression(attrs[i].value, rate).error
                                && forall j :: 0 <= j < i ==> !TimeFails(attrs[j], rate))
  {
    if NodeAttributesOf(attrs, regionMap, rate).Err? {
      FirstBadTime(attrs, regionMap, rate);
    } else if k :| 0 <= k < |attrs| && TimeFails(attrs[k], rate) {
      BadTimeFailsLoop(attrs, k, regionMap, rate);
    }
  }

  /**
   * The time rules after the loop: a set begin and end are shifted by the parent's set
   * start; an unset end becomes start + dur when dur is set (even when start is unset), or
   * else the parent's set end.
   */
  function NormalizedTimes(parent: Option<Node>, t: NodeAttributes): (int, int)
  {
    var shift := parent.Some? && parent.value.startTimeUs != TIME_UNSET;
    var start := if shift && t.startTime != TIME_UNSET then Wrap64(t.startTime + parent.value.startTimeUs) else t.startTime;
    var end := if shift && t.endTime != TIME_UNSET then Wrap64(t.endTime + parent.value.startTimeUs) else t.endTime;
    if end != TIME_UNSET then (start, end)
    else if t.duration != TIME_UNSET then (start, Wrap64(start + t.duration))
    else if parent.Some? && parent.value.endTimeUs != TIME_UNSET then (start, parent.value.endTimeUs)
    else (start, TIME_UNSET)
  }

  /** `parseNode`: the element's style, its attributes and its normalised times, or the exception of a bad time. */
  function NodeOf(name: string, attrs: seq<Attr>, parent: Option<Node>, regionMap: map<string, Region>,
                  rate: FrameAndTickRate, parseColor: string -> Option<int>): (r: Result<Node, Exception>)
    ensures r.Err? <==> NodeAttributesOf(attrs, regionMap, rate).Err?
    ensures r.Err? ==> r.error == NodeAttributesOf(attrs, regionMap, rate).error
    ensures r.Ok? ==> r.value.HasTag(name) && !r.value.IsTextNode() && r.value.children == []
    ensures r.Ok? ==> r.value.regionId == ANONYMOUS_REGION_ID || r.value.regionId in regionMap
  {
    var t :- NodeAttributesOf(attrs, regionMap, rate);
    var (start, end) := NormalizedTimes(parent, t);
    Ok(BuildNode(name, start, end, TtmlStyle.StyleAttributes(attrs, name, None, parseColor),
                 t.styleIds, t.regionId, t.backgroundImageId))
  }

  /** Once the attribute loop has failed, later attributes do not change the outcome. */
  lemma {:induction false} FailureSticks(attrs: seq<Attr>, i: nat, regionMap: map<string, Region>, rate: FrameAndTickRate)
    requires i <= |attrs|
    requires NodeAttributesOf(attrs[..i], regionMap, rate).Err?
    ensures NodeAttributesOf(attrs, regionMap, rate) == NodeAttributesOf(attrs[..i], regionMap, rate)
    decreases |attrs| - i
  {
    if i < |attrs| {
      assert attrs[..i + 1][..i] == attrs[..i];
      FailureSticks(attrs, i + 1, regionMap, rate);
    } else {
      assert attrs[..i] == attrs;
    }
  }

  /** One pass of the attribute loop's switch. */
  method ApplyAttribute(t: NodeAttributes, a: Attr, regionMap: map<string, Region>, rate: FrameAndTickRate)
    returns (r: Result<NodeAttributes, Exception>)
    ensures r == ApplyNodeAttribute(t, a, regionMap, rate)
  {
    r := Ok(t);
    if IsTimeAttribute(a.name) {
      var time := ParseTimeExpression(a.value, rate);
      if time.Err? {
        return Err(time.error);
      }
      if a.name == ATTR_BEGIN {
        r := Ok(t.(startTime := time.value));
      } else if a.name == ATTR_END {
        r := Ok(t.(endTime := time.value));
      } else {
        r := Ok(t.(duration := time.value));
      }
    } else if a.name == ATTR_STYLE {
      var ids := TtmlStyle.ParseStyleIds(a.value);
      if |ids| > 0 {
        r := Ok(t.(styleIds := Some(ids)));
      }
    } else if a.name == ATTR_REGION {
      if a.value in regionMap {
        r := Ok(t.(regionId := a.value));
      }
    } else if a.name == "backgroundImage" || a.name == "smpte:backgroundImage" {
      if |a.value| > 0 {
        if a.value[0] == '#' {
          r := Ok(t.(backgroundImageId := Some(a.value[1..])));
        } else {
          r := Ok(t.(backgroundImageId := Some(a.value)));
        }
      }
    }
  }

  /** The attribute loop of `parseNode`, leaving at the first time that does not parse. */
  method ParseNodeAttributes(attrs: seq<Attr>, regionMap: map<string, Region>, rate: FrameAndTickRate)
    returns (r: Result<NodeAttributes, Exception>)
    ensures r == NodeAttributesOf(attrs, regionMap, rate)
  {
    var t := NO_ATTRIBUTES;
    for i := 0 to |attrs|
      invariant NodeAttributesOf(attrs[..i], regionMap, rate) == Ok(t)
    {
      assert attrs[..i + 1][..i] == attrs[..i];
      var next := ApplyAttribute(t, attrs[i], regionMap, rate);
      if next.Err? {
        FailureSticks(attrs, i + 1, regionMap, rate);
        return next;
      }
      t := next.value;
    }
    assert attrs[..|attrs|] == attrs;
    r := Ok(t);
  }

  /** The time rules of `parseNode` after its attribute loop. */
  method NormalizeTimes(parent: Option<Node>, t: NodeAttributes) returns (startTime: int, endTime: int)
    ensures (startTime, endTime) == NormalizedTimes(parent, t)
  {
    startTime := t.startTime;
    endTime := t.endTime;
    if parent.Some? && parent.value.startTimeUs != TIME_UNSET {
      if startTime != TIME_UNSET {
        startTime := Wrap64(startTime + parent.value.startTimeUs);
      }
      if endTime != TIME_UNSET {
        endTime := Wrap64(endTime + parent.value.startTimeUs);
      }
    }
    if endTime == TIME_UNSET {
      if t.duration != TIME_UNSET {
        endTime := Wrap64(startTime + t.duration);
      } else if parent.Some? && parent.value.endTimeUs != TIME_UNSET {
        endTime := parent.value.endTimeUs;
      }
    }
  }

  /** `parseNode`: the style attributes, the attribute loop, then the time rules as the source writes them. */
  method ParseNode(name: string, attrs: seq<Attr>, parent: Option<Node>, regionMap: map<string, Region>,
                   rate: FrameAndTickRate, parseColor: string -> Option<int>) returns (r: Result<Node, Exception>)
    ensures r == NodeOf(name, attrs, parent, regionMap, rate, parseColor)
  {
    var style := TtmlStyle.ParseStyleAttributes(attrs, name, None, parseColor);
    var parsed := ParseNodeAttributes(attrs, regionMap, rate);
    if parsed.Err? {
      return Err(parsed.error);
    }
    var t := parsed.value;
    var startTime, endTime := NormalizeTimes(parent, t);
    r := Ok(BuildNode(name, startTime, endTime, style, t.styleIds, t.regionId, t.backgroundImageId));
  }

  // ---------------------------------------------------------------------------------------
  // what parseNode promises

  lemma {:induction false} RegionIdFrom(attrs: seq<Attr>, i: nat, regionMap: map<string, Region>, rate: FrameAndTickRate)
    requires i <= |attrs|
    requires forall j :: i <= j < |attrs| ==> attrs[j].name != ATTR_REGION
    requires NodeAttributesOf(attrs, regionMap, rate).Ok?
    ensures NodeAttributesOf(attrs[..i], regionMap, rate).Ok?
    ensures NodeAttributesOf(attrs, regionMap, rate).value.regionId == NodeAttributesOf(attrs[..i], regionMap, rate).value.regionId
  {
    if i == |attrs| {
      assert attrs[..i] == attrs;
    } else {
      var init := attrs[..|attrs| - 1];
      assert init[..i] == attrs[..i];
      RegionIdFrom(init, i, regionMap, rate);
    }
  }

  /**
   * A node with one `region` attribute is in that region when it has been declared, and in
   * the anonymous region otherwise.
   */
  lemma RegionReference(attrs: seq<Attr>, k: nat, regionMap: map<string, Region>, rate: FrameAndTickRate)
    requires k < |attrs| && attrs[k].name == ATTR_REGION
    requires forall j :: 0 <= j < |attrs| && j != k ==> attrs[j].name != ATTR_REGION
    requires NodeAttributesOf(attrs, regionMap, rate).Ok?
    ensures NodeAttributesOf(attrs, regionMap, rate).value.regionId ==
      if attrs[k].value in regionMap then attrs[k].value else ANONYMOUS_REGION_ID
  {
    RegionIdFrom(attrs, k + 1, regionMap, rate);
    var upTo := attrs[..k + 1];
    assert upTo[..k] == attrs[..k];
    RegionIdFrom(attrs[..k], 0, regionMap, rate);
    assert attrs[..k][..0] == [];
  }

  /**
   * With a timed parent, a child's begin and end count from the parent's begin (a shifted end
   * that lands on the TIME_UNSET sentinel counts as unset).
   */
  lemma TimesRelativeToParent(parent: Node, t: NodeAttributes)
    requires parent.startTimeUs != TIME_UNSET && t.startTime != TIME_UNSET && t.endTime != TIME_UNSET
    requires LONG_MIN <= parent.startTimeUs + t.startTime <= LONG_MAX
    requires LONG_MIN <= parent.startTimeUs + t.endTime <= LONG_MAX && parent.startTimeUs + t.endTime != TIME_UNSET
    ensures NormalizedTimes(Some(parent), t) == (parent.startTimeUs + t.startTime, parent.startTimeUs + t.endTime)
  {
  }

  /** Without a parent, or under an untimed one, begin and end are taken as they are. */
  lemma TimesAbsolute(parent: Option<Node>, t: NodeAttributes)
    requires parent.None? || parent.value.startTimeUs == TIME_UNSET
    requires t.endTime != TIME_UNSET
    ensures NormalizedTimes(parent, t) == (t.startTime, t.endTime)
  {
  }

  /** Without an end, a duration ends the node that long after its (normalised) begin. */
  lemma EndFromDuration(parent: Option<Node>, t: NodeAttributes)
    requires t.endTime == TIME_UNSET && t.duration != TIME_UNSET
    requires LONG_MIN <= NormalizedTimes(parent, t).0 + t.duration <= LONG_MAX
    ensures NormalizedTimes(parent, t).1 - NormalizedTimes(parent, t).0 == t.duration
  {
  }

  /** Without an end and a duration, a node ends with its parent, or stays open-ended. */
  lemma EndInherited(parent: Option<Node>, t: NodeAttributes)
    requires t.endTime == TIME_UNSET && t.duration == TIME_UNSET
    ensures NormalizedTimes(parent, t).1 == if parent.Some? then parent.value.endTimeUs else TIME_UNSET
  {
  }

  /**
   * A duration without a begin is added to the TIME_UNSET sentinel itself: the node ends
   * before time zero and is never active at a non-negative time.
   */
  lemma DurationWithoutBegin(parent: Option<Node>, t: NodeAttributes, tag: string, timeUs: int)
    requires t.startTime == TIME_UNSET && t.endTime == TIME_UNSET
    requires 0 < t.duration < LONG_MAX && 0 <= timeUs
    ensures NormalizedTimes(parent, t) == (TIME_UNSET, TIME_UNSET + t.duration)
    ensures var (start, end) := NormalizedTimes(parent, t);
      !IsActive(BuildNode(tag, start, end, None, None, ANONYMOUS_REGION_ID, None), timeUs)
  {
  }

  // ---------------------------------------------------------------------------------------
  // parseHeader

  /** The tables the head fills: global styles, declared regions and the image table, if any. */
  datatype Head = Head(globalStyles: map<string, TtmlStyle.Style>, regionMap: map<string, Region>, metadata: Images)

  /** The functions the decoder calls but whose code is not part of this model. */
  datatype Externals = Externals(
    parseColor: string -> Option<int>,
    decodeImage: string -> ImageDecoding,
    spacePolicy: string -> string)

  /**
   * The rest of `parseHeader` from position `p`, the event after the last `next()`: style,
   * region and metadata elements are read until the `head` end tag, whose position is
   * returned. Declared regions are only ever added.
   */
  function HeaderFrom(events: seq<Event>, p: nat, head: Head, cellResolution: CellResolution, x: Externals)
    : (r: Result<(Head, nat), Exception>)
    decreases |events| - p
    ensures r.Ok? ==> p <= r.value.1 < |events| && IsEndTag(events[r.value.1], TAG_HEAD)
    ensures r.Ok? ==> head.regionMap.Keys <= r.value.0.regionMap.Keys
  {
    if p >= |events| || events[p].Malformed? then Err(XmlPullParserException)
    else
      var (next, q) :- HeaderElement(events, p, head, cellResolution, x);
      if IsEndTag(events[q], TAG_HEAD) then Ok((next, q))
      else HeaderFrom(events, q + 1, next, cellResolution, x)
  }

  /**
   * One pass of `parseHeader`'s loop body for the event at `p`: the tables after it and the
   * position of the last event read (the `metadata` end tag for a metadata element).
   */
  function HeaderElement(events: seq<Event>, p: nat, head: Head, cellResolution: CellResolution, x: Externals)
    : (r: Result<(Head, nat), Exception>)
    requires p < |events|
    ensures r.Ok? ==> p <= r.value.1 < |events|
    ensures r.Ok? ==> head.regionMap.Keys <= r.value.0.regionMap.Keys
  {
    var e := events[p];
    if IsStartTag(e, TAG_STYLE) then
      Ok((head.(globalStyles := TtmlStyle.DeclareStyle(e.attrs, head.globalStyles, x.parseColor)), p))
    else if IsStartTag(e, TAG_REGION) then
      var region := ParseRegionAttributes(e.attrs, cellResolution);
      Ok((if region.Some? then head.(regionMap := head.regionMap[region.value.id := region.value]) else head, p))
    else if IsStartTag(e, TAG_METADATA) then
      var (images, close) :- MetadataFrom(events, p + 1, map[], x.decodeImage);
      Ok((head.(metadata := Some(images)), close))
    else Ok((head, p))
  }

  /** The loop body of `parseHeader`, filling the maps in place. */
  method ReadHeaderElement(events: seq<Event>, p: nat, head: Head, cellResolution: CellResolution, x: Externals)
    returns (r: Result<(Head, nat), Exception>)
    requires p < |events|
    ensures r == HeaderElement(events, p, head, cellResolution, x)
  {
    var e := events[p];
    r := Ok((head, p));
    if IsStartTag(e, TAG_STYLE) {
      r := Ok((head.(globalStyles := TtmlStyle.DeclareStyle(e.attrs, head.globalStyles, x.parseColor)), p));
    } else if IsStartTag(e, TAG_REGION) {
      var region := ParseRegionAttributes(e.attrs, cellResolution);
      if region.Some? {
        r := Ok((head.(regionMap := head.regionMap[region.value.id := region.value]), p));
      }
    } else if IsStartTag(e, TAG_METADATA) {
      var table, close := ParseMetadata(events, p, x.decodeImage);
      if close.Err? {
        return Err(close.error);
      }
      r := Ok((head.(metadata := Some(table.images)), close.value));
    }
  }

  /** `parseHeader` for the `head` start tag at `start`: a do-while loop over the events that follow it. */
  method ParseHeader(events: seq<Event>, start: nat, globalStyles: map<string, TtmlStyle.Style>,
                     regionMap: map<string, Region>, cellResolution: CellResolution, x: Externals)
    returns (r: Result<(Head, nat), Exception>)
    ensures r == HeaderFrom(events, start + 1, Head(globalStyles, regionMap, None), cellResolution, x)
  {
    var head := Head(globalStyles, regionMap, None);
    var p := start + 1;
    while true
      invariant HeaderFrom(events, p, head, cellResolution, x)
             == HeaderFrom(events, start + 1, Head(globalStyles, regionMap, None), cellResolution, x)
      decreases |events| - p
    {
      if p >= |events| || events[p].Malformed? {
        return Err(XmlPullParserException);
      }
      var read := ReadHeaderElement(events, p, head, cellResolution, x);
      if read.Err? {
        return Err(read.error);
      }
      var q := read.value.1;
      head := read.value.0;
      if IsEndTag(events[q], TAG_HEAD) {
        return Ok((head, q));
      }
      p := q + 1;
    }
  }

  // ---------------------------------------------------------------------------------------
  // decode

  /** What `decode` hands to the TtmlSubtitle it returns: the root node (null when the stack is empty) and the tables. */
  datatype Subtitle = Subtitle(root: Option<Node>, globalStyles: map<string, TtmlStyle.Style>,
                               regionMap: map<string, Region>, metadata: Images)

  /**
   * The locals of `decode`'s event loop. The top of `nodeStack` is its last element; a node
   * becomes its parent's last child when it is popped.
   */
  datatype Decoder = Decoder(
    nodeStack: seq<Node>,
    unsupportedNodeDepth: nat,
    head: Head,
    frameAndTickRate: FrameAndTickRate,
    cellResolution: CellResolution,
    subtitle: Option<Subtitle>)

  /** The state before the first event: an empty stack and only the anonymous region declared. */
  const INITIAL: Decoder :=
    Decoder([], 0, Head(map[], map[ANONYMOUS_REGION_ID := ANONYMOUS_REGION], None),
            DEFAULT_FRAME_AND_TICK_RATE, DEFAULT_CELL_RESOLUTION, None)

  /** `nodeStack.peek()`: null on an empty stack. */
  function Peek(stack: seq<Node>): Option<Node> {
    if stack == [] then None else Some(stack[|stack| - 1])
  }

  /** `parent.addChild(child)` on the top of the stack. */
  function AddToTop(stack: seq<Node>, child: Node): (r: seq<Node>)
    requires stack != []
  {
    stack[..|stack| - 1] + [AddChild(stack[|stack| - 1], child)]
  }

  /** `nodeStack.pop()`, the popped node joining the children of the node below it. */
  function Pop(stack: seq<Node>): (r: seq<Node>)
    requires stack != []
    ensures |r| == |stack| - 1
    ensures |stack| >= 2 ==> r[..|r| - 1] == stack[..|stack| - 2]
    ensures |stack| >= 2 ==> r[|r| - 1] == AddChild(stack[|stack| - 2], stack[|stack| - 1])
  {
    var rest := stack[..|stack| - 1];
    if rest == [] then [] else AddToTop(rest, stack[|stack| - 1])
  }

  /** The counter while a subtree is skipped: start tags open, end tags close. */
  function SkipDepth(depth: nat, e: Event): nat
    requires depth > 0
  {
    if e.StartTag? then depth + 1 else if e.EndTag? then depth - 1 else depth
  }

  /**
   * A start tag outside skipped subtrees: `tt` sets the document parameters; an unsupported
   * element, or one whose `parseNode` throws SubtitleDecoderException, starts a skipped
   * subtree; `head` is read to its end tag; any other element is pushed.
   */
  function StartElement(events: seq<Event>, p: nat, d: Decoder, x: Externals): (r: Result<(Decoder, nat), Exception>)
    requires p < |events| && events[p].StartTag?
    ensures r.Ok? ==> p <= r.value.1 < |events|
  {
    var d1 :- DocumentParameters(events[p], d);
    var name := events[p].name;
    if !IsSupportedTag(name) then Ok((d1.(unsupportedNodeDepth := d1.unsupportedNodeDepth + 1), p))
    else if name == TAG_HEAD then
      var (head, q) :- HeaderFrom(events, p + 1, d1.head.(metadata := None), d1.cellResolution, x);
      Ok((d1.(head := head), q))
    else PushNode(events[p], p, d1, x)
  }

  /** The `tt` start tag sets the frame and tick rates and the cell resolution; errors escape. */
  function DocumentParameters(e: Event, d: Decoder): (r: Result<Decoder, Exception>)
    requires e.StartTag?
    ensures e.name != TAG_TT ==> r == Ok(d)
    ensures r.Ok? ==> r.value == d.(frameAndTickRate := r.value.frameAndTickRate, cellResolution := r.value.cellResolution)
  {
    if e.name == TAG_TT then
      var rate :- ParseFrameAndTickRates(e.attrs);
      var cells :- ParseCellResolution(e.attrs, DEFAULT_CELL_RESOLUTION);
      Ok(d.(frameAndTickRate := rate, cellResolution := cells))
    else Ok(d)
  }

  /** A supported element other than `head`: pushed, or skipped when a time does not parse. */
  function PushNode(e: Event, p: nat, d: Decoder, x: Externals): (r: Result<(Decoder, nat), Exception>)
    requires e.StartTag?
    ensures r.Ok? ==> r.value.1 == p
  {
    match NodeOf(e.name, e.attrs, Peek(d.nodeStack), d.head.regionMap, d.frameAndTickRate, x.parseColor)
    case Ok(node) => Ok((d.(nodeStack := d.nodeStack + [node]), p))
    case Err(error) =>
      if error == SubtitleDecoderException then Ok((d.(unsupportedNodeDepth := d.unsupportedNodeDepth + 1), p))
      else Err(error)
  }

  /**
   * One iteration of the event loop for the event at `p`; it returns the new state and the
   * position of the last event it read (further than `p` only for a `head` element).
   */
  function Step(events: seq<Event>, p: nat, d: Decoder, x: Externals): (r: Result<(Decoder, nat), Exception>)
    requires p < |events|
    ensures r.Ok? ==> p <= r.value.1 < |events|
  {
    var e := events[p];
    if e.Malformed? then Err(XmlPullParserException)
    else if d.unsupportedNodeDepth > 0 then Ok((d.(unsupportedNodeDepth := SkipDepth(d.unsupportedNodeDepth, e)), p))
    else if e.StartTag? then StartElement(events, p, d, x)
    else if e.Text? then
      if d.nodeStack == [] then Err(NullPointerException)
      else Ok((d.(nodeStack := AddToTop(d.nodeStack, BuildTextNode(x.spacePolicy(e.text)))), p))
    else
      var subtitle :=
        if e.name == TAG_TT then Some(Subtitle(Peek(d.nodeStack), d.head.globalStyles, d.head.regionMap, d.head.metadata))
        else d.subtitle;
      if d.nodeStack == [] then Err(NoSuchElementException)
      else Ok((d.(nodeStack := Pop(d.nodeStack), subtitle := subtitle), p))
  }

  /** The event loop from position `p` to the end of the document. */
  function Run(events: seq<Event>, p: nat, d: Decoder, x: Externals): Result<Option<Subtitle>, Exception>
    decreases |events| - p
  {
    if p >= |events| then Ok(d.subtitle)
    else
      var step := Step(events, p, d, x);
      if step.Err? then Err(step.error) else Run(events, step.value.1 + 1, step.value.0, x)
  }

  /**
   * `decode`: the event loop from the initial state. A tokenizer failure surfaces as
   * SubtitleDecoderException; every other exception escapes as it is.
   */
  function DecodeEvents(events: seq<Event>, x: Externals): (r: Result<Option<Subtitle>, Exception>)
    ensures r.Err? ==> r.error != XmlPullParserException
    ensures Run(events, 0, INITIAL, x).Err? <==> r.Err?
    ensures Run(events, 0, INITIAL, x).Err? ==>
              r.error == (if Run(events, 0, INITIAL, x).error == XmlPullParserException then SubtitleDecoderException
                          else Run(events, 0, INITIAL, x).error)
    ensures Run(events, 0, INITIAL, x).Ok? ==> r == Run(events, 0, INITIAL, x)
  {
    var run := Run(events, 0, INITIAL, x);
    if run.Err? && run.error == XmlPullParserException then Err(SubtitleDecoderException) else run
  }

  /** A start tag, as the source handles it. */
  method OpenElement(events: seq<Event>, p: nat, d: Decoder, x: Externals) returns (r: Result<(Decoder, nat), Exception>)
    requires p < |events| && events[p].StartTag?
    ensures r == StartElement(events, p, d, x)
  {
    var name := events[p].name;
    var parameters := DocumentParameters(events[p], d);
    if parameters.Err? {
      return Err(parameters.error);
    }
    var state := parameters.value;
    if !IsSupportedTag(name) {
      return Ok((state.(unsupportedNodeDepth := state.unsupportedNodeDepth + 1), p));
    }
    if name == TAG_HEAD {
      var header := ParseHeader(events, p, state.head.globalStyles, state.head.regionMap, state.cellResolution, x);
      if header.Err? {
        return Err(header.error);
      }
      return Ok((state.(head := header.value.0), header.value.1));
    }
    r := OpenNode(events[p], p, state, x);
  }

  /** `parseNode` under a try that turns SubtitleDecoderException into a skipped subtree. */
  method OpenNode(e: Event, p: nat, d: Decoder, x: Externals) returns (r: Result<(Decoder, nat), Exception>)
    requires e.StartTag?
    ensures r == PushNode(e, p, d, x)
  {
    var node := ParseNode(e.name, e.attrs, Peek(d.nodeStack), d.head.regionMap, d.frameAndTickRate, x.parseColor);
    if node.Ok? {
      r := Ok((d.(nodeStack := d.nodeStack + [node.value]), p));
    } else if node.error == SubtitleDecoderException {
      r := Ok((d.(unsupportedNodeDepth := d.unsupportedNodeDepth + 1), p));
    } else {
      r := Err(node.error);
    }
  }

  /** The body of `decode`'s loop for the event at `p`. */
  method Advance(events: seq<Event>, p: nat, d: Decoder, x: Externals) returns (r: Result<(Decoder, nat), Exception>)
    requires p < |events|
    ensures r == Step(events, p, d, x)
    ensures r.Ok? ==> p <= r.value.1 < |events|
  {
    var e := events[p];
    if e.Malformed? {
      return Err(XmlPullParserException);
    }
    if d.unsupportedNodeDepth > 0 {
      return Ok((d.(unsupportedNodeDepth := SkipDepth(d.unsupportedNodeDepth, e)), p));
    }
    if e.StartTag? {
      r := OpenElement(events, p, d, x);
    } else if e.Text? {
      if d.nodeStack == [] {
        return Err(NullPointerException);
      }
      r := Ok((d.(nodeStack := AddToTop(d.nodeStack, BuildTextNode(x.spacePolicy(e.text)))), p));
    } else {
      var state := d;
      if e.name == TAG_TT {
        state := state.(subtitle := Some(Subtitle(Peek(d.nodeStack), d.head.globalStyles, d.head.regionMap, d.head.metadata)));
      }
      if d.nodeStack == [] {
        return Err(NoSuchElementException);
      }
      r := Ok((state.(nodeStack := Pop(d.nodeStack)), p));
    }
  }

  /** A step that succeeds hands the rest of the document to the loop in the new state. */
  lemma RunContinues(events: seq<Event>, p: nat, d: Decoder, x: Externals, next: Decoder, q: nat)
    requires p < |events| && Step(events, p, d, x) == Ok((next, q))
    ensures Run(events, p, d, x) == Run(events, q + 1, next, x)
  {
    var step := Step(events, p, d, x);
  }

  /** A step that fails ends the loop with its exception. */
  lemma RunStops(events: seq<Event>, p: nat, d: Decoder, x: Externals, e: Exception)
    requires p < |events| && Step(events, p, d, x) == Err(e)
    ensures Run(events, p, d, x) == Err(e)
  {
  }

  /** The event loop of `decode` from position `start` in state `d`. */
  method EventLoop(events: seq<Event>, start: nat, d: Decoder, x: Externals) returns (r: Result<Option<Subtitle>, Exception>)
    ensures r == Run(events, start, d, x)
  {
    var state := d;
    var p := start;
    ghost var goal := Run(events, start, d, x);
    while p < |events|
      invariant Run(events, p, state, x) == goal
      decreases |events| - p
    {
      var step := Advance(events, p, state, x);
      if step.Err? {
        RunStops(events, p, state, x, step.error);
        return Err(step.error);
      }
      RunContinues(events, p, state, x, step.value.0, step.value.1);
      state, p := step.value.0, step.value.1 + 1;
    }
    r := Ok(state.subtitle);
  }

  /** `decode`: the event loop from the initial state, a tokenizer failure rethrown as SubtitleDecoderException. */
  method Decode(events: seq<Event>, x: Externals) returns (r: Result<Option<Subtitle>, Exception>)
    ensures r == DecodeEvents(events, x)
  {
    r := EventLoop(events, 0, INITIAL, x);
    if r.Err? && r.error == XmlPullParserException {
      r := Err(SubtitleDecoderException);
    }
  }

  // ---------------------------------------------------------------------------------------
  // what decode promises

  /**
   * From `p` with skip counter `depth`, the skipped subtree ends just before `q`: no event in
   * between is malformed and the counter first reaches zero at `q`.
   */
  predicate ClosesAt(events: seq<Event>, p: nat, depth: nat, q: nat)
    decreases q - p
  {
    && p <= q <= |events|
    && if p == q then depth == 0
       else depth > 0 && !events[p].Malformed? && ClosesAt(events, p + 1, SkipDepth(depth, events[p]), q)
  }

  /** While the counter is non-zero, events only move the counter: no node is built, attached or popped. */
  lemma {:induction false} SkippedEvents(events: seq<Event>, p: nat, d: Decoder, q: nat, x: Externals)
    requires ClosesAt(events, p, d.unsupportedNodeDepth, q)
    ensures Run(events, p, d, x) == Run(events, q, d.(unsupportedNodeDepth := 0), x)
    decreases q - p
  {
    if p < q {
      var next := d.(unsupportedNodeDepth := SkipDepth(d.unsupportedNodeDepth, events[p]));
      assert Step(events, p, d, x) == Ok((next, p));
      SkippedEvents(events, p + 1, next, q, x);
      assert next.(unsupportedNodeDepth := 0) == d.(unsupportedNodeDepth := 0);
    }
  }

  /**
   * An element other than `tt` that is unsupported, or whose times do not parse, is passed
   * over with its whole subtree: the loop resumes after its end tag in the state it had
   * before its start tag.
   */
  lemma SkippedElement(events: seq<Event>, p: nat, d: Decoder, q: nat, x: Externals)
    requires p < |events| && events[p].StartTag? && events[p].name != TAG_TT && d.unsupportedNodeDepth == 0
    requires || !IsSupportedTag(events[p].name)
             || (&& events[p].name != TAG_HEAD
                 && NodeOf(events[p].name, events[p].attrs, Peek(d.nodeStack), d.head.regionMap, d.frameAndTickRate,
                           x.parseColor) == Err(SubtitleDecoderException))
    requires ClosesAt(events, p + 1, 1, q)
    ensures Run(events, p, d, x) == Run(events, q, d, x)
  {
    var next := d.(unsupportedNodeDepth := 1);
    assert Step(events, p, d, x) == Ok((next, p));
    SkippedEvents(events, p + 1, next, q, x);
    assert next.(unsupportedNodeDepth := 0) == d;
  }

  /**
   * The `tt` parameters are read outside the try around `parseNode`: when they throw, the
   * exception ends the loop as it is, where an element's bad time would only be skipped.
   */
  lemma TtParametersEscape(events: seq<Event>, p: nat, d: Decoder, x: Externals)
    requires p < |events| && events[p].StartTag? && events[p].name == TAG_TT && d.unsupportedNodeDepth == 0
    requires || ParseFrameAndTickRates(events[p].attrs).Err?
             || ParseCellResolution(events[p].attrs, DEFAULT_CELL_RESOLUTION).Err?
    ensures DocumentParameters(events[p], d).Err?
    ensures Run(events, p, d, x) == Err(DocumentParameters(events[p], d).error)
    ensures Run(events, p, d, x) == Err(if ParseFrameAndTickRates(events[p].attrs).Err?
                                        then ParseFrameAndTickRates(events[p].attrs).error
                                        else ParseCellResolution(events[p].attrs, DEFAULT_CELL_RESOLUTION).error)
  {
    var error := DocumentParameters(events[p], d).error;
    assert Step(events, p, d, x) == Err(error);
    RunStops(events, p, d, x, error);
  }

  /** A document whose `tt` element declares `ttp:cellResolution="0 15"` fails to decode. */
  lemma ZeroCellResolutionEscapes(events: seq<Event>, x: Externals)
    requires events != [] && events[0] == StartTag(TAG_TT, [Attr(TTP, "cellResolution", "0 15")])
    ensures DecodeEvents(events, x) == Err(SubtitleDecoderException)
  {
    ZeroCellResolutionExample(events[0].attrs);
    TtParametersEscape(events, 0, INITIAL, x);
  }

  /** A decoded subtitle declares the anonymous region, and every node of its tree names a declared region. */
  predicate SubtitleDeclared(s: Subtitle) {
    && ANONYMOUS_REGION_ID in s.regionMap
    && (s.root.Some? ==> RegionsIn(s.root.value, s.regionMap.Keys))
  }

  /** The loop invariant behind SubtitleDeclared. */
  predicate Declared(d: Decoder) {
    && ANONYMOUS_REGION_ID in d.head.regionMap
    && (forall k :: 0 <= k < |d.nodeStack| ==> RegionsIn(d.nodeStack[k], d.head.regionMap.Keys))
    && (d.subtitle.Some? ==> SubtitleDeclared(d.subtitle.value))
  }

  lemma {:induction false} RegionsInGrows(n: Node, ids: set<string>, more: set<string>)
    requires RegionsIn(n, ids) && ids <= more
    ensures RegionsIn(n, more)
    decreases n
  {
    forall k | 0 <= k < |n.children|
      ensures RegionsIn(n.children[k], more)
    {
      RegionsInGrows(n.children[k], ids, more);
    }
  }

  lemma AddChildDeclared(n: Node, child: Node, ids: set<string>)
    requires RegionsIn(n, ids) && RegionsIn(child, ids)
    ensures RegionsIn(AddChild(n, child), ids)
  {
    var r := AddChild(n, child);
    forall k | 0 <= k < |r.children|
      ensures RegionsIn(r.children[k], ids)
    {
      if k < |n.children| {
        assert r.children[k] == n.children[k];
      }
    }
  }

  lemma AddToTopDeclared(stack: seq<Node>, child: Node, ids: set<string>)
    requires stack != [] && RegionsIn(child, ids)
    requires forall k :: 0 <= k < |stack| ==> RegionsIn(stack[k], ids)
    ensures forall k :: 0 <= k < |AddToTop(stack, child)| ==> RegionsIn(AddToTop(stack, child)[k], ids)
  {
    AddChildDeclared(stack[|stack| - 1], child, ids);
  }

  lemma PushDeclared(e: Event, p: nat, d: Decoder, x: Externals)
    requires e.StartTag? && Declared(d) && PushNode(e, p, d, x).Ok?
    ensures Declared(PushNode(e, p, d, x).value.0)
  {
    var node := NodeOf(e.name, e.attrs, Peek(d.nodeStack), d.head.regionMap, d.frameAndTickRate, x.parseColor);
    if node.Ok? {
      assert RegionsIn(node.value, d.head.regionMap.Keys);
    }
  }

  lemma StackRegionsGrow(stack: seq<Node>, ids: set<string>, more: set<string>)
    requires forall k :: 0 <= k < |stack| ==> RegionsIn(stack[k], ids)
    requires ids <= more
    ensures forall k :: 0 <= k < |stack| ==> RegionsIn(stack[k], more)
  {
    forall k | 0 <= k < |stack|
      ensures RegionsIn(stack[k], more)
    {
      RegionsInGrows(stack[k], ids, more);
    }
  }

  lemma StartDeclared(events: seq<Event>, p: nat, d: Decoder, x: Externals)
    requires p < |events| && events[p].StartTag? && Declared(d)
    requires StartElement(events, p, d, x).Ok?
    ensures Declared(StartElement(events, p, d, x).value.0)
  {
    var e := events[p];
    var d1 := DocumentParameters(e, d).value;
    if !IsSupportedTag(e.name) {
      assert StartElement(events, p, d, x).value.0 == d1.(unsupportedNodeDepth := d1.unsupportedNodeDepth + 1);
    } else if e.name == TAG_HEAD {
      var header := HeaderFrom(events, p + 1, d1.head.(metadata := None), d1.cellResolution, x);
      assert header.Ok?;
      var head := header.value.0;
      assert StartElement(events, p, d, x).value.0 == d1.(head := head);
      StackRegionsGrow(d1.nodeStack, d1.head.regionMap.Keys, head.regionMap.Keys);
    } else {
      assert StartElement(events, p, d, x) == PushNode(e, p, d1, x);
      PushDeclared(e, p, d1, x);
    }
  }

  lemma StepDeclared(events: seq<Event>, p: nat, d: Decoder, x: Externals)
    requires p < |events| && Declared(d) && Step(events, p, d, x).Ok?
    ensures Declared(Step(events, p, d, x).value.0)
  {
    var e := events[p];
    var ids := d.head.regionMap.Keys;
    if d.unsupportedNodeDepth == 0 {
      if e.StartTag? {
        StartDeclared(events, p, d, x);
      } else if e.Text? {
        AddToTopDeclared(d.nodeStack, BuildTextNode(x.spacePolicy(e.text)), ids);
      } else {
        var rest := d.nodeStack[..|d.nodeStack| - 1];
        if rest != [] {
          AddToTopDeclared(rest, d.nodeStack[|d.nodeStack| - 1], ids);
        }
      }
    }
  }

  lemma {:induction false} RunDeclared(events: seq<Event>, p: nat, d: Decoder, x: Externals)
    requires Declared(d)
    ensures var r := Run(events, p, d, x); r.Ok? && r.value.Some? ==> SubtitleDeclared(r.value.value)
    decreases |events| - p
  {
    if p < |events| {
      var step := Step(events, p, d, x);
      if step.Ok? {
        StepDeclared(events, p, d, x);
        RunContinues(events, p, d, x, step.value.0, step.value.1);
        RunDeclared(events, step.value.1 + 1, step.value.0, x);
      } else {
        RunStops(events, p, d, x, step.error);
      }
    }
  }

  /**
   * `regionMap` always holds the anonymous region, and a node only keeps a region that was
   * declared before it: every node of a decoded tree names a region of the subtitle's map.
   */
  lemma DecodedRegionsDeclared(events: seq<Event>, x: Externals)
    ensures var r := DecodeEvents(events, x); r.Ok? && r.value.Some? ==> SubtitleDeclared(r.value.value)
  {
    RunDeclared(events, 0, INITIAL, x);
  }

  /**
   * So the cues of a decoded document with an image table can always be built: no pass
   * fails and every region with text is in the region map.
   */
  lemma DecodedCuesResolve(events: seq<Event>, x: Externals, timeUs: int, paragraphEnd: string -> string,
                           resolveStyle: (Option<TtmlStyle.Style>, Option<seq<string>>) -> Option<TtmlStyle.Style>)
    requires DecodeEvents(events, x).Ok? && DecodeEvents(events, x).value.Some?
    requires DecodeEvents(events, x).value.value.root.Some? && DecodeEvents(events, x).value.value.metadata.Some?
    ensures var s := DecodeEvents(events, x).value.value;
      var outputs := TtmlCues.RegionOutputs(s.root.value, timeUs, s.metadata, paragraphEnd, resolveStyle);
      outputs.Ok? && outputs.value.Keys <= s.regionMap.Keys
  {
    DecodedRegionsDeclared(events, x);
    var s := DecodeEvents(events, x).value.value;
    TtmlCues.QuerySucceeds(s.root.value, timeUs, s.regionMap, s.metadata, paragraphEnd, resolveStyle);
  }
}
