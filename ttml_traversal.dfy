/**
 * The two passes of a cue query over the node tree (`traverseForText`, `traverseForStyle`).
 *
 * Pass one appends the text of every active paragraph to the accumulator of its region and
 * records, for every active element, the length of each accumulator before and after its
 * children. Pass two applies each active element's style to the ranges recorded for it.
 * The per-node maps `nodeStartsByRegion`/`nodeEndsByRegion` are one side table keyed by the
 * node's path from the root.
 */
module TtmlTraversal {
  import opened Wrappers
  import opened JavaText
  import TtmlStyle
  import opened TtmlMetadata
  import opened TtmlRegion
  import opened TtmlNode

  /** `applyStylesToSpan(builder, start, end, style)`: a styled range of a region's text. */
  datatype Span = Span(start: int, end: int, style: TtmlStyle.Style)

  /** `SubtitleAccumulator`: the text of the builder, its spans and the background image. */
  datatype Accumulator = Accumulator(text: string, image: Option<Bitmap>, spans: seq<Span>)

  const EMPTY_ACCUMULATOR: Accumulator := Accumulator([], None, [])

  /** `regionOutputs`: region id to accumulator. */
  type Outputs = map<string, Accumulator>

  /** A node's `nodeStartsByRegion` and `nodeEndsByRegion`. */
  datatype Offsets = Offsets(starts: map<string, int>, ends: map<string, int>)

  const NO_OFFSETS: Offsets := Offsets(map[], map[])

  /** The position of a node: the child indices from the root. */
  type Path = seq<nat>

  /** Every node's offsets; a node not in the table has empty maps. */
  type Scratch = map<Path, Offsets>

  datatype TextState = TextState(outputs: Outputs, scratch: Scratch)

  /** The images of the document's metadata; None is a null `TtmlMetadata`. */
  type Images = Option<map<string, Option<Bitmap>>>

  /** `getRegionOutput`: the region's accumulator exists afterwards; a new one is empty. */
  function RegionOutput(regionId: string, outputs: Outputs): (r: Outputs)
    ensures r.Keys == outputs.Keys + {regionId}
    ensures forall k :: k in outputs ==> r[k] == outputs[k]
    ensures regionId !in outputs ==> r[regionId] == EMPTY_ACCUMULATOR
  {
    if regionId in outputs then outputs else outputs[regionId := EMPTY_ACCUMULATOR]
  }

  /** `getRegionOutput(id).append(text)`. */
  function Append(outputs: Outputs, regionId: string, text: string): (r: Outputs)
    ensures r.Keys == outputs.Keys + {regionId}
    ensures r[regionId].text == (if regionId in outputs then outputs[regionId].text else []) + text
    ensures forall k :: k in outputs && k != regionId ==> r[k] == outputs[k]
  {
    var o := RegionOutput(regionId, outputs);
    o[regionId := o[regionId].(text := o[regionId].text + text)]
  }

  /** `getRegionOutput(id).backgroundImage = image`. */
  function SetImage(outputs: Outputs, regionId: string, image: Option<Bitmap>): (r: Outputs)
    ensures r.Keys == outputs.Keys + {regionId}
    ensures r[regionId].image == image
    ensures regionId in outputs ==> r[regionId] == outputs[regionId].(image := image)
    ensures forall k :: k in outputs && k != regionId ==> r[k] == outputs[k]
  {
    var o := RegionOutput(regionId, outputs);
    o[regionId := o[regionId].(image := image)]
  }

  /** The length of every accumulator, as the entry loops record it. */
  function Lengths(outputs: Outputs): (r: map<string, int>)
    ensures r.Keys == outputs.Keys
    ensures forall k :: k in r ==> r[k] == |outputs[k].text|
  {
    map k | k in outputs :: |outputs[k].text|
  }

  /** The region a node's text goes to: its own id unless that is the anonymous one. */
  function ResolvedRegion(n: Node, inherited: string): string {
    if n.regionId == ANONYMOUS_REGION_ID then inherited else n.regionId
  }

  // ---------------------------------------------------------------------------------------
  // pass one

  /**
   * `traverseForText` on the node at `path`. `paragraphEnd(text)` is what `endParagraph`
   * appends to a builder holding `text`.
   */
  function TextPass(n: Node, path: Path, timeUs: int, descendsP: bool, inherited: string, st: TextState,
                    images: Images, paragraphEnd: string -> string): (r: Result<TextState, Exception>)
    ensures r.Err? ==> r.error == NullPointerException && images.None?
    decreases n, 1
  {
    var cleared := st.(scratch := st.scratch[path := NO_OFFSETS]);
    var region := ResolvedRegion(n, inherited);
    if n.HasTag(TAG_METADATA) then Ok(cleared)
    else if n.IsTextNode() && descendsP then Ok(cleared.(outputs := Append(cleared.outputs, region, n.text.value)))
    else if n.HasTag(TAG_BR) && descendsP then Ok(cleared.(outputs := Append(cleared.outputs, region, "\n")))
    else if !IsActive(n, timeUs) then Ok(cleared)
    else if n.backgroundImageId.Some? && images.None? then Err(NullPointerException)
    else
      var withImage :=
        if n.backgroundImageId.Some? then SetImage(cleared.outputs, region, ImageOf(images.value, n.backgroundImageId.value))
        else cleared.outputs;
      var starts := Lengths(withImage);
      var isP := n.HasTag(TAG_P);
      var after :- ChildrenTextPass(n.children, 0, path, timeUs, descendsP || isP, region,
                                    cleared.(outputs := withImage), images, paragraphEnd);
      Ok(CloseElement(after, path, starts, region, isP, paragraphEnd))
  }

  /** After the children: the paragraph terminator, then the end offsets of every region. */
  function CloseElement(after: TextState, path: Path, starts: map<string, int>, region: string, isP: bool,
                        paragraphEnd: string -> string): (r: TextState)
    ensures r.scratch == after.scratch[path := Offsets(starts, Lengths(r.outputs))]
    ensures !isP ==> r.outputs == after.outputs
    ensures isP ==> r.outputs == EndParagraph(after.outputs, region, paragraphEnd)
  {
    var outputs := if isP then EndParagraph(after.outputs, region, paragraphEnd) else after.outputs;
    TextState(outputs, after.scratch[path := Offsets(starts, Lengths(outputs))])
  }

  /** Pass one over the children from index `i` on. */
  function ChildrenTextPass(children: seq<Node>, i: nat, path: Path, timeUs: int, descendsP: bool, inherited: string,
                            st: TextState, images: Images, paragraphEnd: string -> string): (r: Result<TextState, Exception>)
    requires i <= |children|
    ensures r.Err? ==> r.error == NullPointerException && images.None?
    decreases children, |children| - i
  {
    if i == |children| then Ok(st)
    else
      var next :- TextPass(children[i], path + [i], timeUs, descendsP, inherited, st, images, paragraphEnd);
      ChildrenTextPass(children, i + 1, path, timeUs, descendsP, inherited, next, images, paragraphEnd)
  }

  /** `endParagraph(getRegionOutput(id).builder)`. */
  function EndParagraph(outputs: Outputs, regionId: string, paragraphEnd: string -> string): (r: Outputs)
    ensures r.Keys == outputs.Keys + {regionId}
    ensures forall k :: k in outputs && k != regionId ==> r[k] == outputs[k]
  {
    var o := RegionOutput(regionId, outputs);
    Append(o, regionId, paragraphEnd(o[regionId].text))
  }

  /** Every accumulator of `a` is still in `b`, its text extended at the end. */
  predicate Grows(a: Outputs, b: Outputs) {
    forall k :: k in a ==> k in b && a[k].text <= b[k].text
  }

  /** Offsets that lie in the accumulators: each start has an end, and start <= end <= length. */
  predicate OffsetsWithin(o: Offsets, outputs: Outputs) {
    && (forall k :: k in o.ends ==> k in outputs && 0 <= o.ends[k] <= |outputs[k].text|)
    && (forall k :: k in o.starts ==> k in o.ends && 0 <= o.starts[k] <= o.ends[k])
  }

  predicate Recorded(st: TextState) {
    forall p :: p in st.scratch ==> OffsetsWithin(st.scratch[p], st.outputs)
  }

  lemma GrowsTransitive(a: Outputs, b: Outputs, c: Outputs)
    requires Grows(a, b) && Grows(b, c)
    ensures Grows(a, c)
  {
  }

  lemma RecordedAfterGrowth(st: TextState, outputs: Outputs)
    requires Recorded(st) && Grows(st.outputs, outputs)
    ensures Recorded(st.(outputs := outputs))
  {
    forall p | p in st.scratch
      ensures OffsetsWithin(st.scratch[p], outputs)
    {
      var o := st.scratch[p];
      forall k | k in o.ends
        ensures k in outputs && o.ends[k] <= |outputs[k].text|
      {
        assert st.outputs[k].text <= outputs[k].text;
      }
    }
  }

  /**
   * Pass one only appends: every accumulator keeps its text as a prefix, and every recorded
   * start is at most the matching end, which is at most the accumulator's length.
   */
  lemma {:induction false} TextPassAppends(n: Node, path: Path, timeUs: int, descendsP: bool, inherited: string,
                                           st: TextState, images: Images, paragraphEnd: string -> string)
    requires Recorded(st)
    ensures var r := TextPass(n, path, timeUs, descendsP, inherited, st, images, paragraphEnd);
            r.Ok? ==> Recorded(r.value) && Grows(st.outputs, r.value.outputs)
    decreases n, 1
  {
    var cleared := st.(scratch := st.scratch[path := NO_OFFSETS]);
    var region := ResolvedRegion(n, inherited);
    assert Recorded(cleared);
    if n.HasTag(TAG_METADATA) {
    } else if n.IsTextNode() && descendsP {
      RecordedAfterGrowth(cleared, Append(cleared.outputs, region, n.text.value));
    } else if n.HasTag(TAG_BR) && descendsP {
      RecordedAfterGrowth(cleared, Append(cleared.outputs, region, "\n"));
    } else if !IsActive(n, timeUs) {
    } else if n.backgroundImageId.Some? && images.None? {
    } else {
      ActiveTextPassAppends(n, path, timeUs, descendsP, inherited, st, images, paragraphEnd);
    }
  }

  /** The case of an active element of `TextPassAppends`. */
  lemma {:induction false} ActiveTextPassAppends(n: Node, path: Path, timeUs: int, descendsP: bool, inherited: string,
                                                 st: TextState, images: Images, paragraphEnd: string -> string)
    requires Recorded(st)
    requires !n.HasTag(TAG_METADATA) && !(n.IsTextNode() && descendsP) && !(n.HasTag(TAG_BR) && descendsP)
    requires IsActive(n, timeUs) && !(n.backgroundImageId.Some? && images.None?)
    ensures var r := TextPass(n, path, timeUs, descendsP, inherited, st, images, paragraphEnd);
            r.Ok? ==> Recorded(r.value) && Grows(st.outputs, r.value.outputs)
    decreases n, 0
  {
    var cleared := st.(scratch := st.scratch[path := NO_OFFSETS]);
    var region := ResolvedRegion(n, inherited);
    assert Recorded(cleared);
    var withImage :=
      if n.backgroundImageId.Some? then SetImage(cleared.outputs, region, ImageOf(images.value, n.backgroundImageId.value))
      else cleared.outputs;
    RecordedAfterGrowth(cleared, withImage);
    var starts := Lengths(withImage);
    var isP := n.HasTag(TAG_P);
    var mid := cleared.(outputs := withImage);
    var rest := ChildrenTextPass(n.children, 0, path, timeUs, descendsP || isP, region, mid, images, paragraphEnd);
    ChildrenTextPassAppends(n.children, 0, path, timeUs, descendsP || isP, region, mid, images, paragraphEnd);
    if rest.Ok? {
      CloseElementAppends(rest.value, path, withImage, region, isP, paragraphEnd);
      GrowsTransitive(cleared.outputs, withImage, rest.value.outputs);
      GrowsTransitive(cleared.outputs, rest.value.outputs, CloseElement(rest.value, path, starts, region, isP, paragraphEnd).outputs);
    }
  }

  lemma CloseElementAppends(after: TextState, path: Path, before: Outputs, region: string, isP: bool,
                            paragraphEnd: string -> string)
    requires Recorded(after) && Grows(before, after.outputs)
    ensures var r := CloseElement(after, path, Lengths(before), region, isP, paragraphEnd);
      Recorded(r) && Grows(after.outputs, r.outputs)
  {
    var starts := Lengths(before);
    var r := CloseElement(after, path, starts, region, isP, paragraphEnd);
    assert Grows(after.outputs, r.outputs);
    RecordedAfterGrowth(after, r.outputs);
    GrowsTransitive(before, after.outputs, r.outputs);
    var o := Offsets(starts, Lengths(r.outputs));
    assert OffsetsWithin(o, r.outputs) by {
      forall k | k in starts
        ensures k in o.ends && 0 <= o.starts[k] <= o.ends[k]
      {
        assert before[k].text <= r.outputs[k].text;
      }
    }
  }

  lemma {:induction false} ChildrenTextPassAppends(children: seq<Node>, i: nat, path: Path, timeUs: int, descendsP: bool,
                                                   inherited: string, st: TextState, images: Images, paragraphEnd: string -> string)
    requires i <= |children|
    requires Recorded(st)
    ensures var r := ChildrenTextPass(children, i, path, timeUs, descendsP, inherited, st, images, paragraphEnd);
            r.Ok? ==> Recorded(r.value) && Grows(st.outputs, r.value.outputs)
    decreases children, |children| - i
  {
    if i < |children| {
      var next := TextPass(children[i], path + [i], timeUs, descendsP, inherited, st, images, paragraphEnd);
      TextPassAppends(children[i], path + [i], timeUs, descendsP, inherited, st, images, paragraphEnd);
      if next.Ok? {
        ChildrenTextPassAppends(children, i + 1, path, timeUs, descendsP, inherited, next.value, images, paragraphEnd);
        var r := ChildrenTextPass(children, i + 1, path, timeUs, descendsP, inherited, next.value, images, paragraphEnd);
        if r.Ok? {
          GrowsTransitive(st.outputs, next.value.outputs, r.value.outputs);
        }
      }
    }
  }

  /** A metadata element contributes nothing, below it included: only its own maps are cleared. */
  lemma MetadataContributesNothing(n: Node, path: Path, timeUs: int, descendsP: bool, inherited: string,
                                   st: TextState, images: Images, paragraphEnd: string -> string)
    requires n.HasTag(TAG_METADATA)
    ensures TextPass(n, path, timeUs, descendsP, inherited, st, images, paragraphEnd)
         == Ok(TextState(st.outputs, st.scratch[path := NO_OFFSETS]))
  {
  }

  /**
   * A text leaf inside a paragraph appends its text to the accumulator of its resolved
   * region; outside a paragraph it appends nothing.
   */
  lemma TextLeafAppends(n: Node, path: Path, timeUs: int, descendsP: bool, inherited: string,
                        st: TextState, images: Images, paragraphEnd: string -> string)
    requires n.IsTextNode() && n == BuildTextNode(n.text.value)
    ensures var r := TextPass(n, path, timeUs, descendsP, inherited, st, images, paragraphEnd);
      && r.Ok?
      && var region := ResolvedRegion(n, inherited);
      && (descendsP ==> r.value.outputs[region].text
                          == (if region in st.outputs then st.outputs[region].text else []) + n.text.value)
      && (!descendsP ==> r.value.outputs == st.outputs)
  {
    var cleared := st.(scratch := st.scratch[path := NO_OFFSETS]);
    if !descendsP && IsActive(n, timeUs) {
      assert ChildrenTextPass(n.children, 0, path, timeUs, false, ResolvedRegion(n, inherited), cleared, images, paragraphEnd)
          == Ok(cleared);
      assert TextPass(n, path, timeUs, descendsP, inherited, st, images, paragraphEnd)
          == Ok(CloseElement(cleared, path, Lengths(cleared.outputs), ResolvedRegion(n, inherited), false, paragraphEnd));
    }
  }

  /** A `br` inside a paragraph appends a newline to its resolved region. */
  lemma LineBreakAppends(n: Node, path: Path, timeUs: int, inherited: string,
                         st: TextState, images: Images, paragraphEnd: string -> string)
    requires n.HasTag(TAG_BR) && !n.IsTextNode()
    ensures var r := TextPass(n, path, timeUs, true, inherited, st, images, paragraphEnd);
      && r.Ok?
      && var region := ResolvedRegion(n, inherited);
      && r.value.outputs == Append(st.outputs, region, "\n")
  {
  }

  /**
   * An active element with a background image and a metadata table sets its region's image,
   * whether or not it is in a paragraph; its start offsets are the lengths after that.
   */
  lemma {:induction false} BackgroundImageSet(n: Node, path: Path, timeUs: int, descendsP: bool, inherited: string,
                                              st: TextState, images: map<string, Option<Bitmap>>)
    requires !n.HasTag(TAG_METADATA) && !n.IsTextNode() && !n.HasTag(TAG_BR) && !n.HasTag(TAG_P)
    requires IsActive(n, timeUs) && n.backgroundImageId.Some? && n.children == []
    ensures var r := TextPass(n, path, timeUs, descendsP, inherited, st, Some(images), (t: string) => "\n");
      var region := ResolvedRegion(n, inherited);
      && r.Ok?
      && r.value.outputs == SetImage(st.outputs, region, ImageOf(images, n.backgroundImageId.value))
      && r.value.scratch[path] == Offsets(Lengths(r.value.outputs), Lengths(r.value.outputs))
  {
    var region := ResolvedRegion(n, inherited);
    var cleared := st.(scratch := st.scratch[path := NO_OFFSETS]);
    var withImage := SetImage(cleared.outputs, region, ImageOf(images, n.backgroundImageId.value));
    assert ChildrenTextPass(n.children, 0, path, timeUs, descendsP, region, cleared.(outputs := withImage),
                            Some(images), (t: string) => "\n") == Ok(cleared.(outputs := withImage));
  }

  /** A background image without a metadata table is a NullPointerException. */
  lemma BackgroundImageWithoutMetadata(n: Node, path: Path, timeUs: int, descendsP: bool, inherited: string,
                                       st: TextState, paragraphEnd: string -> string)
    requires !n.HasTag(TAG_METADATA) && !n.IsTextNode() && !n.HasTag(TAG_BR)
    requires IsActive(n, timeUs) && n.backgroundImageId.Some?
    ensures TextPass(n, path, timeUs, descendsP, inherited, st, None, paragraphEnd) == Err(NullPointerException)
  {
  }

  /** Every node of the tree names a region in `ids`. */
  predicate RegionsIn(n: Node, ids: set<string>)
    decreases n
  {
    n.regionId in ids && forall k :: 0 <= k < |n.children| ==> RegionsIn(n.children[k], ids)
  }

  /**
   * With a metadata table pass one cannot fail, and when every node names a known region
   * (the anonymous one included) every accumulator belongs to a known region.
   */
  lemma {:induction false} TextPassSucceeds(n: Node, path: Path, timeUs: int, descendsP: bool, inherited: string,
                                            st: TextState, images: Images, paragraphEnd: string -> string, ids: set<string>)
    requires images.Some?
    requires RegionsIn(n, ids) && inherited in ids && st.outputs.Keys <= ids
    ensures var r := TextPass(n, path, timeUs, descendsP, inherited, st, images, paragraphEnd);
      r.Ok? && r.value.outputs.Keys <= ids
    decreases n, 1
  {
    var region := ResolvedRegion(n, inherited);
    if !n.HasTag(TAG_METADATA) && !(n.IsTextNode() && descendsP) && !(n.HasTag(TAG_BR) && descendsP) && IsActive(n, timeUs) {
      var cleared := st.(scratch := st.scratch[path := NO_OFFSETS]);
      var withImage :=
        if n.backgroundImageId.Some? then SetImage(cleared.outputs, region, ImageOf(images.value, n.backgroundImageId.value))
        else cleared.outputs;
      var isP := n.HasTag(TAG_P);
      ChildrenTextPassSucceeds(n.children, 0, path, timeUs, descendsP || isP, region,
                               cleared.(outputs := withImage), images, paragraphEnd, ids);
    }
  }

  lemma {:induction false} ChildrenTextPassSucceeds(children: seq<Node>, i: nat, path: Path, timeUs: int, descendsP: bool,
                                                    inherited: string, st: TextState, images: Images,
                                                    paragraphEnd: string -> string, ids: set<string>)
    requires i <= |children|
    requires images.Some?
    requires (forall k :: 0 <= k < |children| ==> RegionsIn(children[k], ids)) && inherited in ids && st.outputs.Keys <= ids
    ensures var r := ChildrenTextPass(children, i, path, timeUs, descendsP, inherited, st, images, paragraphEnd);
      r.Ok? && r.value.outputs.Keys <= ids
    decreases children, |children| - i
  {
    if i < |children| {
      TextPassSucceeds(children[i], path + [i], timeUs, descendsP, inherited, st, images, paragraphEnd, ids);
      var next := TextPass(children[i], path + [i], timeUs, descendsP, inherited, st, images, paragraphEnd).value;
      ChildrenTextPassSucceeds(children, i + 1, path, timeUs, descendsP, inherited, next, images, paragraphEnd, ids);
    }
  }

  // ---------------------------------------------------------------------------------------
  // pass two

  /** The start of a range: the recorded start, or 0 for a region without one. */
  function RangeStart(o: Offsets, regionId: string): int {
    if regionId in o.starts then o.starts[regionId] else 0
  }

  /** A range that gets the node's style: recorded, not empty, and the style resolves. */
  predicate Styled(o: Offsets, regionId: string, style: Option<TtmlStyle.Style>) {
    regionId in o.ends && RangeStart(o, regionId) != o.ends[regionId] && style.Some?
  }

  /** The node's style applied to the ranges of the regions in `done`. */
  function ApplyTo(outputs: Outputs, o: Offsets, style: Option<TtmlStyle.Style>, done: set<string>): (r: Outputs)
    ensures r.Keys == outputs.Keys
  {
    map k | k in outputs ::
      if k in done && Styled(o, k, style) then outputs[k].(spans := outputs[k].spans + [Span(RangeStart(o, k), o.ends[k], style.value)])
      else outputs[k]
  }

  /**
   * The entry loop of `traverseForStyle` with `applyStyleToOutput`: a recorded region with no
   * accumulator is a NullPointerException when its range gets a style.
   */
  function ApplyRanges(outputs: Outputs, o: Offsets, style: Option<TtmlStyle.Style>): (r: Result<Outputs, Exception>)
    ensures r.Err? <==> exists k :: k in o.ends && k !in outputs && Styled(o, k, style)
    ensures r.Err? ==> r.error == NullPointerException
    ensures r.Ok? ==> r.value.Keys == outputs.Keys
    ensures r.Ok? ==> forall k :: k in outputs ==>
      if Styled(o, k, style)
      then r.value[k] == outputs[k].(spans := outputs[k].spans + [Span(RangeStart(o, k), o.ends[k], style.value)])
      else r.value[k] == outputs[k]
  {
    if exists k :: k in o.ends && k !in outputs && Styled(o, k, style) then Err(NullPointerException)
    else Ok(ApplyTo(outputs, o, style, o.ends.Keys))
  }

  /**
   * `traverseForStyle` on the node at `path`: an inactive node and everything below it is
   * skipped; otherwise the node's ranges get its style before its children's ranges get theirs.
   * `resolveStyle(style, styleIds)` is `TtmlRenderUtil.resolveStyle` against the global styles.
   */
  function StylePass(n: Node, path: Path, timeUs: int, scratch: Scratch, outputs: Outputs,
                     resolveStyle: (Option<TtmlStyle.Style>, Option<seq<string>>) -> Option<TtmlStyle.Style>)
    : (r: Result<Outputs, Exception>)
    ensures r.Err? ==> r.error == NullPointerException
    decreases n, 1
  {
    if !IsActive(n, timeUs) then Ok(outputs)
    else
      var o := if path in scratch then scratch[path] else NO_OFFSETS;
      var styled :- ApplyRanges(outputs, o, resolveStyle(n.style, n.styleIds));
      ChildrenStylePass(n.children, 0, path, timeUs, scratch, styled, resolveStyle)
  }

  function ChildrenStylePass(children: seq<Node>, i: nat, path: Path, timeUs: int, scratch: Scratch, outputs: Outputs,
                             resolveStyle: (Option<TtmlStyle.Style>, Option<seq<string>>) -> Option<TtmlStyle.Style>)
    : (r: Result<Outputs, Exception>)
    requires i <= |children|
    ensures r.Err? ==> r.error == NullPointerException
    decreases children, |children| - i
  {
    if i == |children| then Ok(outputs)
    else
      var next :- StylePass(children[i], path + [i], timeUs, scratch, outputs, resolveStyle);
      ChildrenStylePass(children, i + 1, path, timeUs, scratch, next, resolveStyle)
  }

  /** An inactive node leaves every accumulator as it was, whatever lies below it. */
  lemma InactiveSkipped(n: Node, path: Path, timeUs: int, scratch: Scratch, outputs: Outputs,
                        resolveStyle: (Option<TtmlStyle.Style>, Option<seq<string>>) -> Option<TtmlStyle.Style>)
    requires !IsActive(n, timeUs)
    ensures StylePass(n, path, timeUs, scratch, outputs, resolveStyle) == Ok(outputs)
  {
  }

  /** Pass two keeps the texts and the set of regions; it only adds spans. */
  lemma {:induction false} StylePassKeepsText(n: Node, path: Path, timeUs: int, scratch: Scratch, outputs: Outputs,
                                              resolveStyle: (Option<TtmlStyle.Style>, Option<seq<string>>) -> Option<TtmlStyle.Style>)
    ensures var r := StylePass(n, path, timeUs, scratch, outputs, resolveStyle);
      r.Ok? ==> r.value.Keys == outputs.Keys && forall k :: k in outputs ==>
        r.value[k].text == outputs[k].text && r.value[k].image == outputs[k].image && outputs[k].spans <= r.value[k].spans
    decreases n, 1
  {
    if IsActive(n, timeUs) {
      var o := if path in scratch then scratch[path] else NO_OFFSETS;
      var styled := ApplyRanges(outputs, o, resolveStyle(n.style, n.styleIds));
      if styled.Ok? {
        ChildrenStylePassKeepsText(n.children, 0, path, timeUs, scratch, styled.value, resolveStyle);
      }
    }
  }

  lemma {:induction false} ChildrenStylePassKeepsText(children: seq<Node>, i: nat, path: Path, timeUs: int, scratch: Scratch,
                                                      outputs: Outputs,
                                                      resolveStyle: (Option<TtmlStyle.Style>, Option<seq<string>>) -> Option<TtmlStyle.Style>)
    requires i <= |children|
    ensures var r := ChildrenStylePass(children, i, path, timeUs, scratch, outputs, resolveStyle);
      r.Ok? ==> r.value.Keys == outputs.Keys && forall k :: k in outputs ==>
        r.value[k].text == outputs[k].text && r.value[k].image == outputs[k].image && outputs[k].spans <= r.value[k].spans
    decreases children, |children| - i
  {
    if i < |children| {
      StylePassKeepsText(children[i], path + [i], timeUs, scratch, outputs, resolveStyle);
      var next := StylePass(children[i], path + [i], timeUs, scratch, outputs, resolveStyle);
      if next.Ok? {
        ChildrenStylePassKeepsText(children, i + 1, path, timeUs, scratch, next.value, resolveStyle);
      }
    }
  }

  /** Ranges recorded by pass one always name an existing accumulator, so pass two cannot fail. */
  lemma {:induction false} StylePassSucceeds(n: Node, path: Path, timeUs: int, scratch: Scratch, outputs: Outputs,
                                             resolveStyle: (Option<TtmlStyle.Style>, Option<seq<string>>) -> Option<TtmlStyle.Style>)
    requires Recorded(TextState(outputs, scratch))
    ensures StylePass(n, path, timeUs, scratch, outputs, resolveStyle).Ok?
    decreases n, 1
  {
    if IsActive(n, timeUs) {
      var o := if path in scratch then scratch[path] else NO_OFFSETS;
      var style := resolveStyle(n.style, n.styleIds);
      RecordedRangesApply(outputs, scratch, o, style);
      var styled := ApplyRanges(outputs, o, style);
      NodeBeforeChildren(n, path, timeUs, scratch, outputs, resolveStyle);
      ChildrenStylePassSucceeds(n.children, 0, path, timeUs, scratch, styled.value, resolveStyle);
    }
  }

  lemma {:induction false} ChildrenStylePassSucceeds(children: seq<Node>, i: nat, path: Path, timeUs: int, scratch: Scratch,
                                                     outputs: Outputs,
                                                     resolveStyle: (Option<TtmlStyle.Style>, Option<seq<string>>) -> Option<TtmlStyle.Style>)
    requires i <= |children|
    requires Recorded(TextState(outputs, scratch))
    ensures ChildrenStylePass(children, i, path, timeUs, scratch, outputs, resolveStyle).Ok?
    decreases children, |children| - i
  {
    if i < |children| {
      StylePassSucceeds(children[i], path + [i], timeUs, scratch, outputs, resolveStyle);
      StylePassKeepsText(children[i], path + [i], timeUs, scratch, outputs, resolveStyle);
      var next := StylePass(children[i], path + [i], timeUs, scratch, outputs, resolveStyle).value;
      RecordedSameTexts(outputs, next, scratch);
      ChildrenStylePassSucceeds(children, i + 1, path, timeUs, scratch, next, resolveStyle);
    }
  }

  /** The ranges of a recorded node, or no ranges at all, find their accumulators; the texts stay. */
  lemma RecordedRangesApply(outputs: Outputs, scratch: Scratch, o: Offsets, style: Option<TtmlStyle.Style>)
    requires Recorded(TextState(outputs, scratch))
    requires o == NO_OFFSETS || exists p :: p in scratch && scratch[p] == o
    ensures ApplyRanges(outputs, o, style).Ok?
    ensures Recorded(TextState(ApplyRanges(outputs, o, style).value, scratch))
  {
    var styled := ApplyRanges(outputs, o, style).value;
    RecordedSameTexts(outputs, styled, scratch);
  }

  lemma RecordedSameTexts(a: Outputs, b: Outputs, scratch: Scratch)
    requires Recorded(TextState(a, scratch))
    requires b.Keys == a.Keys && forall k :: k in a ==> b[k].text == a[k].text
    ensures Recorded(TextState(b, scratch))
  {
  }

  /** A node's ranges get its style before any of its children's ranges get theirs. */
  lemma NodeBeforeChildren(n: Node, path: Path, timeUs: int, scratch: Scratch, outputs: Outputs,
                           resolveStyle: (Option<TtmlStyle.Style>, Option<seq<string>>) -> Option<TtmlStyle.Style>)
    requires IsActive(n, timeUs)
    requires ApplyRanges(outputs, if path in scratch then scratch[path] else NO_OFFSETS, resolveStyle(n.style, n.styleIds)).Ok?
    ensures var o := if path in scratch then scratch[path] else NO_OFFSETS;
      var styled := ApplyRanges(outputs, o, resolveStyle(n.style, n.styleIds)).value;
      StylePass(n, path, timeUs, scratch, outputs, resolveStyle)
        == ChildrenStylePass(n.children, 0, path, timeUs, scratch, styled, resolveStyle)
  {
  }

  /** An empty range, and a range of a region with no start recorded, are as the entry loop treats them. */
  lemma RangeRules(o: Offsets, regionId: string, style: TtmlStyle.Style)
    requires regionId in o.ends
    ensures regionId !in o.starts ==> (Styled(o, regionId, Some(style)) <==> o.ends[regionId] != 0)
    ensures Styled(o, regionId, Some(style)) <==> RangeStart(o, regionId) != o.ends[regionId]
    ensures !Styled(o, regionId, None)
  {
  }

  // ---------------------------------------------------------------------------------------
  // the passes as the source runs them

  /** An entry loop over `regionOutputs` putting each accumulator's length. */
  method RecordLengths(outputs: Outputs) returns (m: map<string, int>)
    ensures m == Lengths(outputs)
  {
    m := map[];
    var pending := outputs.Keys;
    while pending != {}
      invariant pending <= outputs.Keys
      invariant m == map k | k in outputs.Keys - pending :: |outputs[k].text|
      decreases |pending|
    {
      ghost var someElement := ElementOf(pending);
      var k :| k in pending;
      m := m[k := |outputs[k].text|];
      pending := pending - {k};
    }
  }

  /** The method form of `traverseForText`. */
  method TraverseForText(n: Node, path: Path, timeUs: int, descendsP: bool, inherited: string, st: TextState,
                         images: Images, paragraphEnd: string -> string) returns (r: Result<TextState, Exception>)
    ensures r == TextPass(n, path, timeUs, descendsP, inherited, st, images, paragraphEnd)
    decreases n, 1
  {
    var outputs := st.outputs;
    var scratch := st.scratch[path := NO_OFFSETS];
    if n.HasTag(TAG_METADATA) {
      return Ok(TextState(outputs, scratch));
    }
    var region := if n.regionId == ANONYMOUS_REGION_ID then inherited else n.regionId;
    if n.IsTextNode() && descendsP {
      outputs := RegionOutput(region, outputs);
      outputs := outputs[region := outputs[region].(text := outputs[region].text + n.text.value)];
    } else if n.HasTag(TAG_BR) && descendsP {
      outputs := RegionOutput(region, outputs);
      outputs := outputs[region := outputs[region].(text := outputs[region].text + "\n")];
    } else if IsActive(n, timeUs) {
      if n.backgroundImageId.Some? {
        if images.None? {
          return Err(NullPointerException);
        }
        outputs := RegionOutput(region, outputs);
        outputs := outputs[region := outputs[region].(image := ImageOf(images.value, n.backgroundImageId.value))];
      }
      var starts := RecordLengths(outputs);
      var isP := n.HasTag(TAG_P);
      var after := TraverseChildrenForText(n.children, path, timeUs, descendsP || isP, region,
                                           TextState(outputs, scratch), images, paragraphEnd);
      if after.Err? {
        return Err(after.error);
      }
      outputs := after.value.outputs;
      if isP {
        outputs := RegionOutput(region, outputs);
        outputs := outputs[region := outputs[region].(text := outputs[region].text + paragraphEnd(outputs[region].text))];
      }
      var ends := RecordLengths(outputs);
      scratch := after.value.scratch[path := Offsets(starts, ends)];
    }
    return Ok(TextState(outputs, scratch));
  }

  /** The child loop of `traverseForText`. */
  method TraverseChildrenForText(children: seq<Node>, path: Path, timeUs: int, descendsP: bool, inherited: string,
                                 st: TextState, images: Images, paragraphEnd: string -> string)
    returns (r: Result<TextState, Exception>)
    ensures r == ChildrenTextPass(children, 0, path, timeUs, descendsP, inherited, st, images, paragraphEnd)
    decreases children, 0
  {
    var cur := st;
    for i := 0 to |children|
      invariant ChildrenTextPass(children, i, path, timeUs, descendsP, inherited, cur, images, paragraphEnd)
             == ChildrenTextPass(children, 0, path, timeUs, descendsP, inherited, st, images, paragraphEnd)
    {
      var next := TraverseForText(children[i], path + [i], timeUs, descendsP, inherited, cur, images, paragraphEnd);
      if next.Err? {
        return Err(next.error);
      }
      cur := next.value;
    }
    return Ok(cur);
  }

  /** One more region of the entry loop. */
  lemma ApplyToStep(outputs: Outputs, o: Offsets, style: Option<TtmlStyle.Style>, done: set<string>, k: string)
    requires k !in done
    ensures var cur := ApplyTo(outputs, o, style, done);
      ApplyTo(outputs, o, style, done + {k})
        == if k in cur && Styled(o, k, style)
           then cur[k := cur[k].(spans := cur[k].spans + [Span(RangeStart(o, k), o.ends[k], style.value)])]
           else cur
  {
  }

  /** The entry loop of `traverseForStyle`, with `applyStyleToOutput` for each non-empty range. */
  method ApplyStyleToRanges(outputs: Outputs, o: Offsets, style: Option<TtmlStyle.Style>) returns (r: Result<Outputs, Exception>)
    ensures r == ApplyRanges(outputs, o, style)
  {
    var cur := outputs;
    var pending := o.ends.Keys;
    while pending != {}
      invariant pending <= o.ends.Keys
      invariant forall k :: k in o.ends && k !in pending ==> !(k !in outputs && Styled(o, k, style))
      invariant cur == ApplyTo(outputs, o, style, o.ends.Keys - pending)
      decreases |pending|
    {
      ghost var someElement := ElementOf(pending);
      var k :| k in pending;
      ApplyToStep(outputs, o, style, o.ends.Keys - pending, k);
      assert (o.ends.Keys - pending) + {k} == o.ends.Keys - (pending - {k});
      if Styled(o, k, style) {
        if k !in cur {
          return Err(NullPointerException);
        }
        cur := cur[k := cur[k].(spans := cur[k].spans + [Span(RangeStart(o, k), o.ends[k], style.value)])];
      }
      pending := pending - {k};
    }
    assert o.ends.Keys - pending == o.ends.Keys;
    return Ok(cur);
  }

  /** The method form of `traverseForStyle`. */
  method TraverseForStyle(n: Node, path: Path, timeUs: int, scratch: Scratch, outputs: Outputs,
                          resolveStyle: (Option<TtmlStyle.Style>, Option<seq<string>>) -> Option<TtmlStyle.Style>)
    returns (r: Result<Outputs, Exception>)
    ensures r == StylePass(n, path, timeUs, scratch, outputs, resolveStyle)
    decreases n, 1
  {
    if !IsActive(n, timeUs) {
      return Ok(outputs);
    }
    var o := if path in scratch then scratch[path] else NO_OFFSETS;
    var styled := ApplyStyleToRanges(outputs, o, resolveStyle(n.style, n.styleIds));
    if styled.Err? {
      return styled;
    }
    r := TraverseChildrenForStyle(n.children, path, timeUs, scratch, styled.value, resolveStyle);
  }

  /** The child loop of `traverseForStyle`. */
  method TraverseChildrenForStyle(children: seq<Node>, path: Path, timeUs: int, scratch: Scratch, outputs: Outputs,
                                  resolveStyle: (Option<TtmlStyle.Style>, Option<seq<string>>) -> Option<TtmlStyle.Style>)
    returns (r: Result<Outputs, Exception>)
    ensures r == ChildrenStylePass(children, 0, path, timeUs, scratch, outputs, resolveStyle)
    decreases children, 0
  {
    var cur := outputs;
    for i := 0 to |children|
      invariant ChildrenStylePass(children, i, path, timeUs, scratch, cur, resolveStyle)
             == ChildrenStylePass(children, 0, path, timeUs, scratch, outputs, resolveStyle)
    {
      var next := TraverseForStyle(children[i], path + [i], timeUs, scratch, cur, resolveStyle);
      if next.Err? {
        return next;
      }
      cur := next.value;
    }
    return Ok(cur);
  }
}
