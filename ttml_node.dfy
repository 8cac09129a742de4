/**
 * The node tree of a document (`TtmlNode`): element and text nodes, the `isActive`
 * interval rule, the child list and the collection of event times.
 */
module TtmlNode {
  import opened Wrappers
  import opened JavaText
  import TtmlStyle

  /** `C.TIME_UNSET`: Long.MIN_VALUE + 1. */
  const TIME_UNSET: int := LONG_MIN + 1

  const TAG_TT: string := "tt"
  const TAG_HEAD: string := "head"
  const TAG_BODY: string := "body"
  const TAG_DIV: string := "div"
  const TAG_P: string := "p"
  const TAG_SPAN: string := "span"
  const TAG_BR: string := "br"
  const TAG_STYLE: string := "style"
  const TAG_STYLING: string := "styling"
  const TAG_LAYOUT: string := "layout"
  const TAG_REGION: string := "region"
  const TAG_METADATA: string := "metadata"
  const TAG_SMPTE_IMAGE: string := "smpte:image"
  const TAG_SMPTE_DATA: string := "smpte:data"
  const TAG_SMPTE_INFORMATION: string := "smpte:information"

  /**
   * A node: an element has a tag and no text, a text node has text and no tag. Times are
   * in microseconds, TIME_UNSET when not set. `styleIds` None is the null array.
   */
  datatype Node = Node(
    tag: Option<string>,
    text: Option<string>,
    startTimeUs: int,
    endTimeUs: int,
    style: Option<TtmlStyle.Style>,
    styleIds: Option<seq<string>>,
    regionId: string,
    backgroundImageId: Option<string>,
    children: seq<Node>)
  {
    predicate IsTextNode() {
      text.Some?
    }

    predicate HasTag(name: string) {
      tag == Some(name)
    }
  }

  /** `buildTextNode`, given the text after the external space policy has been applied. */
  function BuildTextNode(text: string): (r: Node)
    ensures r.IsTextNode() && r.tag.None? && r.children == []
    ensures r.startTimeUs == TIME_UNSET && r.endTimeUs == TIME_UNSET && r.regionId == ""
  {
    Node(None, Some(text), TIME_UNSET, TIME_UNSET, None, None, "", None, [])
  }

  /** `buildNode`. */
  function BuildNode(tag: string, startTimeUs: int, endTimeUs: int, style: Option<TtmlStyle.Style>,
                     styleIds: Option<seq<string>>, regionId: string, backgroundImageId: Option<string>): (r: Node)
    ensures !r.IsTextNode() && r.HasTag(tag) && r.children == []
  {
    Node(Some(tag), None, startTimeUs, endTimeUs, style, styleIds, regionId, backgroundImageId, [])
  }

  /**
   * `isActive`: a set start time is inclusive, a set end time exclusive, and an unset
   * bound does not constrain.
   */
  predicate IsActive(n: Node, timeUs: int)
    ensures n.startTimeUs == TIME_UNSET && n.endTimeUs == TIME_UNSET ==> IsActive(n, timeUs)
    ensures n.startTimeUs != TIME_UNSET && timeUs < n.startTimeUs ==> !IsActive(n, timeUs)
    ensures n.endTimeUs != TIME_UNSET && n.endTimeUs <= timeUs ==> !IsActive(n, timeUs)
  {
    || (n.startTimeUs == TIME_UNSET && n.endTimeUs == TIME_UNSET)
    || (n.startTimeUs <= timeUs && n.endTimeUs == TIME_UNSET)
    || (n.startTimeUs == TIME_UNSET && timeUs < n.endTimeUs)
    || (n.startTimeUs <= timeUs && timeUs < n.endTimeUs)
  }

  /** The four cases of `isActive` amount to one interval rule. */
  lemma IsActiveInterval(n: Node, timeUs: int)
    ensures IsActive(n, timeUs) <==>
      (n.startTimeUs != TIME_UNSET ==> n.startTimeUs <= timeUs) && (n.endTimeUs != TIME_UNSET ==> timeUs < n.endTimeUs)
  {
  }

  // ---------------------------------------------------------------------------------------
  // children

  /** `addChild`: the child goes at the end. */
  function AddChild(n: Node, child: Node): (r: Node)
    ensures |r.children| == |n.children| + 1 && r.children[..|n.children|] == n.children
    ensures r.children[|n.children|] == child
    ensures r.(children := n.children) == n
  {
    n.(children := n.children + [child])
  }

  /** `getChildCount`. */
  function GetChildCount(n: Node): (r: nat)
    ensures r == |n.children|
  {
    |n.children|
  }

  /** `getChild`: IndexOutOfBoundsException for an index out of range, including on a node without children. */
  function GetChild(n: Node, index: int): (r: Result<Node, Exception>)
    ensures r.Err? <==> !(0 <= index < GetChildCount(n))
    ensures r.Err? ==> r.error == IndexOutOfBoundsException
    ensures r.Ok? ==> r.value == n.children[index]
  {
    if 0 <= index < |n.children| then Ok(n.children[index]) else Err(IndexOutOfBoundsException)
  }

  /** Adding the children one by one. */
  function AddChildren(n: Node, children: seq<Node>): Node {
    if children == [] then n else AddChild(AddChildren(n, children[..|children| - 1]), children[|children| - 1])
  }

  /** After a sequence of `addChild` calls the node holds its old children, then the new ones in order. */
  lemma {:induction false} AddChildrenInOrder(n: Node, children: seq<Node>)
    ensures GetChildCount(AddChildren(n, children)) == GetChildCount(n) + |children|
    ensures forall k :: 0 <= k < |children| ==> GetChild(AddChildren(n, children), GetChildCount(n) + k) == Ok(children[k])
    ensures forall k :: 0 <= k < GetChildCount(n) ==> GetChild(AddChildren(n, children), k) == GetChild(n, k)
  {
    if children != [] {
      var init := children[..|children| - 1];
      AddChildrenInOrder(n, init);
      var before := AddChildren(n, init);
      assert AddChildren(n, children) == AddChild(before, children[|children| - 1]);
      forall k | 0 <= k < |children|
        ensures GetChild(AddChildren(n, children), GetChildCount(n) + k) == Ok(children[k])
      {
        if k < |init| {
          assert init[k] == children[k];
        }
      }
    }
  }

  /** A node without children has no child at any index. */
  lemma NoChildren(n: Node, index: int)
    requires n.children == []
    ensures GetChild(n, index) == Err(IndexOutOfBoundsException)
  {
  }

  // ---------------------------------------------------------------------------------------
  // event times

  /**
   * `getEventTimes`: the set start and end times of every `p` node and of every node
   * below one; unset times are left out.
   */
  function EventTimes(n: Node, descendsP: bool): set<int>
    decreases n, 1
  {
    var inP := descendsP || n.HasTag(TAG_P);
    (if inP && n.startTimeUs != TIME_UNSET then {n.startTimeUs} else {})
      + (if inP && n.endTimeUs != TIME_UNSET then {n.endTimeUs} else {})
      + ChildEventTimes(n.children, inP)
  }

  /** The event times of a list of siblings, the last one added last. */
  function ChildEventTimes(children: seq<Node>, descendsP: bool): set<int>
    decreases children, 0
  {
    if children == [] then {}
    else ChildEventTimes(children[..|children| - 1], descendsP) + EventTimes(children[|children| - 1], descendsP)
  }

  /** The times of a `p` node or of a node below one, a time of another node is not there. */
  predicate InParagraph(n: Node, descendsP: bool) {
    descendsP || n.HasTag(TAG_P)
  }

  /** No event time is TIME_UNSET. */
  lemma {:induction false} EventTimesSet(n: Node, descendsP: bool)
    ensures TIME_UNSET !in EventTimes(n, descendsP)
    decreases n, 1
  {
    ChildEventTimesSet(n.children, InParagraph(n, descendsP));
  }

  lemma {:induction false} ChildEventTimesSet(children: seq<Node>, descendsP: bool)
    ensures TIME_UNSET !in ChildEventTimes(children, descendsP)
    decreases children, 0
  {
    if children != [] {
      ChildEventTimesSet(children[..|children| - 1], descendsP);
      EventTimesSet(children[|children| - 1], descendsP);
    }
  }

  /** A `p` node, or a node below one, contributes each of its own set start and end times. */
  lemma {:induction false} ParagraphTimesIncluded(n: Node, descendsP: bool)
    requires InParagraph(n, descendsP)
    ensures n.startTimeUs != TIME_UNSET ==> n.startTimeUs in EventTimes(n, descendsP)
    ensures n.endTimeUs != TIME_UNSET ==> n.endTimeUs in EventTimes(n, descendsP)
  {
  }

  /** A tree without any `p` node has no event times. */
  lemma {:induction false} NoParagraphNoTimes(n: Node)
    requires NoParagraph(n)
    ensures EventTimes(n, false) == {}
    decreases n, 1
  {
    ChildNoParagraphNoTimes(n.children);
  }

  lemma {:induction false} ChildNoParagraphNoTimes(children: seq<Node>)
    requires forall k :: 0 <= k < |children| ==> NoParagraph(children[k])
    ensures ChildEventTimes(children, false) == {}
    decreases children, 0
  {
    if children != [] {
      ChildNoParagraphNoTimes(children[..|children| - 1]);
      NoParagraphNoTimes(children[|children| - 1]);
    }
  }

  predicate NoParagraph(n: Node)
    decreases n
  {
    !n.HasTag(TAG_P) && forall k :: 0 <= k < |n.children| ==> NoParagraph(n.children[k])
  }

  /** `getEventTimes` into the TreeSet `out`: the node's own times, then each child's in turn. */
  method CollectEventTimes(n: Node, descendsP: bool, out: set<int>) returns (r: set<int>)
    ensures r == out + EventTimes(n, descendsP)
    decreases n
  {
    var isP := n.HasTag(TAG_P);
    r := out;
    if descendsP || isP {
      if n.startTimeUs != TIME_UNSET {
        r := r + {n.startTimeUs};
      }
      if n.endTimeUs != TIME_UNSET {
        r := r + {n.endTimeUs};
      }
    }
    ghost var own := r - out;
    assert own + out == r;
    for i := 0 to |n.children|
      invariant r == out + own + ChildEventTimes(n.children[..i], descendsP || isP)
    {
      assert n.children[..i + 1][..i] == n.children[..i];
      r := CollectEventTimes(n.children[i], descendsP || isP, r);
    }
    assert n.children[..|n.children|] == n.children;
  }

  /** The least element of a non-empty set: the next value a TreeSet iteration yields. */
  method Least(s: set<int>) returns (m: int)
    requires s != {}
    ensures m in s && forall x :: x in s ==> m <= x
  {
    ghost var someElement := ElementOf(s);
    m :| m in s;
    var rest := s - {m};
    while rest != {}
      invariant rest <= s && m in s
      invariant forall x :: x in s && x !in rest ==> m <= x
      decreases |rest|
    {
      ghost var someElement := ElementOf(rest);
      var x :| x in rest;
      if x < m {
        m := x;
      }
      rest := rest - {x};
    }
  }

  predicate StrictlyAscending(a: seq<int>) {
    forall i, j :: 0 <= i < j < |a| ==> a[i] < a[j]
  }

  /** The iteration order of a TreeSet: its elements, ascending. */
  method AscendingArray(times: set<int>) returns (a: array<int>)
    ensures StrictlyAscending(a[..])
    ensures forall t :: t in times <==> t in a[..]
  {
    a := new int[|times|];
    var remaining := times;
    var i := 0;
    while remaining != {}
      invariant 0 <= i <= a.Length && i + |remaining| == a.Length
      invariant remaining <= times
      invariant StrictlyAscending(a[..i])
      invariant forall x :: x in a[..i] <==> x in times && x !in remaining
      invariant forall k, t :: 0 <= k < i && t in remaining ==> a[k] < t
      decreases |remaining|
    {
      var m := Least(remaining);
      ghost var done := a[..i];
      a[i] := m;
      assert a[..i + 1] == done + [m];
      remaining := remaining - {m};
      i := i + 1;
    }
    assert a[..i] == a[..];
  }

  /**
   * `getEventTimesUs`: the event times of the tree, in strictly ascending order, each once.
   */
  method GetEventTimesUs(n: Node) returns (a: array<int>)
    ensures StrictlyAscending(a[..])
    ensures forall t :: t in EventTimes(n, false) <==> t in a[..]
    ensures TIME_UNSET !in a[..]
  {
    var times := CollectEventTimes(n, false, {});
    EventTimesSet(n, false);
    a := AscendingArray(times);
  }
}
