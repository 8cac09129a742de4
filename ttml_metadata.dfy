/**
 * The image table of a document (`TtmlMetadata`) and how the head's `metadata` element
 * fills it (`parseMetadata`, `parseImage`). Base64 and bitmap decoding are a parameter
 * `decodeImage`; a bitmap is an opaque handle.
 */
module TtmlMetadata {
  import opened Wrappers
  import opened JavaText
  import opened XmlEvents

  /** A decoded bitmap, as an opaque handle. */
  datatype Bitmap = Bitmap(handle: nat)

  /** `images.get(id)`: None both for an absent id and for a stored null bitmap. */
  function ImageOf(images: map<string, Option<Bitmap>>, id: string): Option<Bitmap> {
    if id in images then images[id] else None
  }

  /** `TtmlMetadata`: the `images` map, filled by `addImage` and read by `getImage`. */
  class Metadata {
    var images: map<string, Option<Bitmap>>

    /** A new table holds no image. */
    constructor()
      ensures images == map[]
      ensures forall id :: GetImage(id).None?
    {
      images := map[];
    }

    function GetImage(id: string): (r: Option<Bitmap>)
      reads this
      ensures id !in images ==> r.None?
      ensures id in images ==> r == images[id]
    {
      ImageOf(images, id)
    }

    /** `addImage`: the id now maps to the image, replacing an earlier one; every other id keeps its image. */
    method AddImage(id: string, image: Option<Bitmap>)
      modifies this
      ensures images == old(images)[id := image]
      ensures GetImage(id) == image
      ensures forall other :: other != id ==> GetImage(other) == old(GetImage(other))
    {
      images := images[id := image];
    }
  }

  /** A new table returns null for every id. */
  lemma EmptyTableHasNoImage(id: string)
    ensures ImageOf(map[], id).None?
  {
  }

  /** After `addImage(id, img)`, `getImage(id)` returns `img` and every other id its earlier image. */
  lemma AddThenGet(images: map<string, Option<Bitmap>>, id: string, image: Option<Bitmap>, other: string)
    ensures ImageOf(images[id := image], id) == image
    ensures other != id ==> ImageOf(images[id := image], other) == ImageOf(images, other)
  {
  }

  /** Adding twice under one id keeps only the second image. */
  lemma AddReplaces(images: map<string, Option<Bitmap>>, id: string, first: Option<Bitmap>, second: Option<Bitmap>)
    ensures images[id := first][id := second] == images[id := second]
  {
  }

  // ---------------------------------------------------------------------------------------
  // parseImage and parseMetadata

  /** What Base64.decode followed by BitmapFactory.decodeByteArray makes of a text: a throw, or a possibly null bitmap. */
  datatype ImageDecoding = Undecodable | Decoded(bitmap: Option<Bitmap>)

  /** The value of the last attribute whose name is one of `names`. */
  function LastValue(attrs: seq<Attr>, names: set<string>): (r: Option<string>)
    ensures r.None? <==> forall i :: 0 <= i < |attrs| ==> attrs[i].name !in names
    ensures r.Some? ==> exists i :: 0 <= i < |attrs| && attrs[i].name in names && attrs[i].value == r.value
                          && forall j :: i < j < |attrs| ==> attrs[j].name !in names
  {
    if attrs == [] then None
    else if attrs[|attrs| - 1].name in names then Some(attrs[|attrs| - 1].value)
    else LastValue(attrs[..|attrs| - 1], names)
  }

  predicate IsImageStart(e: Event) {
    IsStartTag(e, "smpte:image") || IsStartTag(e, "image")
  }

  predicate IsImageEnd(e: Event) {
    IsEndTag(e, "smpte:image") || IsEndTag(e, "image")
  }

  /**
   * The position of the first image end tag from `q` on. Reaching a malformed token, or
   * the end of the events inside the open element, is the tokenizer's XmlPullParserException.
   */
  function FindImageEnd(events: seq<Event>, q: nat): (r: Result<nat, Exception>)
    decreases |events| - q
    ensures r.Ok? ==> q <= r.value < |events| && IsImageEnd(events[r.value])
    ensures r.Ok? ==> forall k :: q <= k < r.value ==> !IsImageEnd(events[k]) && !events[k].Malformed?
    ensures r.Err? ==> r.error == XmlPullParserException
  {
    if q >= |events| || events[q].Malformed? then Err(XmlPullParserException)
    else if IsImageEnd(events[q]) then Ok(q)
    else FindImageEnd(events, q + 1)
  }

  /**
   * `parseImage` from the image start tag at `start`: the image (None is the null that
   * drops it) and the position of the event the parser stops on.
   */
  function ImageElement(events: seq<Event>, start: nat, decodeImage: string -> ImageDecoding)
    : (r: Result<(Option<(string, Option<Bitmap>)>, nat), Exception>)
    requires start < |events| && events[start].StartTag?
    ensures r.Ok? ==> start < r.value.1 < |events| && IsImageEnd(events[r.value.1])
    ensures r.Err? ==> r.error == XmlPullParserException
  {
    var attrs := events[start].attrs;
    var id := LastValue(attrs, {"id", "xml:id"});
    var encoding := LastValue(attrs, {"encoding"});
    var p := start + 1;
    if p >= |events| || events[p].Malformed? then Err(XmlPullParserException)
    else if IsImageEnd(events[p]) then Ok((None, p))
    else
      var encoded := if events[p].Text? then Some(events[p].text) else None;
      var close :- FindImageEnd(events, p + 1);
      if encoding.None? || id.None? || encoded.None? || !EqualsIgnoreCase(encoding.value, "base64") then Ok((None, close))
      else
        match decodeImage(encoded.value)
        case Undecodable => Ok((None, close))
        case Decoded(bitmap) => Ok((Some((id.value, bitmap)), close))
  }

  /** The attribute loop of `parseImage`: the last `id` (or `xml:id`) and the last `encoding` win. */
  method ImageAttributes(attrs: seq<Attr>) returns (id: Option<string>, encoding: Option<string>)
    ensures id == LastValue(attrs, {"id", "xml:id"})
    ensures encoding == LastValue(attrs, {"encoding"})
  {
    id, encoding := None, None;
    for i := 0 to |attrs|
      invariant id == LastValue(attrs[..i], {"id", "xml:id"})
      invariant encoding == LastValue(attrs[..i], {"encoding"})
    {
      var name := attrs[i].name;
      if name == "id" || name == "xml:id" {
        id := Some(attrs[i].value);
      } else if name == "encoding" {
        encoding := Some(attrs[i].value);
      }
      assert attrs[..i + 1][..i] == attrs[..i];
    }
    assert attrs[..|attrs|] == attrs;
  }

  /** The do-while loop of `parseImage` that skips to the image end tag. */
  method SkipToImageEnd(events: seq<Event>, q0: nat) returns (r: Result<nat, Exception>)
    ensures r == FindImageEnd(events, q0)
  {
    var q := q0;
    while q < |events| && !events[q].Malformed? && !IsImageEnd(events[q])
      invariant q0 <= q
      invariant FindImageEnd(events, q) == FindImageEnd(events, q0)
      decreases |events| - q
    {
      q := q + 1;
    }
    if q >= |events| || events[q].Malformed? {
      return Err(XmlPullParserException);
    }
    return Ok(q);
  }

  /** `parseImage`: the attribute loop, then the events up to the image end tag. */
  method ParseImage(events: seq<Event>, start: nat, decodeImage: string -> ImageDecoding)
    returns (r: Result<(Option<(string, Option<Bitmap>)>, nat), Exception>)
    requires start < |events| && events[start].StartTag?
    ensures r == ImageElement(events, start, decodeImage)
  {
    var id, encoding := ImageAttributes(events[start].attrs);
    var p := start + 1;
    if p >= |events| || events[p].Malformed? {
      return Err(XmlPullParserException);
    }
    if IsImageEnd(events[p]) {
      return Ok((None, p));
    }
    var encoded := if events[p].Text? then Some(events[p].text) else None;
    var close := SkipToImageEnd(events, p + 1);
    if close.Err? {
      return Err(close.error);
    }
    if encoding.None? || id.None? || encoded.None? || !EqualsIgnoreCase(encoding.value, "base64") {
      return Ok((None, close.value));
    }
    var decoded := decodeImage(encoded.value);
    if decoded.Undecodable? {
      return Ok((None, close.value));
    }
    return Ok((Some((id.value, decoded.bitmap)), close.value));
  }

  /**
   * The rest of `parseMetadata` from position `p`, the event after the last `next()`:
   * images are added as they are read, until the `metadata` end tag.
   */
  function MetadataFrom(events: seq<Event>, p: nat, images: map<string, Option<Bitmap>>, decodeImage: string -> ImageDecoding)
    : (r: Result<(map<string, Option<Bitmap>>, nat), Exception>)
    decreases |events| - p
    ensures r.Ok? ==> p <= r.value.1 < |events| && IsEndTag(events[r.value.1], "metadata")
    ensures r.Ok? ==> images.Keys <= r.value.0.Keys
  {
    if p >= |events| || events[p].Malformed? then Err(XmlPullParserException)
    else
      var (added, q) :-
        if IsImageStart(events[p]) then
          var (image, close) :- ImageElement(events, p, decodeImage);
          Ok((if image.Some? then images[image.value.0 := image.value.1] else images, close))
        else Ok((images, p));
      if IsEndTag(events[q], "metadata") then Ok((added, q))
      else MetadataFrom(events, q + 1, added, decodeImage)
  }

  /** `parseMetadata`: a new table, then a do-while loop over the events after the start tag at `start`. */
  method ParseMetadata(events: seq<Event>, start: nat, decodeImage: string -> ImageDecoding)
    returns (metadata: Metadata, r: Result<nat, Exception>)
    ensures fresh(metadata)
    ensures var spec := MetadataFrom(events, start + 1, map[], decodeImage);
      && (r.Ok? <==> spec.Ok?)
      && (r.Ok? ==> r.value == spec.value.1 && metadata.images == spec.value.0)
      && (r.Err? ==> r.error == spec.error)
  {
    metadata := new Metadata();
    var p := start + 1;
    while true
      invariant p >= start + 1
      invariant MetadataFrom(events, p, metadata.images, decodeImage) == MetadataFrom(events, start + 1, map[], decodeImage)
      decreases |events| - p
    {
      if p >= |events| || events[p].Malformed? {
        return metadata, Err(XmlPullParserException);
      }
      var q := p;
      if IsImageStart(events[p]) {
        var image := ParseImage(events, p, decodeImage);
        if image.Err? {
          return metadata, Err(image.error);
        }
        q := image.value.1;
        if image.value.0.Some? {
          metadata.AddImage(image.value.0.value.0, image.value.0.value.1);
        }
      }
      if IsEndTag(events[q], "metadata") {
        return metadata, Ok(q);
      }
      p := q + 1;
    }
  }

  /** A `metadata` element holding only images adds one image per decodable base64 image with an id. */
  lemma OneImage(id: string, encoding: string, text: string, decodeImage: string -> ImageDecoding, bitmap: Option<Bitmap>)
    requires EqualsIgnoreCase(encoding, "base64") && decodeImage(text) == Decoded(bitmap)
    ensures var events := [StartTag("metadata", []),
                           StartTag("image", [Attr("", "id", id), Attr("", "encoding", encoding)]),
                           Text(text), EndTag("image"), EndTag("metadata")];
      MetadataFrom(events, 1, map[], decodeImage) == Ok((map[id := bitmap], 4))
  {
    var attrs := [Attr("", "id", id), Attr("", "encoding", encoding)];
    assert attrs[..1] == [Attr("", "id", id)];
    assert LastValue(attrs, {"id", "xml:id"}) == Some(id);
    assert LastValue(attrs, {"encoding"}) == Some(encoding);
  }

  /** An image without a base64 encoding, without an id or without text is dropped. */
  lemma {:induction false} ImageDropRules(events: seq<Event>, start: nat, decodeImage: string -> ImageDecoding)
    requires start < |events| && events[start].StartTag?
    requires ImageElement(events, start, decodeImage).Ok?
    ensures var image := ImageElement(events, start, decodeImage).value.0;
      image.Some? ==>
        && LastValue(events[start].attrs, {"id", "xml:id"}) == Some(image.value.0)
        && LastValue(events[start].attrs, {"encoding"}).Some?
        && EqualsIgnoreCase(LastValue(events[start].attrs, {"encoding"}).value, "base64")
        && start + 1 < |events| && events[start + 1].Text?
        && decodeImage(events[start + 1].text) == Decoded(image.value.1)
  {
  }
}
