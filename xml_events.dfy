/**
 * The XML pull parser, reduced to the events the decoder reads. A document is the
 * sequence of events after START_DOCUMENT; the end of the sequence is END_DOCUMENT.
 * `Malformed` stands for the point at which the tokenizer raises
 * XmlPullParserException. Names are the local names a namespace-aware parser reports.
 */
module XmlEvents {
  import opened Wrappers

  datatype Attr = Attr(namespace: string, name: string, value: string)

  datatype Event =
    | StartTag(name: string, attrs: seq<Attr>)
    | EndTag(name: string)
    | Text(text: string)
    | Malformed

  /** `XmlPullParserUtil.isStartTag(parser, name)`. */
  predicate IsStartTag(e: Event, name: string) {
    e.StartTag? && e.name == name
  }

  /** `XmlPullParserUtil.isEndTag(parser, name)`. */
  predicate IsEndTag(e: Event, name: string) {
    e.EndTag? && e.name == name
  }

  /** `XmlPullParserUtil.getAttributeValue(parser, name)`: the value of the first attribute with that local name. */
  function AttributeValue(attrs: seq<Attr>, name: string): (r: Option<string>)
    ensures r.None? <==> forall i :: 0 <= i < |attrs| ==> attrs[i].name != name
    ensures r.Some? ==> (exists i :: 0 <= i < |attrs| && attrs[i].name == name && attrs[i].value == r.value
                                    && forall j :: 0 <= j < i ==> attrs[j].name != name)
  {
    if attrs == [] then None
    else if attrs[0].name == name then Some(attrs[0].value)
    else AttributeValue(attrs[1..], name)
  }

  /** `XmlPullParser.getAttributeValue(namespace, name)`: the first attribute with that namespace and local name. */
  function NamespacedValue(attrs: seq<Attr>, namespace: string, name: string): (r: Option<string>)
    ensures r.None? <==> forall i :: 0 <= i < |attrs| ==> !(attrs[i].namespace == namespace && attrs[i].name == name)
    ensures r.Some? ==> (exists i :: 0 <= i < |attrs| && attrs[i].namespace == namespace && attrs[i].name == name
                                    && attrs[i].value == r.value
                                    && forall j :: 0 <= j < i ==> !(attrs[j].namespace == namespace && attrs[j].name == name))
  {
    if attrs == [] then None
    else if attrs[0].namespace == namespace && attrs[0].name == name then Some(attrs[0].value)
    else NamespacedValue(attrs[1..], namespace, name)
  }
}
