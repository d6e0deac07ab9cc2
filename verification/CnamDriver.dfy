/** The CNAM driver's two uses of JSON: the url made from a request, and the wrapping of a reply. */
module CnamDrivers {
  import opened Wrappers
  import opened Bytes
  import opened JsonValue
  import opened JsonParse
  import opened JsonHeaps
  import opened JsonTrees
  import opened JsonViews
  import opened JsonGroves
  import opened JsonParsers
  import opened JsonReferences
  import opened PrintBuffers
  import opened UrlTemplates

  datatype Reply = NotJson | NotAnObject | RawData(text: Printed)

  lemma ParsedTree(n0: Nodes, t0: Texts, n1: Nodes, t1: Texts, t: Tree)
    requires Grove(n0, t0, n1, t1, [t])
    ensures Shows(n1, t1, t) && Owns(n1, t1, t) && Separate(n1, t)
    ensures n1 - Ptrs(t) == n0 && t1 - TextsOf(n1, t) == t0
  {
    GroveCleared(n0, t0, n1, t1, [t]);
    AllTextsAdded(n1, t1, [], t);
    assert [] + [t] == [t] && [t][..0] == [] && [t][0] == t;
    NoChildren(n1, n1);
    NothingBelow();
  }

  /**
   A reply's body, whatever its bytes, leaves the memory as it was: all that was allocated to parse, wrap and
   print it is freed, once. The raw data is the wrapper's text, when the body is an object.
   */
  method Parse(h: Heap, data: Text, reallocates: bool) returns (r: Reply)
    requires h.Valid()
    modifies h
    ensures h.Valid() && h.nodes == old(h.nodes) && h.texts == old(h.texts)
    ensures match ParseText(CString(data), false)
            case Failed(_) => r == NotJson
            case Parsed(v, _) =>
              if !v.Object? then r == NotAnObject
              else r.RawData? && (Printable(v) ==> r.text == PrintedText(WrappedValue(v)))
  {
    hide ParseText, Grove, Shows, Owns, Separate, JsonOf, Printable, PrintedText, TextsOf, Ptrs;
    var item, end, t := ParseWithOpts(h, CString(data), false);
    if item == 0 {
      return NotJson;
    }
    ParsedTree(old(h.nodes), old(h.texts), h.nodes, h.texts, t);
    var text := ParseReply(h, item, reallocates, t);
    return if text.None? then NotAnObject else RawData(text.value);
  }

  datatype Request = BadJson | NotObject | Request(url: Filled)

  /** The url of a request, or what is wrong with it; the parsed request is gone again. */
  method Resolve(h: Heap, templates: TemplateProcessor, data: Text) returns (r: Request)
    requires h.Valid()
    modifies h
    ensures h.Valid() && h.nodes == old(h.nodes) && h.texts == old(h.texts)
    ensures r == match ParseText(CString(data), false)
                 case Failed(_) => BadJson
                 case Parsed(v, _) =>
                   if v.Object? then Request(Fill(templates.uriParts, v.members)) else NotObject
  {
    hide ParseText, Grove, Shows, Owns, Separate, JsonOf, Fill, TextsOf, Ptrs;
    var item, end, t := ParseWithOpts(h, CString(data), false);
    if item == 0 {
      return BadJson;
    }
    ParsedTree(old(h.nodes), old(h.texts), h.nodes, h.texts, t);
    var v := Read(h, item, t);
    if v.Object? {
      var url := templates.GetUrl(v.members);
      r := Request(url);
    } else {
      r := NotObject;
    }
    DeleteTree(h, item, t);
  }
}
