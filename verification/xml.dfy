/** The parsed XML document the response is read from, as an abstract tree: the
    libxml2 wrapper is replaced by its observable shape. */
module Xml {
  import opened Wrappers

  /** An element: its name, its attributes and its child elements in document order. */
  datatype XElem = XElem(name: string, attrs: map<string, string>, children: seq<XElem>)

  /** The attribute subscript `element["key"]`: absent attributes give `nil`. */
  function Attr(e: XElem, key: string): (r: Option<string>)
    ensures r.Some? <==> key in e.attrs
    ensures r.Some? ==> r.value == e.attrs[key]
  {
    Get(e.attrs, key)
  }
}
