/** The XML the library receives, as an explicit tagged tree, and the
    behaviour of lxml and json it relies on, as an oracle record: parsing,
    schema loading and acceptance, canonical serialisation and `json.dumps`
    are given, not computed, so every property proved holds for any
    behaviour of those libraries. */
module Xml {

  import opened Base
  import opened Utf8
  import opened Strings

  /** An element: tag (in `{namespace}local` notation when namespaced),
      attributes, text before the first child (`None` when absent) and
      children in document order. */
  datatype Element = Element(tag: string, attrs: map<string, string>, text: Option<string>,
                             children: seq<Element>)

  /** What is handed to the parser: encoded bytes or a `str`. */
  datatype Doc = Bytes(b: seq<byte>) | Text(s: string)

  /** A value of the nested dictionary `elem2dict` builds. */
  datatype DValue = DText(s: string) | DDict(m: map<string, DValue>) | DList(items: seq<DValue>)

  datatype XmlLib = XmlLib(
    parse: Doc -> Option<Element>,             // etree/objectify fromstring; None: XMLSyntaxError
    schemaLoads: string -> bool,               // schemas/<name> parses and compiles as XMLSchema
    accepts: (string, Element) -> bool,        // XMLSchema(<name>).validate(tree)
    serialize: Element -> seq<byte>,           // tostring(tree, encoding="utf-8", xml_declaration=True)
    dumps: map<string, DValue> -> string,      // json.dumps(d, indent=2)
    leafStr: Element -> string)                // str() of an objectify leaf: its text after
                                               // objectify's type conversion ("007" gives "7")

  /** The children of `e` with tag `tag`, in order: what iterating over
      objectify's `e.<tag>` yields. */
  function ChildrenNamed(e: Element, tag: string): (r: seq<Element>)
  {
    Named(e.children, tag)
  }

  function Named(es: seq<Element>, tag: string): (r: seq<Element>)
    ensures forall i :: 0 <= i < |r| ==> r[i].tag == tag && r[i] in es
    ensures |r| == 0 <==> forall i :: 0 <= i < |es| ==> es[i].tag != tag
  {
    if es == [] then []
    else if es[0].tag == tag then [es[0]] + Named(es[1..], tag)
    else Named(es[1..], tag)
  }

  /** objectify's `e.<tag>`: the first such child, or AttributeError
      "no such child". */
  function Child(e: Element, tag: string): (r: Outcome<Element>)
    ensures r.Ok? <==> ChildrenNamed(e, tag) != []
    ensures r.Ok? ==> r.value == ChildrenNamed(e, tag)[0]
  {
    var named := ChildrenNamed(e, tag);
    if named == [] then Raised(NoSuchChild(tag)) else Ok(named[0])
  }

  /** `tag.split("}")[1] if "}" in tag else tag`: the tag without its
      `{namespace}` part. */
  function LocalName(tag: string): (r: string)
  {
    if '}' !in tag then tag
    else
      var rest := tag[FindChar(tag, '}') + 1..];
      if '}' in rest then rest[..FindChar(rest, '}')] else rest
  }

  /** A local name never holds `}`; a tag without `}` is its own local name,
      and Clark notation `{ns}name` gives back `name`. */
  lemma LocalNameClark(ns: string, name: string)
    requires '}' !in ns && '}' !in name
    ensures LocalName(name) == name
    ensures LocalName("{" + ns + "}" + name) == name
  {
    var tag := "{" + ns + "}" + name;
    assert tag[|ns| + 1] == '}';
    var k := FindChar(tag, '}');
    assert forall j :: 1 <= j <= |ns| ==> tag[j] == ns[j - 1];
    assert tag[k + 1..] == name;
  }

  lemma LocalNameNoBrace(tag: string)
    ensures '}' in tag ==> '}' !in LocalName(tag)
  {
    if '}' in tag {
      var rest := tag[FindChar(tag, '}') + 1..];
      if '}' in rest {
        var k := FindChar(rest, '}');
        assert forall j :: 0 <= j < k ==> rest[..k][j] == rest[j];
      }
    }
  }
}
