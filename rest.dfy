/** `RESTResult` (src/besapi/besapi.py:574-704): one console answer, its
    validity, decided once at construction, and four views computed on
    first use and then kept. */
module Rest {

  import opened Base
  import opened Utf8
  import opened Xml
  import opened Elem2Dict

  /** The schemas `validate_xsd` tries, in this order. */
  const Schemas: seq<string> := ["BES.xsd", "BESAPI.xsd", "BESActionSettings.xsd"]

  /** The only content type accepted without looking at the body. */
  const XmlContentType: string := "application/xml"

  /** One HTTP answer: status, the `content-type` header when present,
      body text and the URL that was requested. */
  datatype Response = Response(status: int, contentType: Option<string>, text: string, url: string)

  // ---- validity

  /** The schema loop from position `i` on: the first schema that loads
      and accepts wins; a schema that does not load is re-raised. */
  function ScanSchemas(lib: XmlLib, tree: Element, i: nat): Outcome<bool>
    requires i <= |Schemas|
    decreases |Schemas| - i
  {
    if i == |Schemas| then Ok(false)
    else if !lib.schemaLoads(Schemas[i]) then Raised(SchemaParseError(Schemas[i]))
    else if lib.accepts(Schemas[i], tree) then Ok(true)
    else ScanSchemas(lib, tree, i + 1)
  }

  /** `validate_xsd(doc)`: a document that does not parse is invalid
      without any schema being consulted. */
  function ValidateXsd(lib: XmlLib, doc: Doc): Outcome<bool>
  {
    match lib.parse(doc)
    case None => Ok(false)
    case Some(tree) => ScanSchemas(lib, tree, 0)
  }

  /** Schema `i` loads and turns the tree down. */
  predicate Rejects(lib: XmlLib, tree: Element, i: nat)
    requires i < |Schemas|
  {
    lib.schemaLoads(Schemas[i]) && !lib.accepts(Schemas[i], tree)
  }

  /** Every schema from `i` up to, not including, `k` loads and rejects. */
  predicate RejectedBetween(lib: XmlLib, tree: Element, i: nat, k: nat)
    requires k <= |Schemas|
  {
    forall j :: i <= j < k ==> Rejects(lib, tree, j)
  }

  /** Schema `k` is the first from `i` on that does not reject: it loads
      and accepts. */
  predicate AcceptsFirstAt(lib: XmlLib, tree: Element, i: nat, k: nat) {
    i <= k < |Schemas| && lib.schemaLoads(Schemas[k]) && lib.accepts(Schemas[k], tree)
    && RejectedBetween(lib, tree, i, k)
  }

  /** Schema `k` is the first from `i` on that does not reject: it fails
      to load. */
  predicate BrokenFirstAt(lib: XmlLib, tree: Element, i: nat, k: nat) {
    i <= k < |Schemas| && !lib.schemaLoads(Schemas[k]) && RejectedBetween(lib, tree, i, k)
  }

  /** First match, in list order: the scan accepts exactly when some
      schema loads and accepts after all earlier ones loaded and rejected;
      it answers false exactly when all of them load and reject; it raises
      exactly when a schema that does not load comes first, and then with
      that schema's name. */
  lemma {:induction false} ScanFirstMatch(lib: XmlLib, tree: Element, i: nat)
    requires i <= |Schemas|
    ensures ScanSchemas(lib, tree, i) == Ok(true) <==> exists k: nat :: AcceptsFirstAt(lib, tree, i, k)
    ensures ScanSchemas(lib, tree, i) == Ok(false) <==> RejectedBetween(lib, tree, i, |Schemas|)
    ensures ScanSchemas(lib, tree, i).Raised? <==> exists k: nat :: BrokenFirstAt(lib, tree, i, k)
    ensures forall k: nat :: BrokenFirstAt(lib, tree, i, k) ==>
      ScanSchemas(lib, tree, i) == Raised(SchemaParseError(Schemas[k]))
    decreases |Schemas| - i
  {
    if i == |Schemas| {
      assert forall k: nat :: !AcceptsFirstAt(lib, tree, i, k) && !BrokenFirstAt(lib, tree, i, k);
    } else if !Rejects(lib, tree, i) {
      assert AcceptsFirstAt(lib, tree, i, i) || BrokenFirstAt(lib, tree, i, i);
      forall k: nat | i < k
        ensures !AcceptsFirstAt(lib, tree, i, k) && !BrokenFirstAt(lib, tree, i, k)
      {
        if k <= |Schemas| {
          assert !RejectedBetween(lib, tree, i, k) by { assert !Rejects(lib, tree, i); }
        }
      }
    } else {
      ScanFirstMatch(lib, tree, i + 1);
      forall k: nat
        ensures AcceptsFirstAt(lib, tree, i, k) <==> i < k && AcceptsFirstAt(lib, tree, i + 1, k)
        ensures BrokenFirstAt(lib, tree, i, k) <==> i < k && BrokenFirstAt(lib, tree, i + 1, k)
      {
        if i < k <= |Schemas| {
          assert RejectedBetween(lib, tree, i, k) <==> RejectedBetween(lib, tree, i + 1, k);
        }
      }
      assert RejectedBetween(lib, tree, i, |Schemas|) <==> RejectedBetween(lib, tree, i + 1, |Schemas|);
      var next := i + 1;
      if exists k: nat :: AcceptsFirstAt(lib, tree, next, k) {
        var k: nat :| AcceptsFirstAt(lib, tree, next, k);
        assert AcceptsFirstAt(lib, tree, i, k);
      }
      if exists k: nat :: BrokenFirstAt(lib, tree, next, k) {
        var k: nat :| BrokenFirstAt(lib, tree, next, k);
        assert BrokenFirstAt(lib, tree, i, k);
      }
    }
  }

  /** The loop of `validate_xsd`, leaving at the first schema that accepts. */
  method ValidateXsdLoop(lib: XmlLib, doc: Doc) returns (r: Outcome<bool>)
    ensures r == ValidateXsd(lib, doc)
  {
    var parsed := lib.parse(doc);
    if parsed.None? {
      return Ok(false);
    }
    var i := 0;
    while i < |Schemas|
      invariant 0 <= i <= |Schemas|
      invariant ScanSchemas(lib, parsed.value, 0) == ScanSchemas(lib, parsed.value, i)
    {
      var xsd := Schemas[i];
      if !lib.schemaLoads(xsd) {
        return Raised(SchemaParseError(xsd));
      }
      if lib.accepts(xsd, parsed.value) {
        return Ok(true);
      }
      i := i + 1;
    }
    return Ok(false);
  }

  /** The validity decision of the constructor: the XML content type
      suffices; otherwise the UTF-8 encoded body is validated, and if that
      fails the `str` body is validated once more. */
  function Validity(resp: Response, lib: XmlLib): Outcome<bool>
  {
    if resp.contentType == Some(XmlContentType) then Ok(true)
    else
      match ValidateXsd(lib, Bytes(Encode(resp.text)))
      case Raised(e) => Raised(e)
      case Ok(true) => Ok(true)
      case Ok(false) => ValidateXsd(lib, Text(resp.text))
  }

  /** `doc` parses and some schema accepts it, every earlier one loading
      and rejecting. */
  ghost predicate AcceptedFirst(lib: XmlLib, doc: Doc) {
    lib.parse(doc).Some? && exists k: nat :: AcceptsFirstAt(lib, lib.parse(doc).value, 0, k)
  }

  /** A result is valid exactly when its content type is `application/xml`
      or one of the two forms of its body is accepted by a schema, the
      second form tried only when the first was rejected without error.
      A body that parses in neither form is invalid whatever the schemas. */
  lemma ValidityIff(resp: Response, lib: XmlLib)
    ensures Validity(resp, lib) == Ok(true) <==>
      resp.contentType == Some(XmlContentType)
      || AcceptedFirst(lib, Bytes(Encode(resp.text)))
      || (ValidateXsd(lib, Bytes(Encode(resp.text))) == Ok(false) && AcceptedFirst(lib, Text(resp.text)))
    ensures resp.contentType != Some(XmlContentType)
            && lib.parse(Bytes(Encode(resp.text))).None? && lib.parse(Text(resp.text)).None?
            ==> Validity(resp, lib) == Ok(false)
  {
    var b, t := lib.parse(Bytes(Encode(resp.text))), lib.parse(Text(resp.text));
    if b.Some? { ScanFirstMatch(lib, b.value, 0); }
    if t.Some? { ScanFirstMatch(lib, t.value, 0); }
  }

  /** The same decision with the constructor's control flow. */
  method ValidityCheck(resp: Response, lib: XmlLib) returns (r: Outcome<bool>)
    ensures r == Validity(resp, lib)
  {
    if resp.contentType == Some(XmlContentType) {
      return Ok(true);
    }
    r := ValidateXsdLoop(lib, Bytes(Encode(resp.text)));
    if r == Ok(false) {
      r := ValidateXsdLoop(lib, Text(resp.text));
    }
  }

  /** What a constructed `RESTResult` amounts to as a value: the answer it
      wraps and its validity. */
  datatype Reply = Reply(response: Response, valid: bool)

  /** What constructing a `RESTResult` yields: PermissionError for a 403,
      otherwise the validity decision or the schema error it raised. */
  function WrapReply(resp: Response, lib: XmlLib): Outcome<Reply>
  {
    if resp.status == 403 then Raised(Forbidden(resp.text, resp.url))
    else
      match Validity(resp, lib)
      case Raised(e) => Raised(e)
      case Ok(v) => Ok(Reply(resp, v))
  }

  /** Whatever the body and the schemas, a 403 is refused; any other
      status is wrapped exactly when the validity decision raises nothing,
      and the reply keeps the answer unchanged. */
  lemma WrapReplySpec(resp: Response, lib: XmlLib)
    ensures resp.status == 403 ==> WrapReply(resp, lib) == Raised(Forbidden(resp.text, resp.url))
    ensures resp.status != 403 ==> (WrapReply(resp, lib).Ok? <==> Validity(resp, lib).Ok?)
    ensures WrapReply(resp, lib).Ok? ==>
      WrapReply(resp, lib).value.response == resp && resp.status != 403
      && (WrapReply(resp, lib).value.valid <==> Validity(resp, lib) == Ok(true))
  {
  }

  // ---- the four views, as functions of the body

  /** `xmlparse_text`: the canonical serialisation of the parsed body. */
  function XmlView(lib: XmlLib, text: string): Outcome<seq<byte>>
  {
    match lib.parse(Bytes(Encode(text)))
    case None => Raised(XmlSyntaxError)
    case Some(tree) => Ok(lib.serialize(tree))
  }

  /** `objectify_text`: the parsed body as a tree. */
  function ObjView(lib: XmlLib, text: string): Outcome<Element>
  {
    match lib.parse(Bytes(Encode(text)))
    case None => Raised(XmlSyntaxError)
    case Some(tree) => Ok(tree)
  }

  /** `str(result)`: the decoded canonical XML when valid, the raw text
      otherwise. Bytes that do not decode make `__str__` return bytes,
      which `str()` refuses. */
  function StrView(lib: XmlLib, text: string, valid: bool): Outcome<string>
  {
    if !valid then Ok(text)
    else
      match XmlView(lib, text)
      case Raised(e) => Raised(e)
      case Ok(b) =>
        match Decode(b)
        case None => Raised(TypeMismatch)
        case Some(s) => Ok(s)
  }

  /** `besdict`: `elem2dict` of the re-parsed canonical XML when valid,
      `{"text": str(result)}` otherwise. */
  function DictView(lib: XmlLib, text: string, valid: bool): Outcome<map<string, DValue>>
  {
    if !valid then Ok(map["text" := DText(text)])
    else
      match XmlView(lib, text)
      case Raised(e) => Raised(e)
      case Ok(b) =>
        match lib.parse(Bytes(b))
        case None => Raised(XmlSyntaxError)
        case Some(tree) => Elem2Dict.Elem2Dict(tree)
  }

  /** `besjson`: `json.dumps` of the dictionary view. */
  function JsonView(lib: XmlLib, text: string, valid: bool): Outcome<string>
  {
    match DictView(lib, text, valid)
    case Raised(e) => Raised(e)
    case Ok(d) => Ok(lib.dumps(d))
  }

  /** When the canonical serialisation is the UTF-8 encoding of some text,
      `str()` of a valid result is exactly that text. */
  lemma StrOfValid(lib: XmlLib, text: string, xml: string)
    requires lib.parse(Bytes(Encode(text))).Some?
    requires lib.serialize(lib.parse(Bytes(Encode(text))).value) == Encode(xml)
    ensures StrView(lib, text, true) == Ok(xml)
  {
    DecodeEncode(xml);
  }

  /** An invalid result's dictionary is `{"text": str(result)}`. */
  lemma InvalidDict(lib: XmlLib, text: string)
    ensures StrView(lib, text, false) == Ok(text)
    ensures DictView(lib, text, false) == Ok(map["text" := DText(StrView(lib, text, false).value)])
    ensures JsonView(lib, text, false) == Ok(lib.dumps(map["text" := DText(text)]))
  {
  }

  function AsOption<T>(o: Outcome<T>): Outcome<Option<T>>
  {
    match o
    case Raised(e) => Raised(e)
    case Ok(v) => Ok(Some(v))
  }

  class RESTResult {
    const response: Response
    const lib: XmlLib
    const text: string
    const valid: bool
    var besxmlCache: Option<seq<byte>>
    var besobjCache: Option<Element>
    var besdictCache: Option<map<string, DValue>>
    var besjsonCache: Option<string>
    /** How often each view was computed rather than read from its cache. */
    ghost var xmlRuns: nat
    ghost var objRuns: nat
    ghost var dictRuns: nat
    ghost var jsonRuns: nat

    /** A filled cache holds what its view computes, and an invalid result
        never fills the XML or object cache. */
    ghost predicate Coherent()
      reads this
    {
      && (!valid ==> besxmlCache.None? && besobjCache.None?)
      && (besxmlCache.Some? ==> XmlView(lib, text) == Ok(besxmlCache.value))
      && (besobjCache.Some? ==> ObjView(lib, text) == Ok(besobjCache.value))
      && (besdictCache.Some? ==> DictView(lib, text, valid) == Ok(besdictCache.value))
      && (besjsonCache.Some? ==> JsonView(lib, text, valid) == Ok(besjsonCache.value))
    }

    /** The state right after construction. */
    ghost predicate Untouched()
      reads this
    {
      besxmlCache.None? && besobjCache.None? && besdictCache.None? && besjsonCache.None?
      && xmlRuns == 0 && objRuns == 0 && dictRuns == 0 && jsonRuns == 0
    }

    /** Only reachable for what the source's constructor returns normally:
        not a 403, and a validity decision that raised nothing. */
    constructor (response: Response, lib: XmlLib, valid: bool)
      requires WrapReply(response, lib) == Ok(Reply(response, valid))
      ensures this.response == response && this.lib == lib && this.text == response.text
      ensures this.valid == valid
      ensures Untouched() && Coherent()
    {
      this.response := response;
      this.lib := lib;
      this.text := response.text;
      this.valid := valid;
      besxmlCache, besobjCache, besdictCache, besjsonCache := None, None, None, None;
      xmlRuns, objRuns, dictRuns, jsonRuns := 0, 0, 0, 0;
    }

    /** `besxml`: computed on the first access of a valid result, then
        read from the cache; `None` for an invalid result. */
    method BesXml() returns (r: Outcome<Option<seq<byte>>>)
      requires Coherent()
      modifies this`besxmlCache, this`xmlRuns
      ensures Coherent()
      ensures r == if valid then AsOption(XmlView(lib, text)) else Ok(None)
      ensures besxmlCache == if valid && XmlView(lib, text).Ok? then Some(XmlView(lib, text).value)
                             else old(besxmlCache)
      ensures xmlRuns == old(xmlRuns) + (if valid && old(besxmlCache).None? then 1 else 0)
    {
      if valid && besxmlCache.None? {
        xmlRuns := xmlRuns + 1;
        var parsed := lib.parse(Bytes(Encode(text)));
        if parsed.None? {
          return Raised(XmlSyntaxError);
        }
        besxmlCache := Some(lib.serialize(parsed.value));
      }
      return Ok(besxmlCache);
    }

    /** `besobj`, memoised like `besxml`. */
    method BesObj() returns (r: Outcome<Option<Element>>)
      requires Coherent()
      modifies this`besobjCache, this`objRuns
      ensures Coherent()
      ensures r == if valid then AsOption(ObjView(lib, text)) else Ok(None)
      ensures besobjCache == if valid && ObjView(lib, text).Ok? then Some(ObjView(lib, text).value)
                             else old(besobjCache)
      ensures objRuns == old(objRuns) + (if valid && old(besobjCache).None? then 1 else 0)
    {
      if valid && besobjCache.None? {
        objRuns := objRuns + 1;
        var parsed := lib.parse(Bytes(Encode(text)));
        if parsed.None? {
          return Raised(XmlSyntaxError);
        }
        besobjCache := Some(parsed.value);
      }
      return Ok(besobjCache);
    }

    /** `result()`: the object view. */
    method Call() returns (r: Outcome<Option<Element>>)
      requires Coherent()
      modifies this`besobjCache, this`objRuns
      ensures Coherent()
      ensures r == if valid then AsOption(ObjView(lib, text)) else Ok(None)
      ensures besobjCache == if valid && ObjView(lib, text).Ok? then Some(ObjView(lib, text).value)
                             else old(besobjCache)
      ensures objRuns == old(objRuns) + (if valid && old(besobjCache).None? then 1 else 0)
    {
      r := BesObj();
    }

    /** `__str__`; a failed serialisation is retried once by the `except`
        branch and raises the same way. */
    method Str() returns (r: Outcome<string>)
      requires Coherent()
      modifies this`besxmlCache, this`xmlRuns
      ensures Coherent()
      ensures r == StrView(lib, text, valid)
      ensures besxmlCache == if valid && XmlView(lib, text).Ok? then Some(XmlView(lib, text).value)
                             else old(besxmlCache)
      ensures !valid ==> xmlRuns == old(xmlRuns)
    {
      if !valid {
        return Ok(text);
      }
      var x := BesXml();
      if x.Raised? {
        x := BesXml();
        return Raised(x.error);
      }
      var s := Decode(x.value.value);
      if s.None? {
        return Raised(TypeMismatch);
      }
      return Ok(s.value);
    }

    /** `besdict`: computed once; reading it of a valid result also fills
        the `besxml` cache. */
    method BesDict() returns (r: Outcome<map<string, DValue>>)
      requires Coherent()
      modifies this`besdictCache, this`besxmlCache, this`xmlRuns, this`dictRuns
      ensures Coherent()
      ensures r == DictView(lib, text, valid)
      ensures besdictCache == if DictView(lib, text, valid).Ok? then Some(DictView(lib, text, valid).value)
                              else old(besdictCache)
      ensures besxmlCache == if valid && old(besdictCache).None? && XmlView(lib, text).Ok?
                             then Some(XmlView(lib, text).value) else old(besxmlCache)
      ensures dictRuns == old(dictRuns) + (if old(besdictCache).None? then 1 else 0)
    {
      if besdictCache.None? {
        dictRuns := dictRuns + 1;
        if valid {
          var x := BesXml();
          if x.Raised? {
            return Raised(x.error);
          }
          var tree := lib.parse(Bytes(x.value.value));
          if tree.None? {
            return Raised(XmlSyntaxError);
          }
          var d := Elem2DictLoop(tree.value);
          if d.Raised? {
            return Raised(d.error);
          }
          besdictCache := Some(d.value);
        } else {
          var s := Str();
          besdictCache := Some(map["text" := DText(s.value)]);
        }
      }
      return Ok(besdictCache.value);
    }

    /** `besjson`: computed once from the dictionary view. */
    method BesJson() returns (r: Outcome<string>)
      requires Coherent()
      modifies this`besjsonCache, this`besdictCache, this`besxmlCache
      modifies this`xmlRuns, this`dictRuns, this`jsonRuns
      ensures Coherent()
      ensures r == JsonView(lib, text, valid)
      ensures besjsonCache == if JsonView(lib, text, valid).Ok? then Some(JsonView(lib, text, valid).value)
                              else old(besjsonCache)
      ensures old(besjsonCache).Some? ==> besdictCache == old(besdictCache) && dictRuns == old(dictRuns)
      ensures jsonRuns == old(jsonRuns) + (if old(besjsonCache).None? then 1 else 0)
    {
      if besjsonCache.None? {
        jsonRuns := jsonRuns + 1;
        var d := BesDict();
        if d.Raised? {
          return Raised(d.error);
        }
        besjsonCache := Some(lib.dumps(d.value));
      }
      return Ok(besjsonCache.value);
    }
  }

  /** The value a wrapped result stands for. */
  function Summary(r: Outcome<RESTResult>): Outcome<Reply>
  {
    match r
    case Raised(e) => Raised(e)
    case Ok(result) => Ok(Reply(result.response, result.valid))
  }

  /** A result freshly wrapped and not yet looked at. */
  ghost predicate FreshResult(r: Outcome<RESTResult>, lib: XmlLib)
    reads if r.Ok? then {r.value} else {}
  {
    r.Ok? ==> r.value.lib == lib && r.value.text == r.value.response.text
              && r.value.Untouched() && r.value.Coherent()
  }

  /** Wrapping a response as the verbs do: PermissionError for a 403,
      the schema error if validation raised, otherwise a new result. */
  method Wrap(resp: Response, lib: XmlLib) returns (r: Outcome<RESTResult>)
    ensures Summary(r) == WrapReply(resp, lib)
    ensures r.Ok? ==> fresh(r.value)
    ensures FreshResult(r, lib)
  {
    if resp.status == 403 {
      return Raised(Forbidden(resp.text, resp.url));
    }
    var v := ValidityCheck(resp, lib);
    if v.Raised? {
      return Raised(v.error);
    }
    var result := new RESTResult(resp, lib, v.value);
    return Ok(result);
  }

  /** Two accesses to `besxml` return the same outcome, and a view that
      could be computed is computed at most once over both. */
  method MemoisedTwice(result: RESTResult)
    returns (first: Outcome<Option<seq<byte>>>, second: Outcome<Option<seq<byte>>>)
    requires result.Coherent()
    modifies result`besxmlCache, result`xmlRuns
    ensures first == second
    ensures XmlView(result.lib, result.text).Ok? ==> result.xmlRuns <= old(result.xmlRuns) + 1
    ensures !result.valid ==> result.xmlRuns == old(result.xmlRuns)
  {
    first := result.BesXml();
    second := result.BesXml();
  }
}
