/** The older client at the repository root (besapi.py): the same design
    without root normalisation, login refresh, the 403 check or the
    dictionary and JSON views. Validity and `validate_xsd` are those of
    `Rest`; a schema that does not load raises here as well. */
module Legacy {

  import opened Base
  import opened Utf8
  import opened Xml
  import opened Resolve
  import opened Rest
  import opened Session

  /** Wrapping an answer: no status is refused, only the validity
      decision can raise. */
  function LegacyWrap(resp: Response, lib: XmlLib): Outcome<Reply>
  {
    match Validity(resp, lib)
    case Raised(e) => Raised(e)
    case Ok(v) => Ok(Reply(resp, v))
  }

  /** One request: sent to `url(path)` under the verbatim root, then wrapped. */
  function LegacyExchange(env: Env, sent: seq<Request>, verb: Verb, path: string, body: Body): (Outcome<Reply>, seq<Request>)
  {
    var req := Request(verb, Url(env.root, path), body, map[]);
    (LegacyWrap(env.server(sent, req), env.lib), sent + [req])
  }

  /** `login()`: whether `GET login` answers 200. */
  function LegacyLogin(env: Env, sent: seq<Request>): (Outcome<bool>, seq<Request>)
  {
    var (out, after) := LegacyExchange(env, sent, GET, "login", NoBody);
    (if out.Raised? then Raised(out.error) else Ok(out.value.response.status == 200), after)
  }

  /** The constructor: a login, and when it answered false a second
      `GET login` whose 4xx or 5xx status raises; any other status leaves
      an unauthenticated connection. */
  function LegacyConnect(env: Env): (Outcome<bool>, seq<Request>)
  {
    var (ok, sent1) := LegacyLogin(env, []);
    if ok.Raised? then (Raised(ok.error), sent1)
    else if ok.value then (Ok(true), sent1)
    else
      var (again, sent2) := LegacyExchange(env, sent1, GET, "login", NoBody);
      if again.Raised? then (Raised(again.error), sent2)
      else
        var status := again.value.response.status;
        if 400 <= status < 600 then (Raised(HttpError(status)), sent2) else (Ok(false), sent2)
  }

  /** `login()` is true exactly when the answer to `GET login` is 200, and
      raises only when its validity decision does; it always sends exactly
      that one request. */
  lemma LegacyLoginSpec(env: Env, sent: seq<Request>)
    ensures var resp := env.server(sent, Request(GET, Url(env.root, "login"), NoBody, map[]));
      && LegacyLogin(env, sent).1 == sent + [Request(GET, Url(env.root, "login"), NoBody, map[])]
      && (LegacyLogin(env, sent).0.Raised? <==> Validity(resp, env.lib).Raised?)
      && (LegacyLogin(env, sent).0.Ok? ==> (LegacyLogin(env, sent).0.value <==> resp.status == 200))
  {
  }

  /** A connection is returned logged in after one request when the login
      answers 200; otherwise a second `GET login` is sent, and the
      connection is refused when it answers 4xx or 5xx. No 403 is refused
      as such. */
  lemma LegacyConnectSpec(env: Env)
    ensures var login := Request(GET, Url(env.root, "login"), NoBody, map[]);
      var first := env.server([], login);
      var second := env.server([login], login);
      && (LegacyConnect(env).0 == Ok(true) <==> Validity(first, env.lib).Ok? && first.status == 200)
      && (Validity(first, env.lib).Ok? && first.status != 200 ==>
            LegacyConnect(env).1 == [login, login]
            && (LegacyConnect(env).0.Ok? <==> Validity(second, env.lib).Ok? && !(400 <= second.status < 600)))
  {
    var login := Request(GET, Url(env.root, "login"), NoBody, map[]);
    assert LegacyLogin(env, []).1 == [login];
  }

  /** `RESTResult` of besapi.py. */
  class LegacyResult {
    const response: Response
    const lib: XmlLib
    const text: string
    const valid: bool
    var besxmlCache: Option<seq<byte>>
    var besobjCache: Option<Element>
    ghost var xmlRuns: nat
    ghost var objRuns: nat

    ghost predicate Coherent()
      reads this
    {
      && (!valid ==> besxmlCache.None? && besobjCache.None?)
      && (besxmlCache.Some? ==> XmlView(lib, text) == Ok(besxmlCache.value))
      && (besobjCache.Some? ==> ObjView(lib, text) == Ok(besobjCache.value))
    }

    constructor (response: Response, lib: XmlLib, valid: bool)
      requires LegacyWrap(response, lib) == Ok(Reply(response, valid))
      ensures this.response == response && this.lib == lib && text == response.text && this.valid == valid
      ensures besxmlCache.None? && besobjCache.None? && xmlRuns == 0 && objRuns == 0
      ensures Coherent()
    {
      this.response := response;
      this.lib := lib;
      this.text := response.text;
      this.valid := valid;
      besxmlCache, besobjCache := None, None;
      xmlRuns, objRuns := 0, 0;
    }

    /** `besxml`: computed once, and only for a valid result. */
    method BesXml() returns (r: Outcome<Option<seq<byte>>>)
      requires Coherent()
      modifies this`besxmlCache, this`xmlRuns
      ensures Coherent()
      ensures r == if valid then AsOption(XmlView(lib, text)) else Ok(None)
      ensures besxmlCache == if valid && XmlView(lib, text).Ok? then Some(XmlView(lib, text).value)
                             else old(besxmlCache)
      ensures xmlRuns == old(xmlRuns) + (if valid && old(besxmlCache).None? then 1 else 0)
    {
      if valid && besxmlCache.None? {
        xmlRuns := xmlRuns + 1;
        var parsed := lib.parse(Bytes(Encode(text)));
        if parsed.None? {
          return Raised(XmlSyntaxError);
        }
        besxmlCache := Some(lib.serialize(parsed.value));
      }
      return Ok(besxmlCache);
    }

    /** `besobj`: computed once, and only for a valid result. */
    method BesObj() returns (r: Outcome<Option<Element>>)
      requires Coherent()
      modifies this`besobjCache, this`objRuns
      ensures Coherent()
      ensures r == if valid then AsOption(ObjView(lib, text)) else Ok(None)
      ensures besobjCache == if valid && ObjView(lib, text).Ok? then Some(ObjView(lib, text).value)
                             else old(besobjCache)
      ensures objRuns == old(objRuns) + (if valid && old(besobjCache).None? then 1 else 0)
    {
      if valid && besobjCache.None? {
        objRuns := objRuns + 1;
        var parsed := lib.parse(Bytes(Encode(text)));
        if parsed.None? {
          return Raised(XmlSyntaxError);
        }
        besobjCache := Some(parsed.value);
      }
      return Ok(besobjCache);
    }

    /** `result()`: the object view. */
    method Call() returns (r: Outcome<Option<Element>>)
      requires Coherent()
      modifies this`besobjCache, this`objRuns
      ensures Coherent()
      ensures r == if valid then AsOption(ObjView(lib, text)) else Ok(None)
      ensures besobjCache == if valid && ObjView(lib, text).Ok? then Some(ObjView(lib, text).value)
                             else old(besobjCache)
    {
      r := BesObj();
    }

    /** `__str__`: the serialised bytes themselves when valid, the text
        otherwise. */
    method Str() returns (r: Outcome<Shown>)
      requires Coherent()
      modifies this`besxmlCache, this`xmlRuns
      ensures Coherent()
      ensures r == ShownOf(lib, text, valid)
      ensures besxmlCache == if valid && XmlView(lib, text).Ok? then Some(XmlView(lib, text).value)
                             else old(besxmlCache)
    {
      if !valid {
        return Ok(Raw(text));
      }
      var x := BesXml();
      if x.Raised? {
        return Raised(x.error);
      }
      return Ok(Serialized(x.value.value));
    }
  }

  /** What `str()` shows: bytes of the canonical XML, or the raw text. */
  datatype Shown = Serialized(b: seq<byte>) | Raw(s: string)

  function ShownOf(lib: XmlLib, text: string, valid: bool): Outcome<Shown>
  {
    if !valid then Ok(Raw(text))
    else
      match XmlView(lib, text)
      case Raised(e) => Raised(e)
      case Ok(b) => Ok(Serialized(b))
  }

  /** For text the parser reads back from its canonical form, the bytes
      shown decode to the text the current client would show. */
  lemma ShownAgreesWithStr(lib: XmlLib, text: string, valid: bool)
    requires ShownOf(lib, text, valid).Ok?
    ensures ShownOf(lib, text, valid).value.Raw? <==> !valid
    ensures ShownOf(lib, text, valid).value.Serialized? && StrView(lib, text, valid).Ok? ==>
      Decode(ShownOf(lib, text, valid).value.b) == Some(StrView(lib, text, valid).value)
  {
  }

  /** Wrapping as besapi.py does: never PermissionError. */
  method LegacyWrapResult(resp: Response, lib: XmlLib) returns (r: Outcome<LegacyResult>)
    ensures r.Raised? <==> LegacyWrap(resp, lib).Raised?
    ensures r.Raised? ==> r.error == LegacyWrap(resp, lib).error
    ensures r.Ok? ==> fresh(r.value) && Ok(Reply(r.value.response, r.value.valid)) == LegacyWrap(resp, lib)
                      && r.value.lib == lib && r.value.text == resp.text && r.value.Coherent()
  {
    var v := ValidityCheck(resp, lib);
    if v.Raised? {
      return Raised(v.error);
    }
    var result := new LegacyResult(resp, lib, v.value);
    return Ok(result);
  }

  /** `BESConnection` of besapi.py: the root is kept as given. */
  class LegacyConnection {
    const rootserver: string
    const lib: XmlLib
    const server: Server
    var sent: seq<Request>

    function EnvOf(): Env {
      Env(rootserver, lib, server)
    }

    constructor Init(rootserver: string, lib: XmlLib, server: Server)
      ensures this.rootserver == rootserver && this.lib == lib && this.server == server && sent == []
    {
      this.rootserver := rootserver;
      this.lib := lib;
      this.server := server;
      sent := [];
    }

    /** `BESConnection(...)`: log in, and on a false login let
        `raise_for_status` of a second `GET login` decide. */
    static method Connect(rootserver: string, lib: XmlLib, server: Server) returns (r: Outcome<LegacyConnection>)
      ensures var (out, sent) := LegacyConnect(Env(rootserver, lib, server));
        (r.Raised? <==> out.Raised?) && (r.Raised? ==> r.error == out.error)
        && (r.Ok? ==> fresh(r.value) && r.value.EnvOf() == Env(rootserver, lib, server) && r.value.sent == sent)
    {
      var conn := new LegacyConnection.Init(rootserver, lib, server);
      var ok := conn.Login();
      if ok.Raised? {
        return Raised(ok.error);
      }
      if !ok.value {
        var again := conn.Get("login");
        if again.Raised? {
          return Raised(again.error);
        }
        var status := again.value.response.status;
        if 400 <= status < 600 {
          return Raised(HttpError(status));
        }
      }
      return Ok(conn);
    }

    method Send(verb: Verb, path: string, body: Body) returns (r: Outcome<LegacyResult>)
      modifies this`sent
      ensures var (out, after) := LegacyExchange(EnvOf(), old(sent), verb, path, body);
        sent == after && (r.Raised? <==> out.Raised?) && (r.Raised? ==> r.error == out.error)
        && (r.Ok? ==> fresh(r.value) && out == Ok(Reply(r.value.response, r.value.valid))
                      && r.value.lib == lib && r.value.text == r.value.response.text && r.value.Coherent())
    {
      var req := Request(verb, Url(rootserver, path), body, map[]);
      var resp := server(sent, req);
      sent := sent + [req];
      r := LegacyWrapResult(resp, lib);
    }

    /** `get(path)` */
    method Get(path: string) returns (r: Outcome<LegacyResult>)
      modifies this`sent
      ensures var (out, after) := LegacyExchange(EnvOf(), old(sent), GET, path, NoBody);
        sent == after && (r.Raised? <==> out.Raised?) && (r.Raised? ==> r.error == out.error)
        && (r.Ok? ==> fresh(r.value) && out == Ok(Reply(r.value.response, r.value.valid)))
    {
      r := Send(GET, path, NoBody);
    }

    /** `post(path, data)` */
    method Post(path: string, body: Body) returns (r: Outcome<LegacyResult>)
      modifies this`sent
      ensures var (out, after) := LegacyExchange(EnvOf(), old(sent), POST, path, body);
        sent == after && (r.Raised? <==> out.Raised?) && (r.Raised? ==> r.error == out.error)
        && (r.Ok? ==> fresh(r.value) && out == Ok(Reply(r.value.response, r.value.valid)))
    {
      r := Send(POST, path, body);
    }

    /** `put(path, data)` */
    method Put(path: string, body: Body) returns (r: Outcome<LegacyResult>)
      modifies this`sent
      ensures var (out, after) := LegacyExchange(EnvOf(), old(sent), PUT, path, body);
        sent == after && (r.Raised? <==> out.Raised?) && (r.Raised? ==> r.error == out.error)
        && (r.Ok? ==> fresh(r.value) && out == Ok(Reply(r.value.response, r.value.valid)))
    {
      r := Send(PUT, path, body);
    }

    /** `delete(path)` */
    method Delete(path: string) returns (r: Outcome<LegacyResult>)
      modifies this`sent
      ensures var (out, after) := LegacyExchange(EnvOf(), old(sent), DELETE, path, NoBody);
        sent == after && (r.Raised? <==> out.Raised?) && (r.Raised? ==> r.error == out.error)
        && (r.Ok? ==> fresh(r.value) && out == Ok(Reply(r.value.response, r.value.valid)))
    {
      r := Send(DELETE, path, NoBody);
    }

    /** `login()` */
    method Login() returns (r: Outcome<bool>)
      modifies this`sent
      ensures (r, sent) == LegacyLogin(EnvOf(), old(sent))
    {
      var result := Get("login");
      if result.Raised? {
        return Raised(result.error);
      }
      return Ok(result.value.response.status == 200);
    }
  }
}
