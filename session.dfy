/** `BESConnection` (src/besapi/besapi.py:128-571): a session against a
    BigFix root server. Its state is the time of the last exchange, which
    decides when the login is refreshed, and the current site context.
    The server is a function from the requests sent so far and the new
    request to the answer, so it may answer differently as the session
    goes on; the clock is the `now` each call receives. */
module Session {

  import opened Base
  import opened Strings
  import opened Utf8
  import opened Xml
  import opened Percent
  import opened Resolve
  import opened Rest
  import opened SitePath

  // ---- staleness

  /** `datetime.timedelta(minutes=1)` in microseconds, the clock's unit. */
  const MicrosPerMinute: int := 60_000_000

  /** `int()` of a quotient: truncation toward zero. */
  function TruncDiv(a: int, b: int): (r: int)
    requires b > 0
  {
    if a >= 0 then a / b else -((-a) / b)
  }

  /** `int(duration_minutes) > 3` */
  predicate Stale(last: int, now: int) {
    TruncDiv(now - last, MicrosPerMinute) > 3
  }

  /** Because of the truncation, a login is refreshed only once four whole
      minutes have passed; a clock that went backwards never refreshes. */
  lemma StaleIff(last: int, now: int)
    ensures Stale(last, now) <==> now - last >= 4 * MicrosPerMinute
  {
    var a := now - last;
    if a >= 0 {
      var q := a / MicrosPerMinute;
      assert a == q * MicrosPerMinute + a % MicrosPerMinute;
      assert q > 3 <==> q >= 4;
      if q >= 4 {
        assert q * MicrosPerMinute >= 4 * MicrosPerMinute;
      } else {
        assert q * MicrosPerMinute <= 3 * MicrosPerMinute;
      }
    } else {
      assert (-a) / MicrosPerMinute >= 0;
    }
  }

  // ---- requests and the server

  datatype Verb = GET | POST | PUT | DELETE

  /** What is sent as the request body. */
  datatype Body = NoBody | Form(text: string) | FileBody(bytes: seq<byte>)

  datatype Request = Request(verb: Verb, url: string, body: Body, headers: map<string, string>)

  /** The answer the server gives to a request, after the given ones. */
  type Server = (seq<Request>, Request) -> Response

  /** What a connection holds fixed: the normalised root, the XML library
      and the server. */
  datatype Env = Env(root: string, lib: XmlLib, server: Server)

  /** What changes: `last_connected` and the requests sent so far. */
  datatype Conn = Conn(last: Option<int>, sent: seq<Request>)

  /** An outcome together with the state after it. */
  datatype Step<T> = Step(out: Outcome<T>, conn: Conn)

  /** The request `get("login")` sends. */
  function LoginRequest(root: string): Request
  {
    Request(GET, Url(root, "login"), NoBody, map[])
  }

  /** One exchange as every verb performs it: stamp `last_connected`,
      send, wrap the answer. */
  function Exchange(env: Env, c: Conn, req: Request, now: int): Step<Reply>
  {
    Step(WrapReply(env.server(c.sent, req), env.lib), Conn(Some(now), c.sent + [req]))
  }

  /** Whether `login()` fetches `login`: no stamp, or a stale one. */
  predicate Fetches(last: Option<int>, now: int) {
    last.None? || Stale(last.value, now)
  }

  /** `login()`: drop a stale stamp; without a stamp, GET `login` (which
      stamps before its answer is looked at); a 4xx or 5xx answer raises,
      a 200 stamps again; the answer is whether a stamp is held. */
  function LoginStep(env: Env, c: Conn, now: int): Step<bool>
  {
    var c1 := if c.last.Some? && Stale(c.last.value, now) then Conn(None, c.sent) else c;
    if c1.last.Some? then Step(Ok(true), c1)
    else
      var s := Exchange(env, c1, LoginRequest(env.root), now);
      match s.out
      case Raised(e) => Step(Raised(e), s.conn)
      case Ok(reply) =>
        var status := reply.response.status;
        if status != 200 && 400 <= status < 600 then Step(Raised(HttpError(status)), s.conn)
        else
          var c2 := if status == 200 then Conn(Some(now), s.conn.sent) else s.conn;
          Step(Ok(c2.last.Some?), c2)
  }

  /** Whether a verb runs `login()` first: all do, except a GET whose path
      contains `login`. */
  predicate Guarded(verb: Verb, path: string) {
    verb != GET || !Contains(path, "login")
  }

  /** A verb: the login guard, then one exchange with `url(path)`. */
  function VerbStep(env: Env, c: Conn, verb: Verb, path: string, body: Body,
                    headers: map<string, string>, now: int): Step<Reply>
  {
    var req := Request(verb, Url(env.root, path), body, headers);
    if !Guarded(verb, path) then Exchange(env, c, req, now)
    else
      var l := LoginStep(env, c, now);
      if l.out.Raised? then Step(Raised(l.out.error), l.conn)
      else Exchange(env, l.conn, req, now)
  }

  /** `login()` never answers false: it raises, or it holds a stamp. It
      sends the `login` request exactly when there was no stamp or the
      stamp is four or more minutes old, and then holds `now`; otherwise
      nothing changes. It raises exactly when wrapping the answer raised or
      the answer is a 4xx or 5xx other than a 403. */
  lemma LoginStepSpec(env: Env, c: Conn, now: int)
    ensures LoginStep(env, c, now).out != Ok(false)
    ensures LoginStep(env, c, now).conn.last.Some?
    ensures Fetches(c.last, now) <==> c.last.None? || now - c.last.value >= 4 * MicrosPerMinute
    ensures !Fetches(c.last, now) ==> LoginStep(env, c, now) == Step(Ok(true), c)
    ensures Fetches(c.last, now) ==>
      LoginStep(env, c, now).conn == Conn(Some(now), c.sent + [LoginRequest(env.root)])
    ensures Fetches(c.last, now) ==>
      var resp := env.server(c.sent, LoginRequest(env.root));
      (LoginStep(env, c, now).out.Raised? <==>
         WrapReply(resp, env.lib).Raised? || (resp.status != 200 && 400 <= resp.status < 600))
  {
    if c.last.Some? {
      StaleIff(c.last.value, now);
    }
  }

  /** Every verb leaves `last_connected` at `now`, even when it raised.
      It sends the `login` request first exactly when it is guarded and
      the login fetches; then, unless that login raised, its own request,
      whose wrapped answer is the outcome. */
  lemma VerbStepSpec(env: Env, c: Conn, verb: Verb, path: string, body: Body,
                     headers: map<string, string>, now: int)
    ensures VerbStep(env, c, verb, path, body, headers, now).conn.last == Some(now)
    ensures var s := VerbStep(env, c, verb, path, body, headers, now);
      var req := Request(verb, Url(env.root, path), body, headers);
      var logs := Guarded(verb, path) && Fetches(c.last, now);
      var before := if logs then c.sent + [LoginRequest(env.root)] else c.sent;
      if Guarded(verb, path) && LoginStep(env, c, now).out.Raised? then
        logs && s == Step(Raised(LoginStep(env, c, now).out.error), Conn(Some(now), before))
      else
        s.conn.sent == before + [req] && s.out == WrapReply(env.server(before, req), env.lib)
  {
    LoginStepSpec(env, c, now);
  }

  /** Within four minutes of the previous exchange no verb logs in again;
      from four minutes on, a guarded verb logs in first. */
  lemma RefreshWindow(env: Env, c: Conn, verb: Verb, path: string, body: Body,
                      headers: map<string, string>, previous: int, now: int)
    requires c.last == Some(previous)
    ensures now - previous < 4 * MicrosPerMinute ==>
      VerbStep(env, c, verb, path, body, headers, now).conn.sent
        == c.sent + [Request(verb, Url(env.root, path), body, headers)]
    ensures now - previous >= 4 * MicrosPerMinute && Guarded(verb, path) ==>
      |VerbStep(env, c, verb, path, body, headers, now).conn.sent| >= |c.sent| + 1
      && VerbStep(env, c, verb, path, body, headers, now).conn.sent[|c.sent|] == LoginRequest(env.root)
  {
    VerbStepSpec(env, c, verb, path, body, headers, now);
    LoginStepSpec(env, c, now);
  }

  // ---- session relevance

  /** `session_relevance_xml`: a POST of the quoted expression to `query`. */
  function RelevanceStep(env: Env, c: Conn, relevance: string, now: int): Step<Reply>
  {
    VerbStep(env, c, POST, "query", Form(RelevanceBody(relevance)), map[], now)
  }

  function Texts(es: seq<Element>): (r: seq<Option<string>>)
    ensures |r| == |es| && forall i :: 0 <= i < |es| ==> r[i] == es[i].text
  {
    if es == [] then [] else [es[0].text] + Texts(es[1..])
  }

  /** The answers of a query result, from its objectified text: the texts
      of the `Answer` children of `Query.Result`, in order; with no
      `Answer`, one entry `ERROR: ` and the text of `Query.Error`. Every
      other missing child is re-raised; an absent text makes the `+` a
      TypeError. */
  function AnswersOf(lib: XmlLib, text: string): Outcome<seq<Option<string>>>
  {
    match ObjView(lib, text)
    case Raised(e) => Raised(e)
    case Ok(root) =>
      match Child(root, "Query")
      case Raised(e) => Raised(e)
      case Ok(query) =>
        match Child(query, "Result")
        case Raised(e) => Raised(e)
        case Ok(result) =>
          if ChildrenNamed(result, "Answer") != [] then Ok(Texts(ChildrenNamed(result, "Answer")))
          else
            match Child(query, "Error")
            case Raised(e) => Raised(e)
            case Ok(err) =>
              if err.text.None? then Raised(TypeMismatch) else Ok([Some("ERROR: " + err.text.value)])
  }

  /** `"\n".join(answers)`: an answer without text makes it a TypeError. */
  function JoinAnswers(answers: seq<Option<string>>): (r: Outcome<string>)
    ensures r.Ok? <==> forall i :: 0 <= i < |answers| ==> answers[i].Some?
  {
    if forall i :: 0 <= i < |answers| ==> answers[i].Some? then
      Ok(Join(seq(|answers|, i requires 0 <= i < |answers| => answers[i].value), "\n"))
    else Raised(TypeMismatch)
  }

  /** The answer array of a query result, in document order; a result
      without answers yields the single error entry. */
  lemma AnswersOfSpec(lib: XmlLib, text: string, root: Element, query: Element, result: Element)
    requires ObjView(lib, text) == Ok(root)
    requires Child(root, "Query") == Ok(query) && Child(query, "Result") == Ok(result)
    ensures ChildrenNamed(result, "Answer") != [] ==>
      var answers := ChildrenNamed(result, "Answer");
      AnswersOf(lib, text).Ok? && |AnswersOf(lib, text).value| == |answers|
      && forall i :: 0 <= i < |answers| ==> AnswersOf(lib, text).value[i] == answers[i].text
    ensures ChildrenNamed(result, "Answer") == [] && Child(query, "Error").Ok?
            && Child(query, "Error").value.text.Some? ==>
      AnswersOf(lib, text) == Ok([Some("ERROR: " + Child(query, "Error").value.text.value)])
  {
  }

  /** Answers that all have a text free of line breaks come back from the
      joined string by splitting it at line breaks. */
  lemma AnswersRoundTrip(answers: seq<string>)
    requires |answers| >= 1 && forall i :: 0 <= i < |answers| ==> '\n' !in answers[i]
    ensures var joined := JoinAnswers(seq(|answers|, i requires 0 <= i < |answers| => Some(answers[i])));
      joined.Ok? && Split(joined.value, '\n') == answers
  {
    var wrapped := seq(|answers|, i requires 0 <= i < |answers| => Some(answers[i]));
    assert seq(|wrapped|, i requires 0 <= i < |wrapped| => wrapped[i].value) == answers;
    SplitJoin(answers, '\n');
  }

  // ---- site context

  /** `validate_site_path` with its lookup performed through `get`. */
  function ValidateStep(env: Env, c: Conn, path: Option<string>, check: bool, raiseError: bool,
                        now: int): Step<Option<string>>
  {
    match Decide(path, check, raiseError)
    case Done(out) => Step(out, c)
    case Lookup =>
      var s := VerbStep(env, c, GET, "site/" + path.value, NoBody, map[], now);
      match s.out
      case Raised(e) => Step(Raised(e), s.conn)
      case Ok(reply) => Step(AfterLookup(path.value, reply.response.status, raiseError), s.conn)
  }

  /** Without the existence check nothing is sent and the session is left
      as it was. */
  lemma NoLookupWithoutCheck(env: Env, c: Conn, path: Option<string>, raiseError: bool, now: int)
    ensures ValidateStep(env, c, path, false, raiseError, now).conn == c
    ensures ValidateStep(env, c, path, false, raiseError, now).out == Validate(path, false, raiseError, 0)
  {
  }

  /** A site context the session can fall back on: accepted as it is when
      existence is not checked. */
  predicate UsableContext(sitePath: string) {
    Validate(Some(sitePath), false, false, 0) == Ok(Some(sitePath))
  }

  /** `get_current_site_path`: a missing or blank argument falls back on
      the context, which is then validated without the existence check. */
  function CurrentSitePath(context: string, arg: Option<string>): Outcome<Option<string>>
  {
    var sp := if arg.None? || IsBlank(arg.value) then context else arg.value;
    if IsBlank(sp) then Raised(NoSiteContext) else Validate(Some(sp), false, false, 0)
  }

  /** `master`, the initial context, is usable. */
  lemma MasterUsable()
    ensures UsableContext("master")
  {
    MasterExact(false, false, 0);
  }

  /** A path the existence check looks up is a usable context. */
  lemma CheckedIsUsable(path: string, raiseError: bool)
    requires Decide(Some(path), true, raiseError) == Lookup
    ensures UsableContext(path)
  {
  }

  /** With a usable context, asking without a site path always yields the
      context; with a site path, the answer is that path or an error,
      never `None`. */
  lemma CurrentSitePathSpec(context: string, arg: Option<string>)
    requires UsableContext(context)
    ensures arg.None? || IsBlank(arg.value) ==> CurrentSitePath(context, arg) == Ok(Some(context))
    ensures arg.Some? && !IsBlank(arg.value) ==>
      CurrentSitePath(context, arg).Raised? || CurrentSitePath(context, arg) == Ok(Some(arg.value))
  {
    assert !IsBlank(context) by {
      if IsBlank(context) { MissingOrBlank(Some(context), false, false); }
    }
  }

  /** `f"{site_path}"` of an optional site path. */
  function SiteText(sp: Option<string>): string
  {
    if sp.Some? then sp.value else "None"
  }

  // ---- users, content, groups, upload

  /** `get_user`: the operator's result unless its text says the operator
      does not exist. */
  function UserStep(env: Env, c: Conn, userName: string, now: int): Step<Option<Reply>>
  {
    var s := VerbStep(env, c, GET, "operator/" + userName, NoBody, map[], now);
    match s.out
    case Raised(e) => Step(Raised(e), s.conn)
    case Ok(reply) =>
      match StrView(env.lib, reply.response.text, reply.valid)
      case Raised(e) => Step(Raised(e), s.conn)
      case Ok(shown) =>
        Step(Ok(if Contains(shown, "Operator does not exist") then None else Some(reply)), s.conn)
  }

  /** `get_content_by_resource`: `http://` becomes `https://` everywhere
      in the resource, and a PermissionError becomes `None`. */
  function ContentStep(env: Env, c: Conn, resource: string, now: int): Step<Option<Reply>>
  {
    var s := VerbStep(env, c, GET, ReplaceAll(resource, "http://", "https://"), NoBody, map[], now);
    match s.out
    case Raised(e) => Step(if e.Forbidden? then Ok(None) else Raised(e), s.conn)
    case Ok(reply) => Step(Ok(Some(reply)), s.conn)
  }

  /** Text without `http://` is left as it is by the replacement. */
  lemma {:induction false} ReplaceAbsent(s: string, pat: string, rep: string)
    requires pat != [] && !Contains(s, pat)
    ensures ReplaceAll(s, pat, rep) == s
    decreases |s|
  {
    if s != [] {
      ReplaceAbsent(s[1..], pat, rep);
      assert [s[0]] + s[1..] == s;
    }
  }

  /** A resource given with `http://` is fetched with `https://` and is
      otherwise unchanged. */
  lemma HttpsResource(rest: string)
    requires !Contains(rest, "http://")
    ensures ReplaceAll("http://" + rest, "http://", "https://") == "https://" + rest
  {
    var s := "http://" + rest;
    assert StartsWith(s, "http://");
    assert s[|"http://"|..] == rest;
    ReplaceAbsent(rest, "http://", "https://");
  }

  /** `os.path.basename`: what follows the last `/`. */
  function Basename(p: string): (r: string)
    ensures '/' !in r
    ensures |r| <= |p| && p[|p| - |r|..] == r
    ensures |r| < |p| ==> p[|p| - |r| - 1] == '/'
  {
    if p == [] then []
    else if p[|p| - 1] == '/' then []
    else Basename(p[..|p| - 1]) + [p[|p| - 1]]
  }

  /** The group of a `computergroups` listing whose `str(group.Name)`,
      objectify's converted text of the leaf, is `groupName`, searched in
      order; a group without a `Name` child raises, and so
      does a matching group without a `Resource` attribute, because the
      log call before `return group` reads `group.attrib["Resource"]`. */
  function FirstGroup(lib: XmlLib, groups: seq<Element>, groupName: string): Outcome<Option<Element>>
  {
    if groups == [] then Ok(None)
    else
      match Child(groups[0], "Name")
      case Raised(e) => Raised(e)
      case Ok(name) =>
        if groupName == lib.leafStr(name) then
          if "Resource" in groups[0].attrs then Ok(Some(groups[0]))
          else Raised(MissingKey("Resource"))
        else FirstGroup(lib, groups[1..], groupName)
  }

  /** `besobj.ComputerGroup`, iterated: a listing without any group raises
      AttributeError before the search starts. */
  function FindGroupSpec(lib: XmlLib, root: Element, groupName: string): Outcome<Option<Element>>
  {
    match Child(root, "ComputerGroup")
    case Raised(e) => Raised(e)
    case Ok(_) => FirstGroup(lib, ChildrenNamed(root, "ComputerGroup"), groupName)
  }

  /** A group that is found carries the name searched for and a
      `Resource` attribute, and `None` means every group has a `Name`
      that differs. */
  lemma {:induction false} FirstGroupSpec(lib: XmlLib, groups: seq<Element>, groupName: string)
    ensures FirstGroup(lib, groups, groupName).Ok? && FirstGroup(lib, groups, groupName).value.Some? ==>
      var g := FirstGroup(lib, groups, groupName).value.value;
      g in groups && Child(g, "Name").Ok? && lib.leafStr(Child(g, "Name").value) == groupName
      && "Resource" in g.attrs
    ensures FirstGroup(lib, groups, groupName) == Ok(None) ==>
      forall i :: 0 <= i < |groups| ==>
        Child(groups[i], "Name").Ok? && lib.leafStr(Child(groups[i], "Name").value) != groupName
  {
    if groups != [] {
      FirstGroupSpec(lib, groups[1..], groupName);
      if FirstGroup(lib, groups, groupName) == Ok(None) {
        forall i | 0 <= i < |groups|
          ensures Child(groups[i], "Name").Ok? && lib.leafStr(Child(groups[i], "Name").value) != groupName
        {
          if i > 0 { assert groups[i] == groups[1..][i - 1]; }
        }
      }
    }
  }

  /** The search of `get_computergroup`, as its loop. */
  method FindGroup(lib: XmlLib, root: Element, groupName: string) returns (r: Outcome<Option<Element>>)
    ensures r == FindGroupSpec(lib, root, groupName)
  {
    var first := Child(root, "ComputerGroup");
    if first.Raised? {
      return Raised(first.error);
    }
    var groups := ChildrenNamed(root, "ComputerGroup");
    var i := 0;
    while i < |groups|
      invariant 0 <= i <= |groups|
      invariant FirstGroup(lib, groups, groupName) == FirstGroup(lib, groups[i..], groupName)
    {
      var name := Child(groups[i], "Name");
      if name.Raised? {
        return Raised(name.error);
      }
      if groupName == lib.leafStr(name.value) {
        if "Resource" !in groups[i].attrs {
          return Raised(MissingKey("Resource"));
        }
        return Ok(Some(groups[i]));
      }
      i := i + 1;
    }
    return Ok(None);
  }

  /** What `get_computergroup` finds in a wrapped listing: an invalid
      result has no object view, and `None.ComputerGroup` raises. */
  function GroupOf(lib: XmlLib, reply: Reply, groupName: string): Outcome<Option<Element>>
  {
    if !reply.valid then Raised(NoneAttribute)
    else
      match ObjView(lib, reply.response.text)
      case Raised(e) => Raised(e)
      case Ok(root) => FindGroupSpec(lib, root, groupName)
  }

  /** `get_computergroup` */
  function GroupStep(env: Env, c: Conn, context: string, groupName: string, arg: Option<string>,
                     now: int): Step<Option<Element>>
  {
    match CurrentSitePath(context, arg)
    case Raised(e) => Step(Raised(e), c)
    case Ok(sp) =>
      var s := VerbStep(env, c, GET, "computergroups/" + SiteText(sp), NoBody, map[], now);
      match s.out
      case Raised(e) => Step(Raised(e), s.conn)
      case Ok(reply) => Step(GroupOf(env.lib, reply, groupName), s.conn)
  }

  /** The final lookup of `create_group_from_file` passes the site path as
      the group name and the group title as the site path. A title that
      holds no site marker, here `Sales`, is then refused as a site path:
      after the group was posted, the call raises. */
  lemma SwappedLookupRaises(env: Env, c: Conn, context: string, now: int)
    ensures GroupStep(env, c, context, context, Some("Sales"), now) == Step(Raised(NoValidPrefix), c)
  {
    var t := "Sales";
    assert !IsBlank(t) by { assert !IsSpace(t[0]); }
    LongerNotContained(t, "external/");
    LongerNotContained(t, "custom/");
    LongerNotContained(t, "operator/");
    LongerNotContained(t, "master");
    NoMarkerRaises(t, false, false, 0);
  }

  /** A group whose `Name` matches but which has no `Resource` attribute
      ends the search with KeyError, however many groups follow it. */
  lemma MatchWithoutResourceRaises(lib: XmlLib, g: Element, rest: seq<Element>, groupName: string)
    requires Child(g, "Name").Ok? && lib.leafStr(Child(g, "Name").value) == groupName
    requires "Resource" !in g.attrs
    ensures FirstGroup(lib, [g] + rest, groupName) == Raised(MissingKey("Resource"))
  {
    assert ([g] + rest)[0] == g;
  }

  /** What `get_computergroup` finds is named as asked and carries a
      `Resource` attribute. */
  lemma GroupStepNamed(env: Env, c: Conn, context: string, groupName: string, arg: Option<string>, now: int)
    ensures var s := GroupStep(env, c, context, groupName, arg, now);
      s.out.Ok? && s.out.value.Some? ==>
        Child(s.out.value.value, "Name").Ok? && env.lib.leafStr(Child(s.out.value.value, "Name").value) == groupName
        && "Resource" in s.out.value.value.attrs
  {
    var sp := CurrentSitePath(context, arg);
    if sp.Ok? {
      var s := VerbStep(env, c, GET, "computergroups/" + SiteText(sp.value), NoBody, map[], now);
      if s.out.Ok? && s.out.value.valid {
        var root := ObjView(env.lib, s.out.value.response.text);
        if root.Ok? && Child(root.value, "ComputerGroup").Ok? {
          FirstGroupSpec(env.lib, ChildrenNamed(root.value, "ComputerGroup"), groupName);
        }
      }
    }
  }

  /** The upload request: the file under `url("upload")`, named in a
      Content-Disposition header. */
  function UploadHeaders(fileName: string): map<string, string>
  {
    map["Content-Disposition" := "attachment; filename=\"" + fileName + "\""]
  }

  /** `file_name`, or the tail of `file_path` when it is missing or empty. */
  function UploadName(filePath: string, fileName: Option<string>): (r: string)
  {
    if fileName.None? || fileName.value == "" then Basename(filePath) else fileName.value
  }

  /** For a normalised root, the upload goes to `<root>/api/upload`: `post`
      leaves the already resolved URL as it is. */
  lemma UploadUrl(root: string)
    requires StartsWith(root, "http")
    ensures Url(root, Url(root, "upload")) == root + "/api/upload"
  {
    UrlIdempotent(root, "upload");
    assert !StartsWith("upload", root) by {
      assert root[0] == 'h';
    }
  }

  function SummaryOpt(r: Outcome<Option<RESTResult>>): Outcome<Option<Reply>>
  {
    match r
    case Raised(e) => Raised(e)
    case Ok(None) => Ok(None)
    case Ok(Some(result)) => Ok(Some(Reply(result.response, result.valid)))
  }

  class BESConnection {
    const username: string
    const rootserver: string
    const lib: XmlLib
    const server: Server
    var sitePath: string
    var lastConnected: Option<int>
    var sent: seq<Request>

    function EnvOf(): Env {
      Env(rootserver, lib, server)
    }

    function State(): Conn
      reads this`lastConnected, this`sent
    {
      Conn(lastConnected, sent)
    }

    /** The site context can always be fallen back on. */
    ghost predicate Valid()
      reads this`sitePath
    {
      UsableContext(sitePath)
    }

    /** The fields `__init__` sets before it logs in. */
    constructor Init(username: string, rootserver: string, lib: XmlLib, server: Server)
      ensures this.username == username && this.rootserver == NormalizeRoot(rootserver)
      ensures this.lib == lib && this.server == server
      ensures sitePath == "master" && lastConnected == None && sent == []
      ensures Valid()
    {
      this.username := username;
      this.rootserver := NormalizeRoot(rootserver);
      this.lib := lib;
      this.server := server;
      sitePath := "master";
      lastConnected := None;
      sent := [];
      MasterUsable();
    }

    /** `BESConnection(...)`: the normalised root, then a login that may
        raise, in which case no connection is returned. */
    static method Connect(username: string, rootserver: string, lib: XmlLib, server: Server, now: int)
      returns (r: Outcome<BESConnection>)
      ensures var s := LoginStep(Env(NormalizeRoot(rootserver), lib, server), Conn(None, []), now);
        (r.Raised? <==> s.out.Raised?) && (r.Raised? ==> r.error == s.out.error)
        && (r.Ok? ==> fresh(r.value) && r.value.EnvOf() == Env(NormalizeRoot(rootserver), lib, server)
                      && r.value.username == username && r.value.sitePath == "master"
                      && r.value.State() == s.conn && r.value.Valid())
    {
      var conn := new BESConnection.Init(username, rootserver, lib, server);
      var ok := conn.Login(now);
      if ok.Raised? {
        return Raised(ok.error);
      }
      return Ok(conn);
    }

    /** Stamp, send, wrap. */
    method Send(req: Request, now: int) returns (r: Outcome<RESTResult>)
      modifies this`lastConnected, this`sent
      ensures Summary(r) == Exchange(EnvOf(), old(State()), req, now).out
      ensures State() == Exchange(EnvOf(), old(State()), req, now).conn
      ensures r.Ok? ==> fresh(r.value)
      ensures FreshResult(r, lib)
    {
      lastConnected := Some(now);
      var resp := server(sent, req);
      sent := sent + [req];
      r := Wrap(resp, lib);
    }

    /** `get(path)` */
    method Get(path: string, now: int) returns (r: Outcome<RESTResult>)
      modifies this`lastConnected, this`sent
      ensures Summary(r) == VerbStep(EnvOf(), old(State()), GET, path, NoBody, map[], now).out
      ensures State() == VerbStep(EnvOf(), old(State()), GET, path, NoBody, map[], now).conn
      ensures r.Ok? ==> fresh(r.value)
      ensures FreshResult(r, lib)
      decreases if Contains(path, "login") then 0 else 2
    {
      if !Contains(path, "login") {
        var l := Login(now);
        if l.Raised? {
          return Raised(l.error);
        }
      }
      r := Send(Request(GET, Url(rootserver, path), NoBody, map[]), now);
    }

    /** `login()`, also reached as `bool(conn)`, `conn()` and `with conn`. */
    method Login(now: int) returns (r: Outcome<bool>)
      modifies this`lastConnected, this`sent
      ensures r == LoginStep(EnvOf(), old(State()), now).out
      ensures State() == LoginStep(EnvOf(), old(State()), now).conn
      decreases 1
    {
      if lastConnected.Some? && Stale(lastConnected.value, now) {
        lastConnected := None;
      }
      if lastConnected.None? {
        assert StartsWith("login", "login");
        var result := Get("login", now);
        if result.Raised? {
          return Raised(result.error);
        }
        var status := result.value.response.status;
        if status != 200 {
          if 400 <= status < 600 {
            return Raised(HttpError(status));
          }
        }
        if status == 200 {
          lastConnected := Some(now);
        }
      }
      return Ok(lastConnected.Some?);
    }

    /** `post(path, data)`, `put` and `delete` below: always logged in. */
    method Post(path: string, body: Body, headers: map<string, string>, now: int) returns (r: Outcome<RESTResult>)
      modifies this`lastConnected, this`sent
      ensures Summary(r) == VerbStep(EnvOf(), old(State()), POST, path, body, headers, now).out
      ensures State() == VerbStep(EnvOf(), old(State()), POST, path, body, headers, now).conn
      ensures r.Ok? ==> fresh(r.value)
      ensures FreshResult(r, lib)
    {
      var l := Login(now);
      if l.Raised? {
        return Raised(l.error);
      }
      r := Send(Request(POST, Url(rootserver, path), body, headers), now);
    }

    method Put(path: string, body: Body, now: int) returns (r: Outcome<RESTResult>)
      modifies this`lastConnected, this`sent
      ensures Summary(r) == VerbStep(EnvOf(), old(State()), PUT, path, body, map[], now).out
      ensures State() == VerbStep(EnvOf(), old(State()), PUT, path, body, map[], now).conn
      ensures r.Ok? ==> fresh(r.value)
      ensures FreshResult(r, lib)
    {
      var l := Login(now);
      if l.Raised? {
        return Raised(l.error);
      }
      r := Send(Request(PUT, Url(rootserver, path), body, map[]), now);
    }

    method Delete(path: string, now: int) returns (r: Outcome<RESTResult>)
      modifies this`lastConnected, this`sent
      ensures Summary(r) == VerbStep(EnvOf(), old(State()), DELETE, path, NoBody, map[], now).out
      ensures State() == VerbStep(EnvOf(), old(State()), DELETE, path, NoBody, map[], now).conn
      ensures r.Ok? ==> fresh(r.value)
      ensures FreshResult(r, lib)
    {
      var l := Login(now);
      if l.Raised? {
        return Raised(l.error);
      }
      r := Send(Request(DELETE, Url(rootserver, path), NoBody, map[]), now);
    }

    /** `session_relevance_xml` */
    method SessionRelevanceXml(relevance: string, now: int) returns (r: Outcome<RESTResult>)
      modifies this`lastConnected, this`sent
      ensures Summary(r) == RelevanceStep(EnvOf(), old(State()), relevance, now).out
      ensures State() == RelevanceStep(EnvOf(), old(State()), relevance, now).conn
      ensures r.Ok? ==> fresh(r.value)
      ensures FreshResult(r, lib)
    {
      r := Post("query", Form(RelevanceBody(relevance)), map[], now);
    }

    /** `session_relevance_array` */
    method SessionRelevanceArray(relevance: string, now: int) returns (r: Outcome<seq<Option<string>>>)
      modifies this`lastConnected, this`sent
      ensures var s := RelevanceStep(EnvOf(), old(State()), relevance, now);
        State() == s.conn
        && r == (if s.out.Raised? then Raised(s.out.error) else AnswersOf(lib, s.out.value.response.text))
    {
      var xml := SessionRelevanceXml(relevance, now);
      if xml.Raised? {
        return Raised(xml.error);
      }
      r := AnswersOf(lib, xml.value.text);
    }

    /** `session_relevance_string` */
    method SessionRelevanceString(relevance: string, now: int) returns (r: Outcome<string>)
      modifies this`lastConnected, this`sent
      ensures var s := RelevanceStep(EnvOf(), old(State()), relevance, now);
        State() == s.conn
        && r == (if s.out.Raised? then Raised(s.out.error)
                 else if AnswersOf(lib, s.out.value.response.text).Raised?
                 then Raised(AnswersOf(lib, s.out.value.response.text).error)
                 else JoinAnswers(AnswersOf(lib, s.out.value.response.text).value))
    {
      var answers := SessionRelevanceArray(relevance, now);
      if answers.Raised? {
        return Raised(answers.error);
      }
      r := JoinAnswers(answers.value);
    }

    /** `validate_site_path`: the markers are tried in order, and the first
        one the path contains decides. */
    method ValidateSitePath(path: Option<string>, check: bool, raiseError: bool, now: int)
      returns (r: Outcome<Option<string>>)
      modifies this`lastConnected, this`sent
      ensures r == ValidateStep(EnvOf(), old(State()), path, check, raiseError, now).out
      ensures State() == ValidateStep(EnvOf(), old(State()), path, check, raiseError, now).conn
    {
      if path.None? {
        if !raiseError {
          return Ok(None);
        }
        return Raised(SitePathNone);
      }
      if IsBlank(path.value) {
        if !raiseError {
          return Ok(None);
        }
        return Raised(SitePathEmpty);
      }
      var i := 0;
      while i < |Prefixes|
        invariant 0 <= i <= |Prefixes|
        invariant FirstPrefix(path.value, 0) == FirstPrefix(path.value, i)
        invariant State() == old(State())
      {
        var prefix := Prefixes[i];
        if Contains(path.value, prefix) {
          if prefix == "master" && prefix != path.value {
            return Raised(MasterNotExact(path.value));
          }
          if !check {
            return Ok(path);
          }
          var site := Get("site/" + path.value, now);
          if site.Raised? {
            return Raised(site.error);
          }
          if site.value.response.status != 200 {
            if !raiseError {
              return Ok(None);
            }
            return Raised(SiteMissing(path.value));
          }
          return Ok(path);
        }
        i := i + 1;
      }
      return Raised(NoValidPrefix);
    }

    /** `get_current_site_path` */
    method GetCurrentSitePath(arg: Option<string>, now: int) returns (r: Outcome<Option<string>>)
      modifies this`lastConnected, this`sent
      ensures r == CurrentSitePath(sitePath, arg)
      ensures State() == old(State())
    {
      var sp := if arg.None? || IsBlank(arg.value) then sitePath else arg.value;
      if IsBlank(sp) {
        return Raised(NoSiteContext);
      }
      r := ValidateSitePath(Some(sp), false, false, now);
    }

    /** `set_current_site_path`: the context changes only to a path that
        passed the existence check. */
    method SetCurrentSitePath(arg: Option<string>, now: int) returns (r: Outcome<Option<string>>)
      requires Valid()
      modifies this
      ensures Valid()
      ensures var s := ValidateStep(EnvOf(), old(State()), arg, true, false, now);
        State() == s.conn
        && (r.Raised? <==> s.out.Raised?) && (r.Raised? ==> r.error == s.out.error)
        && (if s.out.Ok? && s.out.value.Some?
            then arg.Some? && sitePath == arg.value && r == Ok(Some(arg.value))
            else sitePath == old(sitePath) && (r.Ok? ==> r == Ok(None)))
    {
      var v := ValidateSitePath(arg, true, false, now);
      if v.Raised? {
        return Raised(v.error);
      }
      if v.value.Some? && |v.value.value| > 0 {
        CheckedIsUsable(arg.value, false);
        sitePath := arg.value;
        return Ok(Some(sitePath));
      }
      return Ok(None);
    }

    /** `get_user` */
    method GetUser(userName: string, now: int) returns (r: Outcome<Option<RESTResult>>)
      modifies this`lastConnected, this`sent
      ensures SummaryOpt(r) == UserStep(EnvOf(), old(State()), userName, now).out
      ensures State() == UserStep(EnvOf(), old(State()), userName, now).conn
    {
      var result := Get("operator/" + userName, now);
      if result.Raised? {
        return Raised(result.error);
      }
      var shown := result.value.Str();
      if shown.Raised? {
        return Raised(shown.error);
      }
      if !Contains(shown.value, "Operator does not exist") {
        return Ok(Some(result.value));
      }
      return Ok(None);
    }

    /** `get_content_by_resource` */
    method GetContentByResource(resource: string, now: int) returns (r: Outcome<Option<RESTResult>>)
      modifies this`lastConnected, this`sent
      ensures SummaryOpt(r) == ContentStep(EnvOf(), old(State()), resource, now).out
      ensures State() == ContentStep(EnvOf(), old(State()), resource, now).conn
    {
      var content := Get(ReplaceAll(resource, "http://", "https://"), now);
      if content.Raised? {
        if content.error.Forbidden? {
          return Ok(None);
        }
        return Raised(content.error);
      }
      return Ok(Some(content.value));
    }

    /** `get_computergroup` */
    method GetComputerGroup(groupName: string, arg: Option<string>, now: int) returns (r: Outcome<Option<Element>>)
      modifies this`lastConnected, this`sent
      ensures r == GroupStep(EnvOf(), old(State()), sitePath, groupName, arg, now).out
      ensures State() == GroupStep(EnvOf(), old(State()), sitePath, groupName, arg, now).conn
    {
      var sp := GetCurrentSitePath(arg, now);
      if sp.Raised? {
        return Raised(sp.error);
      }
      var groups := Get("computergroups/" + SiteText(sp.value), now);
      if groups.Raised? {
        return Raised(groups.error);
      }
      var obj := groups.value.BesObj();
      if obj.Raised? {
        return Raised(obj.error);
      }
      if obj.value.None? {
        return Raised(NoneAttribute);
      }
      r := FindGroup(lib, obj.value.value, groupName);
    }

    /** `create_group_from_file`, given the file's group title and its
        serialised XML (reading and parsing the file is not modelled):
        look the title up in the site, post the group when it is not
        there, and look it up again. As written, the second lookup swaps
        its arguments: it searches the site for a group named after the
        site, in a site named after the title. */
    method CreateGroupFromFile(title: string, groupXml: seq<byte>, arg: Option<string>, now: int)
      returns (r: Outcome<Option<Element>>)
      modifies this`lastConnected, this`sent
      ensures CurrentSitePath(sitePath, arg).Raised? ==>
        r == Raised(CurrentSitePath(sitePath, arg).error) && State() == old(State())
      ensures CurrentSitePath(sitePath, arg).Ok? ==>
        var sp := SiteText(CurrentSitePath(sitePath, arg).value);
        var existing := GroupStep(EnvOf(), old(State()), sitePath, title, Some(sp), now);
        var posted := VerbStep(EnvOf(), existing.conn, POST, "computergroups/" + sp, FileBody(groupXml), map[], now);
        var final := GroupStep(EnvOf(), posted.conn, sitePath, sp, Some(title), now);
        if existing.out.Raised? || existing.out.value.Some? then r == existing.out && State() == existing.conn
        else if posted.out.Raised? then r == Raised(posted.out.error) && State() == posted.conn
        else r == final.out && State() == final.conn
    {
      var sp := GetCurrentSitePath(arg, now);
      if sp.Raised? {
        return Raised(sp.error);
      }
      var site := SiteText(sp.value);
      var existing := GetComputerGroup(title, Some(site), now);
      if existing.Raised? || existing.value.Some? {
        return existing;
      }
      var posted := Post("computergroups/" + site, FileBody(groupXml), map[], now);
      if posted.Raised? {
        return Raised(posted.error);
      }
      r := GetComputerGroup(site, Some(title), now);
    }

    /** `create_group_from_file` with the second lookup's arguments in the
        intended order: the new group is searched for by its title in the
        site it was posted to, so whatever it returns is named after the
        title. */
    method CreateGroupFromFileCorrected(title: string, groupXml: seq<byte>, arg: Option<string>, now: int)
      returns (r: Outcome<Option<Element>>)
      modifies this`lastConnected, this`sent
      ensures CurrentSitePath(sitePath, arg).Raised? ==>
        r == Raised(CurrentSitePath(sitePath, arg).error) && State() == old(State())
      ensures CurrentSitePath(sitePath, arg).Ok? ==>
        var sp := SiteText(CurrentSitePath(sitePath, arg).value);
        var existing := GroupStep(EnvOf(), old(State()), sitePath, title, Some(sp), now);
        var posted := VerbStep(EnvOf(), existing.conn, POST, "computergroups/" + sp, FileBody(groupXml), map[], now);
        var final := GroupStep(EnvOf(), posted.conn, sitePath, title, Some(sp), now);
        if existing.out.Raised? || existing.out.value.Some? then r == existing.out && State() == existing.conn
        else if posted.out.Raised? then r == Raised(posted.out.error) && State() == posted.conn
        else r == final.out && State() == final.conn
      ensures r.Ok? && r.value.Some? ==>
        Child(r.value.value, "Name").Ok? && lib.leafStr(Child(r.value.value, "Name").value) == title
    {
      var sp := GetCurrentSitePath(arg, now);
      if sp.Raised? {
        return Raised(sp.error);
      }
      var site := SiteText(sp.value);
      GroupStepNamed(EnvOf(), State(), sitePath, title, Some(site), now);
      var existing := GetComputerGroup(title, Some(site), now);
      if existing.Raised? || existing.value.Some? {
        return existing;
      }
      var posted := Post("computergroups/" + site, FileBody(groupXml), map[], now);
      if posted.Raised? {
        return Raised(posted.error);
      }
      GroupStepNamed(EnvOf(), State(), sitePath, title, Some(site), now);
      r := GetComputerGroup(title, Some(site), now);
    }

    /** `upload`: an unreadable file fails before anything is sent. */
    method Upload(readable: bool, contents: seq<byte>, filePath: string, fileName: Option<string>, now: int)
      returns (r: Outcome<RESTResult>)
      modifies this`lastConnected, this`sent
      ensures !readable ==> r == Raised(FileNotFound) && State() == old(State())
      ensures readable ==>
        var s := VerbStep(EnvOf(), old(State()), POST, Url(rootserver, "upload"), FileBody(contents),
                          UploadHeaders(UploadName(filePath, fileName)), now);
        Summary(r) == s.out && State() == s.conn
    {
      if !readable {
        return Raised(FileNotFound);
      }
      var name := UploadName(filePath, fileName);
      r := Post(Url(rootserver, "upload"), FileBody(contents), UploadHeaders(name), now);
    }
  }
}
