# besapi — a Dafny model of the BigFix REST client core

`besapi` is a Python client for the REST API of a BigFix root server. This
project models its core, `src/besapi/besapi.py`, and the older client kept
at the repository root, `besapi.py`, and proves properties of that model:

- **`BESConnection`** (module `Session`, class `Session.BESConnection`):
  - The root server is normalised: `https://` is added when missing, then
    `:52311` when the root does not hold exactly two colons. Endpoints
    resolve against that root.
  - Every verb passes through the login guard. `login()` refreshes a
    session four or more whole minutes old.
  - It sends session relevance queries and reads their answers.
  - It validates, reads and sets the site path context.
  - It looks up operators, content and computer groups, creates groups and
    uploads files.
- **`RESTResult`** (module `Rest`, class `Rest.RESTResult`):
  - A 403 answer is refused.
  - Validity is decided by content type or by the three XML schemas tried
    in order.
  - The XML, object, dictionary and JSON views are computed on first use
    and then cached.
- **`elem2dict`** (module `Elem2Dict`) and **`sanitize_txt`** (module
  `Sanitize`).
- **The deterministic part of site export** (module `Export`): where each
  item is written, and which sites are exported.
- **The legacy client** (module `Legacy`): no root normalisation, no
  refresh, no 403 check. A failed login is settled by `raise_for_status`
  of a second login request.

The outside world enters as parameters:

- **The server** is a function from the requests sent so far and the new
  request to its `Response`. It may therefore answer differently as a
  session goes on.
- **The clock** is the `now` (microseconds) each call receives.
- **lxml and `json`** are an `XmlLib` record of functions: parsing, schema
  loading and acceptance, serialisation, `json.dumps`, and `str()` of an
  objectify leaf (`leafStr`), whose type conversion can make it differ from
  the leaf's text (`007` gives `7`, `true` gives `True`). Every property
  proved holds whatever those libraries do.
- **Exceptions** are the `Raised` case of `Outcome`.

Each stateful method is proved equal to a pure step function. For example,
`Session.LoginStep`, `Session.VerbStep` and `Session.GroupStep` give the
outcome and the new `(last_connected, requests sent)` state. The lemmas
about those step functions carry the properties.

`login()` ends with `return bool(self.last_connected)`, which reads as
"whether the login succeeded". In the code, however, `get("login")` stamps
`last_connected` before the status is looked at
(src/besapi/besapi.py:196). `login()` therefore never returns `False`: it
raises or returns `True`. The model follows the code, and
`Session.LoginStepSpec` states this.

## Model

| member | source | states |
|---|---|---|
| Resolve.NormalizeRootSpec | src/besapi/besapi.py:146-153 | the stored root always starts with `http`; it is the input, with `https://` added when it did not start with `http`, and then `:52311` added exactly when that form does not hold two colons |
| Resolve.NormalizeBareHost | src/besapi/besapi.py:146-153 | a bare host without a colon becomes `https://<host>:52311`, which holds exactly two colons |
| Resolve.NormalizeRootIdempotent | src/besapi/besapi.py:146-153 | normalising again changes nothing exactly when the normalised root holds two colons; a colon-free `http…` input gets a second `:52311` |
| Resolve.UrlSpec | src/besapi/besapi.py:182-189 | every resolved URL starts with the root; a path is used unchanged exactly when it already starts with the root, and is otherwise `<root>/api/<path>` |
| Resolve.UrlIdempotent | src/besapi/besapi.py:182-189 | resolving an already resolved URL gives it back |
| Sanitize.SanitizeTxt | src/besapi/besapi.py:44-60 | one result per argument, in order, each the sanitised form of that argument |
| Sanitize.SanitizeSafe | src/besapi/besapi.py:44-60 | every character of a sanitised string is an ASCII letter, digit or one of `-_.()`: no `/`, `\` or space survives |
| Sanitize.SanitizeFixedPoint | src/besapi/besapi.py:44-60 | a string is left unchanged exactly when all its characters are already safe |
| Sanitize.SanitizeIdempotent | src/besapi/besapi.py:44-60 | sanitising twice gives the same as sanitising once |
| Sanitize.KeepValidChars | src/besapi/besapi.py:50-55 | the filter keeps only valid characters, each taken from the input |
| Elem2Dict.Elem2DictLoop | src/besapi/besapi.py:63-88 | the loop over the children computes the conversion or the exception it raises |
| Elem2Dict.Step | src/besapi/besapi.py:70-87 | one pass of the loop extends the dictionary of the first i children to that of the first i + 1, or raises as the conversion does |
| Elem2Dict.ValueOf | src/besapi/besapi.py:75-78 | a child's value is its text when that text is non-blank, and otherwise its own converted dictionary or the exception raised converting it |
| Elem2Dict.Store | src/besapi/besapi.py:79-87 | a new key stores the value; a second occurrence makes a two-element list of a dictionary, and raises for text; later occurrences are appended |
| Elem2Dict.Elem2DictCharacterized | src/besapi/besapi.py:63-88 | the conversion succeeds exactly when every child converts and no local name occurs twice with a text value first; the result then holds every local name, mapped to its one value or to the list of all its values in document order |
| Elem2Dict.ConvertCharacterized | src/besapi/besapi.py:70-87 | the same for the dictionary built from the first n children |
| Elem2Dict.RaisedPersists | src/besapi/besapi.py:70-87 | an exception raised at some child is what the whole conversion raises |
| Elem2Dict.RepeatedTextLeafRaises | src/besapi/besapi.py:76-85 | two children with the same tag and non-blank texts make `.copy()` on a string raise |
| Elem2Dict.PairsOfChildren | src/besapi/besapi.py:70-80 | the (key, value) pairs are the children's local names and values, in order, and exist exactly when every child converts |
| Elem2Dict.ChildValue | src/besapi/besapi.py:75-78 | a child contributes its text or a nested dictionary, never a list |
| Xml.LocalNameClark | src/besapi/besapi.py:72 | a tag without `}` is its own key, and `{ns}name` gives `name` |
| Xml.LocalNameNoBrace | src/besapi/besapi.py:72 | the key taken from a namespaced tag holds no `}` |
| Xml.Child | src/besapi/besapi.py:244 | objectify's child access yields the first child with that tag, and raises exactly when there is none |
| Utf8.DecodeEncode | src/besapi/besapi.py:621 | decoding the UTF-8 encoding of a string gives the string back |
| Utf8.EncodeAppend | src/besapi/besapi.py:606-607 | encoding distributes over concatenation |
| Percent.QuoteRoundTrip | src/besapi/besapi.py:232 | the quoted relevance percent-decodes and UTF-8-decodes back to the expression |
| Percent.RelevanceBodyShape | src/besapi/besapi.py:232 | the posted body is `relevance=` followed by the quoted expression, which holds no `=`, `&`, `/` or space, so the expression can never add or split a form field |
| Percent.QuoteExcludes | src/besapi/besapi.py:232 | a character outside letters, digits, `_.-~:+%` never appears in quoted text |
| Rest.ScanFirstMatch | src/besapi/besapi.py:672-686 | the schema loop accepts exactly when some schema loads and accepts after all earlier ones loaded and rejected; it answers false exactly when all load and reject; it raises exactly when a schema that does not load comes first, and then with that schema's error |
| Rest.ValidateXsdLoop | src/besapi/besapi.py:665-686 | the early-exit loop computes `validate_xsd`, with an unparsable document invalid |
| Rest.ValidityIff | src/besapi/besapi.py:601-615 | a result is valid exactly when its content type is `application/xml`, or the encoded body is accepted, or, the encoded body having been rejected without error, the text body is; a body that parses in neither form is invalid |
| Rest.ValidityCheck | src/besapi/besapi.py:601-615 | the constructor's branches compute that decision |
| Rest.WrapReplySpec | src/besapi/besapi.py:585-615 | a 403 raises PermissionError carrying the text and URL whatever the body; any other answer is wrapped unchanged exactly when the validity decision raises nothing |
| Rest.StrOfValid | src/besapi/besapi.py:617-625 | `str()` of a valid result is the text its canonical bytes decode to |
| Rest.InvalidDict | src/besapi/besapi.py:617-655 | an invalid result shows its raw text, and its dictionary is `{"text": str(result)}` |
| Rest.RESTResult.constructor | src/besapi/besapi.py:577-615 | a result exists only for an answer the constructor accepts; all four caches start empty |
| Rest.RESTResult.BesXml | src/besapi/besapi.py:630-636 | `None` when invalid; otherwise the cached value, or on first access the canonical serialisation of the body, computed once |
| Rest.MemoisedTwice | src/besapi/besapi.py:630-636 | two reads of `besxml` give the same outcome; a computable view is computed at most once over both, and never for an invalid result |
| Rest.RESTResult.BesObj | src/besapi/besapi.py:638-644 | as `besxml`, for the objectified tree |
| Rest.RESTResult.Call | src/besapi/besapi.py:627-628 | calling a result gives its object view |
| Rest.RESTResult.Str | src/besapi/besapi.py:617-625 | the decoded canonical XML when valid, the text otherwise; undecodable bytes make `str()` raise, and a failed serialisation is tried a second time before it raises |
| Rest.RESTResult.BesDict | src/besapi/besapi.py:646-655 | `elem2dict` of the re-parsed canonical XML when valid, `{"text": str(result)}` otherwise, computed once |
| Rest.RESTResult.BesJson | src/besapi/besapi.py:657-663 | `json.dumps` of the dictionary view, computed once |
| Rest.Wrap | src/besapi/besapi.py:577-615 | constructing a result yields exactly the reply `WrapReply` describes, or its exception, and a fresh result with empty caches |
| SitePath.FirstPrefix | src/besapi/besapi.py:310-312 | the index of the first marker, in list order, that the path contains, with none before it; or none at all |
| SitePath.MissingOrBlank | src/besapi/besapi.py:298-305 | `None` or a blank path gives `None`, or raises when `raise_error` is set, without any lookup |
| SitePath.MasterExact | src/besapi/besapi.py:312-333 | exactly `master` is accepted without a lookup when existence is not checked, and otherwise exactly when the lookup answers 200 |
| SitePath.MasterNotExactRaises | src/besapi/besapi.py:313-317 | a path whose first marker is `master` but which is not `master` raises, whatever the flags |
| SitePath.NoMarkerRaises | src/besapi/besapi.py:333-336 | a non-blank path with none of the four markers raises |
| SitePath.SiteMarkerAccepted | src/besapi/besapi.py:310-333 | a path with `external/`, `custom/` or `operator/` is returned unchanged without a lookup, or with one exactly when it answers 200; otherwise `None`, or an error with `raise_error` |
| SitePath.CustomMasterAccepted | src/besapi/besapi.py:307-320 | `custom/master` is a custom site and is accepted |
| SitePath.BlankHasNoMarker | src/besapi/besapi.py:302-312 | a blank path contains none of the markers |
| Session.StaleIff | src/besapi/besapi.py:264-275 | because `int()` truncates the minutes, a stamp counts as stale exactly when four or more whole minutes have passed; a clock gone backwards never refreshes |
| Session.LoginStepSpec | src/besapi/besapi.py:262-288 | `login()` never answers false and always leaves a stamp; it sends the login request exactly when there was no stamp or a stale one, and then holds `now`; it raises exactly when wrapping the answer raised or the status is 4xx or 5xx |
| Session.VerbStepSpec | src/besapi/besapi.py:191-223 | every verb leaves `last_connected` at `now`; it logs in first exactly when it is guarded and the login fetches; unless that login raised, it sends its own request, whose wrapped answer is the outcome |
| Session.RefreshWindow | src/besapi/besapi.py:191-223 | within four minutes of the previous exchange a verb sends only its own request; from four minutes on, a guarded verb sends the login request first |
| Session.BESConnection.Connect | src/besapi/besapi.py:131-157 | a connection has the normalised root, the `master` context and the state after the first login; a login that raises yields no connection |
| Session.BESConnection.Init | src/besapi/besapi.py:137-155 | the fields set before the first login: normalised root, `master` context, no stamp, nothing sent |
| Session.BESConnection.Login | src/besapi/besapi.py:262-288 | the login outcome and new state are those of `LoginStep` |
| Session.BESConnection.Get | src/besapi/besapi.py:191-199 | the outcome and new state are those of `VerbStep` for a GET, guarded unless the path contains `login` |
| Session.BESConnection.Post | src/besapi/besapi.py:201-207 | the same for POST, always guarded |
| Session.BESConnection.Put | src/besapi/besapi.py:209-215 | the same for PUT |
| Session.BESConnection.Delete | src/besapi/besapi.py:217-223 | the same for DELETE |
| Session.BESConnection.Send | src/besapi/besapi.py:196-199 | stamping, sending and wrapping one request |
| Session.BESConnection.SessionRelevanceXml | src/besapi/besapi.py:225-236 | one guarded POST to `query` of the form body `relevance=<quoted expression>` |
| Session.BESConnection.SessionRelevanceArray | src/besapi/besapi.py:238-255 | the answers of that query's result, or its exception |
| Session.BESConnection.SessionRelevanceString | src/besapi/besapi.py:257-260 | the answers joined by line breaks, or the exception of the query or of the join |
| Session.AnswersOfSpec | src/besapi/besapi.py:244-252 | the array lists the texts of the `Answer` children in document order; with no `Answer`, it is the single entry `ERROR: ` followed by the error text |
| Session.JoinAnswers | src/besapi/besapi.py:257-260 | the join succeeds exactly when every answer has a text |
| Session.AnswersRoundTrip | src/besapi/besapi.py:257-260 | answers free of line breaks are recovered by splitting the joined string at line breaks |
| Session.BESConnection.ValidateSitePath | src/besapi/besapi.py:295-336 | the markers are tried in order; the outcome and state are those of `ValidateStep`, with the server consulted only for the existence check |
| Session.NoLookupWithoutCheck | src/besapi/besapi.py:318-320 | without the existence check nothing is sent and the session is unchanged |
| Session.BESConnection.GetCurrentSitePath | src/besapi/besapi.py:338-351 | a missing or blank argument falls back on the context; the result is validated without a lookup, and nothing is sent |
| Session.CurrentSitePathSpec | src/besapi/besapi.py:338-351 | with a usable context, no argument gives that context, and an argument gives itself or an error, never `None` |
| Session.MasterUsable | src/besapi/besapi.py:144 | the initial context `master` is usable |
| Session.CheckedIsUsable | src/besapi/besapi.py:353-358 | a path the existence check looks up is usable as a context |
| Session.BESConnection.SetCurrentSitePath | src/besapi/besapi.py:353-358 | the context becomes the argument exactly when it passed the existence check, and stays usable |
| Session.BESConnection.GetUser | src/besapi/besapi.py:377-385 | the operator's result, unless `str()` of it says the operator does not exist |
| Session.BESConnection.GetContentByResource | src/besapi/besapi.py:452-468 | the resource is fetched with `http://` replaced by `https://`, and a 403 becomes `None` |
| Session.HttpsResource | src/besapi/besapi.py:457 | a resource `http://<rest>` whose rest holds no further `http://` is fetched at `https://<rest>` |
| Session.FirstGroupSpec | src/besapi/besapi.py:407-412 | a group found has `str(group.Name)` (objectify's converted text, `leafStr`) equal to the searched name, and a `Resource` attribute; `None` means every group was looked at and none has that `str()` |
| Session.FindGroup | src/besapi/besapi.py:407-412 | the loop finds what the specification of the search does, comparing the name with `str(group.Name)` as objectify converts it, and raises for a listing with no group, a group with no name, or a matching group with no `Resource` attribute (read by the log call before `return group`) |
| Session.MatchWithoutResourceRaises | src/besapi/besapi.py:408-412 | a group whose `str(group.Name)` equals the searched name but which lacks `Resource` ends the search with KeyError, whatever follows it |
| Session.BESConnection.GetComputerGroup | src/besapi/besapi.py:401-414 | the group whose `str(group.Name)` is the name asked for (and carrying `Resource`) in the site's group listing, `None`, or the exception, including KeyError for a match without `Resource`, with the state of the one guarded GET |
| Session.GroupStepNamed | src/besapi/besapi.py:401-414 | whatever `get_computergroup` finds has `str(group.Name)` equal to the name asked for, and carries a `Resource` attribute |
| Session.BESConnection.CreateGroupFromFile | src/besapi/besapi.py:416-432 | as written: an existing group is returned; otherwise the group is posted and looked up again, with the two arguments swapped |
| Session.SwappedLookupRaises | src/besapi/besapi.py:432 | that swapped lookup, for a title such as `Sales`, raises "no valid prefix" whatever the context |
| Session.BESConnection.CreateGroupFromFileCorrected | src/besapi/besapi.py:416-432 | with the arguments in the intended order, a group returned has `str(group.Name)` equal to the title |
| Session.BESConnection.Upload | src/besapi/besapi.py:434-450 | an unreadable file raises before anything is sent; otherwise a guarded POST to `<root>/api/upload`, naming the file in a Content-Disposition header |
| Session.Basename | src/besapi/besapi.py:444-445 | the basename is the tail of the path after its last `/` and holds no `/` |
| Session.UploadUrl | src/besapi/besapi.py:450 | for a normalised root, the pre-resolved upload URL is left as it is by `post` |
| Export.ItemPathDefined | src/besapi/besapi.py:524-546 | an item path exists exactly when the item has an `ID` child and a `Name` child with text, whatever the flags |
| Export.ExportItemWritten | src/besapi/besapi.py:510-551 | one pass of the item loop writes the fetched text, UTF-8 encoded, at the item's `item_path` exactly when `get_content_by_resource` gave a result, skips the item exactly when it gave `None`, and leaves the session as the fetch left it |
| Export.ForbiddenSkipsItem | src/besapi/besapi.py:510-513 | a PermissionError while fetching the item (from its GET or from the guard's login) skips it without an exception |
| Export.ItemPathInFolder | src/besapi/besapi.py:516-546 | every item file lies directly in the folder made for its item, under a `/`-free name ending in `.bes` |
| Export.NoSlash | src/besapi/besapi.py:516-546 | no sanitised part of a path holds `/`, so none adds a directory level |
| Export.ItemFileShape | src/besapi/besapi.py:524-546 | every item file name is free of `/` and ends in `.bes` |
| Export.StemBound | src/besapi/besapi.py:528 | the name part of a file is at most `name_trim` characters long |
| Export.SiteToExportSpec | src/besapi/besapi.py:562-563 | a site path is what follows the first `/api/site/` of the resource, and exists exactly when the resource holds it; without `include_external`, external sites are skipped and no others |
| Strings.AfterFirst | src/besapi/besapi.py:562 | `split(sep, 1)[1]` exists exactly when the separator occurs, and is what follows its first occurrence |
| Legacy.LegacyLoginSpec | besapi.py:62-63 | `login()` sends one login request and is true exactly when it answers 200; it raises only when the validity decision does |
| Legacy.LegacyConnectSpec | besapi.py:19-27 | a connection is logged in after one request exactly when the first login answers 200; otherwise a second login request is sent, and a 4xx or 5xx answer to it refuses the connection |
| Legacy.LegacyConnection.Connect | besapi.py:19-27 | the connection keeps the root as given and has sent the requests `LegacyConnect` describes |
| Legacy.LegacyConnection.Login | besapi.py:62-63 | the outcome and requests of `LegacyLogin` |
| Legacy.LegacyConnection.Get | besapi.py:37-40 | one request to `url(path)`, with no login and no 403 check |
| Legacy.LegacyConnection.Post | besapi.py:42-47 | the same for POST |
| Legacy.LegacyConnection.Put | besapi.py:49-54 | the same for PUT |
| Legacy.LegacyConnection.Delete | besapi.py:56-60 | the same for DELETE |
| Legacy.LegacyWrapResult | besapi.py:74-90 | a result is built for every status, with the validity of the current client |
| Legacy.LegacyResult.BesXml | besapi.py:101-106 | as in the current client: `None` when invalid, otherwise computed once |
| Legacy.LegacyResult.BesObj | besapi.py:108-113 | the same for the object view |
| Legacy.LegacyResult.Call | besapi.py:98-99 | calling a result gives its object view |
| Legacy.LegacyResult.Str | besapi.py:92-96 | a direct `__str__()` call: the serialised bytes themselves when valid, the text otherwise (Python 2 reading; under Python 3 `str(r)` of a valid result raises TypeError because `__str__` returns bytes) |
| Legacy.ShownAgreesWithStr | besapi.py:92-96 | raw text is shown exactly when invalid; the bytes shown for a valid result decode to what the current client's `str()` gives |

## Left out

- Transport is not modelled: HTTP sessions, cookies, TLS verification and basic authentication. The server is a function parameter.
- `logout`, `__del__`, `__eq__` and `__repr__` are left out: they are teardown, equality (of root server, credentials and TLS verification) and representation, and none takes part in the core.
- `__bool__`, `__call__` and `__enter__` are not separate members: each is `login()`, which `Session.BESConnection.Login` models.
- lxml and `json` are not computed: parsing, schema loading and validation, serialisation and `json.dumps` are the fields of `XmlLib`. Namespaces are not resolved in objectify child lookups.
- `etree.fromstring` and `objectify.fromstring` are taken to parse a body into the same tree.
- Python dictionary insertion order is not modelled: dictionaries are `map`s.
- Durations are exact integers (microseconds) rather than floating point. `int()`'s truncation toward zero is modelled.
- `rand_password` is left out: it is randomness, outside the core.
- `create_site_from_file` and `create_user_from_file` are left out: they read and XPath-query local files.
- Session.BESConnection.CreateGroupFromFile: receives the group title and serialised XML rather than a file path.
- Session.BESConnection.Upload: receives the file's readability and contents rather than a path.
- `export_site_contents` and `export_all_sites` are modelled per item and per site: the per-item fetch, the skip of an item whose fetch gave `None`, the target path and the bytes written (`Export.ExportItem`), and the site filter (`Export.SiteToExport`). Directory creation, the actual file writes and the printing are file I/O; the iteration over the listings, which repeats those steps in order, is not written out as a loop.
- Logging and the `verbose` prints are left out (with `verbose` on, the print also reads `item.ID` and `item.attrib["LastModified"]` first, which raise when absent); the one log argument that can raise, `group.attrib["Resource"]` in `get_computergroup`, is modelled as the KeyError it raises.
- Elem2Dict.Elem2DictLoop: comment and processing-instruction nodes are not modelled, since `Xml.Element` has only element children. `besdict` re-parses with `etree.fromstring`, which keeps such nodes, and `"}" in element.tag` then raises TypeError on them; the model's `Elem2Dict.Convert` and `Elem2Dict.Elem2DictLoop` never see them, so for a document holding a comment or a processing instruction they return a dictionary where the source raises.
- `bescli.py` and the setup script are outside the core.

## Findings

| source | as written | input that shows it | evidently intended | confidence | as-written member | corrected member |
|---|---|---|---|---|---|---|
| src/besapi/besapi.py:432 | after posting a new group, `create_group_from_file` looks it up with `get_computergroup(site_path, new_group_name)`, passing the site path as the group name and the title as the site path | a group titled `Sales` that does not exist yet, in context `master`: once the POST succeeds, the lookup validates `Sales` as a site path and raises ValueError "no valid prefix" | `get_computergroup(new_group_name, site_path)`, returning the group just created | high, not executed | Session.BESConnection.CreateGroupFromFile, Session.SwappedLookupRaises | Session.BESConnection.CreateGroupFromFileCorrected, Session.GroupStepNamed |
