/** One pass of the loops of `export_site_contents` and
    `export_all_sites` (src/besapi/besapi.py:510-551, 562-563): the fetch
    of each item, whether it is skipped, where it is written and with what
    bytes, and which sites of the `sites` listing are exported. */
module Export {

  import opened Base
  import opened Strings
  import opened Xml
  import opened Sanitize
  import opened Utf8
  import opened Rest
  import opened Session

  /** The directory an item goes to: `<folder><site>/<tag>`, or
      `<folder><tag>` without the site level, each part sanitised. */
  function ItemFolder(exportFolder: string, sitePath: string, tag: string, includeSiteFolder: bool): string
  {
    if includeSiteFolder then exportFolder + SanitizeOne(sitePath) + "/" + SanitizeOne(tag)
    else exportFolder + SanitizeOne(tag)
  }

  /** The file name inside that directory: `<id>-<name>.bes` or
      `<name>.bes`, the name cut to `nameTrim` characters before
      sanitising. */
  function ItemFile(id: string, name: string, nameTrim: int, includeItemIds: bool): string
  {
    var stem := SanitizeOne(SliceTo(name, nameTrim));
    if includeItemIds then SanitizeOne(id) + "-" + stem + ".bes" else stem + ".bes"
  }

  /** `item_path` for one item of the site's content listing. The parts are
      read in the order the source formats them: the `ID` child (always:
      the first, id-bearing format is evaluated before the flags pick
      another) and formatted through `str()`, objectify's converted text,
      then the `Name` child and its text, whose absence makes
      the slice raise TypeError. */
  function ItemPath(lib: XmlLib, exportFolder: string, sitePath: string, item: Element, nameTrim: int,
                    includeSiteFolder: bool, includeItemIds: bool): Outcome<string>
  {
    var id := Child(item, "ID");
    if id.Raised? then Raised(id.error)
    else
      match Child(item, "Name")
      case Raised(e) => Raised(e)
      case Ok(nameElem) =>
        if nameElem.text.None? then Raised(TypeMismatch)
        else
          var file := ItemFile(lib.leafStr(id.value), nameElem.text.value, nameTrim, includeItemIds);
          var tag, site := SanitizeOne(item.tag), SanitizeOne(sitePath);
          if includeSiteFolder then Ok(exportFolder + site + "/" + tag + "/" + file)
          else Ok(exportFolder + tag + "/" + file)
  }

  /** The path exists exactly when the item has an `ID` child and a `Name`
      child with text, whatever the flags; a missing `ID` is reported first. */
  lemma ItemPathDefined(lib: XmlLib, exportFolder: string, sitePath: string, item: Element, nameTrim: int,
                        includeSiteFolder: bool, includeItemIds: bool)
    ensures var r := ItemPath(lib, exportFolder, sitePath, item, nameTrim, includeSiteFolder, includeItemIds);
      r.Ok? <==> ChildrenNamed(item, "ID") != [] && ChildrenNamed(item, "Name") != []
                 && ChildrenNamed(item, "Name")[0].text.Some?
    ensures ChildrenNamed(item, "ID") == [] ==>
      ItemPath(lib, exportFolder, sitePath, item, nameTrim, includeSiteFolder, includeItemIds) == Raised(NoSuchChild("ID"))
  {
  }

  /** What one pass of the item loop of `export_site_contents` leaves
      behind: the file it wrote and the bytes written into it. */
  datatype Written = Written(path: string, bytes: seq<byte>)

  /** One item of the site's content listing: its `Resource` attribute is
      fetched through `get_content_by_resource` (a missing attribute
      raises KeyError); a `None` answer, which is what a 403 becomes,
      skips the item (`Ok(None)`); otherwise the item's text, UTF-8
      encoded, is written at its `item_path`. */
  function ExportItem(env: Env, c: Conn, exportFolder: string, sitePath: string, item: Element,
                      nameTrim: int, includeSiteFolder: bool, includeItemIds: bool, now: int)
    : Step<Option<Written>>
  {
    if "Resource" !in item.attrs then Step(Raised(MissingKey("Resource")), c)
    else
      var s := ContentStep(env, c, item.attrs["Resource"], now);
      match s.out
      case Raised(e) => Step(Raised(e), s.conn)
      case Ok(None) => Step(Ok(None), s.conn)
      case Ok(Some(reply)) =>
        match ItemPath(env.lib, exportFolder, sitePath, item, nameTrim, includeSiteFolder, includeItemIds)
        case Raised(e) => Step(Raised(e), s.conn)
        case Ok(p) => Step(Ok(Some(Written(p, Encode(reply.response.text)))), s.conn)
  }

  /** An item is written, at its `item_path` and with the fetched text,
      exactly when fetching its resource gave a result; it is skipped
      exactly when the fetch answered `None` (a PermissionError), and in
      every case the session state is the fetch's. */
  lemma ExportItemWritten(env: Env, c: Conn, exportFolder: string, sitePath: string, item: Element,
                          nameTrim: int, includeSiteFolder: bool, includeItemIds: bool, now: int)
    requires "Resource" in item.attrs
    ensures var s := ContentStep(env, c, item.attrs["Resource"], now);
      var x := ExportItem(env, c, exportFolder, sitePath, item, nameTrim, includeSiteFolder, includeItemIds, now);
      var p := ItemPath(env.lib, exportFolder, sitePath, item, nameTrim, includeSiteFolder, includeItemIds);
      && x.conn == s.conn
      && (x.out.Ok? && x.out.value.Some? <==> s.out.Ok? && s.out.value.Some? && p.Ok?)
      && (x.out.Ok? && x.out.value.Some? ==>
            x.out.value.value == Written(p.value, Encode(s.out.value.value.response.text)))
      && (x.out == Ok(None) <==> s.out == Ok(None))
  {
  }

  /** A PermissionError while fetching the item's resource (a 403 for the
      GET itself, or for the login the guard sends first) skips the item
      without an exception. */
  lemma ForbiddenSkipsItem(env: Env, c: Conn, exportFolder: string, sitePath: string, item: Element,
                           nameTrim: int, includeSiteFolder: bool, includeItemIds: bool, now: int)
    requires "Resource" in item.attrs
    requires VerbStep(env, c, GET, ReplaceAll(item.attrs["Resource"], "http://", "https://"),
                      NoBody, map[], now).out.Raised?
    requires VerbStep(env, c, GET, ReplaceAll(item.attrs["Resource"], "http://", "https://"),
                      NoBody, map[], now).out.error.Forbidden?
    ensures ExportItem(env, c, exportFolder, sitePath, item, nameTrim, includeSiteFolder, includeItemIds, now).out
            == Ok(None)
  {
  }

  /** Every sanitised string is free of `/`. */
  lemma NoSlash(s: string)
    ensures '/' !in SanitizeOne(s)
  {
    SanitizeSafe(s);
  }

  /** A file name is free of `/` and ends in `.bes`. */
  lemma ItemFileShape(id: string, name: string, nameTrim: int, includeItemIds: bool)
    ensures var file := ItemFile(id, name, nameTrim, includeItemIds);
      '/' !in file && |file| >= 4 && file[|file| - 4..] == ".bes"
  {
    NoSlash(SliceTo(name, nameTrim));
    NoSlash(id);
  }

  /** A written file lies directly in the folder created for its item:
      the path is that folder, a `/` and a `.bes` file name free of `/`. */
  lemma ItemPathInFolder(lib: XmlLib, exportFolder: string, sitePath: string, item: Element, nameTrim: int,
                         includeSiteFolder: bool, includeItemIds: bool)
    requires ItemPath(lib, exportFolder, sitePath, item, nameTrim, includeSiteFolder, includeItemIds).Ok?
    ensures var p := ItemPath(lib, exportFolder, sitePath, item, nameTrim, includeSiteFolder, includeItemIds).value;
      exists file :: p == ItemFolder(exportFolder, sitePath, item.tag, includeSiteFolder) + "/" + file
                     && '/' !in file && |file| >= 4 && file[|file| - 4..] == ".bes"
  {
    var id := lib.leafStr(Child(item, "ID").value);
    var file := ItemFile(id, Child(item, "Name").value.text.value, nameTrim, includeItemIds);
    ItemFileShape(id, Child(item, "Name").value.text.value, nameTrim, includeItemIds);
    var p := ItemPath(lib, exportFolder, sitePath, item, nameTrim, includeSiteFolder, includeItemIds).value;
    assert p == ItemFolder(exportFolder, sitePath, item.tag, includeSiteFolder) + "/" + file;
  }

  /** The name part of the file never exceeds `nameTrim` characters. */
  lemma StemBound(name: string, nameTrim: int)
    requires nameTrim >= 0
    ensures |SanitizeOne(SliceTo(name, nameTrim))| <= nameTrim
  {
  }

  /** Site path of one entry of the `sites` listing: what follows the
      first `/api/site/` of its `Resource` attribute. A missing attribute
      raises KeyError, a resource without the marker IndexError. The site
      is exported (`Some`) unless it is external and externals are not
      included. */
  function SiteToExport(item: Element, includeExternal: bool): Outcome<Option<string>>
  {
    if "Resource" !in item.attrs then Raised(MissingKey("Resource"))
    else
      match AfterFirst(item.attrs["Resource"], "/api/site/")
      case None => Raised(MissingSeparator)
      case Some(sitePath) =>
        if includeExternal || !Contains(sitePath, "external/") then Ok(Some(sitePath)) else Ok(None)
  }

  /** An exported site path is the resource's tail after its first
      `/api/site/`, and it names no external site unless externals were
      asked for; an external site is skipped exactly when they were not. */
  lemma SiteToExportSpec(item: Element, includeExternal: bool)
    requires "Resource" in item.attrs
    ensures var res := item.attrs["Resource"];
      SiteToExport(item, includeExternal).Ok? <==> Contains(res, "/api/site/")
    ensures SiteToExport(item, includeExternal).Ok? && SiteToExport(item, includeExternal).value.Some? ==>
      var sp := SiteToExport(item, includeExternal).value.value;
      (exists pre :: item.attrs["Resource"] == pre + "/api/site/" + sp && !Contains(pre, "/api/site/"))
      && (!includeExternal ==> !Contains(sp, "external/"))
    ensures includeExternal && SiteToExport(item, includeExternal).Ok? ==>
      SiteToExport(item, includeExternal).value.Some?
  {
  }
}
