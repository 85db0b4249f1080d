/** The decision procedure of `validate_site_path`
    (src/besapi/besapi.py:295-336), apart from its one server lookup:
    a site path is recognised by the first of four markers it CONTAINS,
    tried in list order, with `master` last and only ever exact. */
module SitePath {

  import opened Base
  import opened Strings

  /** `site_prefixes`, in the order they are tried. */
  const Prefixes: seq<string> := ["external/", "custom/", "operator/", "master"]

  /** Index of the first marker from position `i` on that `path` contains. */
  function FirstPrefix(path: string, i: nat): (r: Option<nat>)
    requires i <= |Prefixes|
    ensures r.Some? ==> i <= r.value < |Prefixes| && Contains(path, Prefixes[r.value])
                        && forall j :: i <= j < r.value ==> !Contains(path, Prefixes[j])
    ensures r.None? ==> forall j :: i <= j < |Prefixes| ==> !Contains(path, Prefixes[j])
    decreases |Prefixes| - i
  {
    if i == |Prefixes| then None
    else if Contains(path, Prefixes[i]) then Some(i)
    else FirstPrefix(path, i + 1)
  }

  /** What `validate_site_path` does before any lookup: it is either done,
      with a value or an error, or it must ask the server whether the site
      exists. */
  datatype Decision = Done(out: Outcome<Option<string>>) | Lookup

  /** `None` or blank input is refused quietly or loudly as `raise_error`
      says; a path containing no marker is always an error; a path whose
      first marker is `master` must be exactly `master`; otherwise the path
      is accepted as it is, or looked up when `check_site_exists` is set. */
  function Decide(path: Option<string>, check: bool, raiseError: bool): Decision
  {
    if path.None? then Done(if raiseError then Raised(SitePathNone) else Ok(None))
    else if IsBlank(path.value) then Done(if raiseError then Raised(SitePathEmpty) else Ok(None))
    else
      match FirstPrefix(path.value, 0)
      case None => Done(Raised(NoValidPrefix))
      case Some(k) =>
        if Prefixes[k] == "master" && path.value != "master" then Done(Raised(MasterNotExact(path.value)))
        else if !check then Done(Ok(Some(path.value)))
        else Lookup
  }

  /** The answer once the lookup `GET site/<path>` returned `status`. */
  function AfterLookup(path: string, status: int, raiseError: bool): Outcome<Option<string>>
  {
    if status != 200 then (if raiseError then Raised(SiteMissing(path)) else Ok(None))
    else Ok(Some(path))
  }

  /** The whole procedure for a given lookup status: a status is needed
      only when `Decide` asks for one. */
  function Validate(path: Option<string>, check: bool, raiseError: bool, status: int): Outcome<Option<string>>
  {
    match Decide(path, check, raiseError)
    case Done(out) => out
    case Lookup => AfterLookup(path.value, status, raiseError)
  }

  /** One of the three directory-like markers. */
  predicate HasSiteMarker(path: string) {
    Contains(path, "external/") || Contains(path, "custom/") || Contains(path, "operator/")
  }

  // ---- properties

  /** Missing or blank input: `None`, or an error when `raise_error` is
      set; no lookup either way. */
  lemma MissingOrBlank(path: Option<string>, check: bool, raiseError: bool)
    requires path.None? || IsBlank(path.value)
    ensures Decide(path, check, raiseError).Done?
    ensures raiseError ==> Decide(path, check, raiseError).out.Raised?
    ensures !raiseError ==> Decide(path, check, raiseError).out == Ok(None)
  {
  }

  /** A blank path holds none of the markers, so a non-blank check is what
      separates the two refusals. */
  lemma {:induction false} BlankHasNoMarker(path: string, p: string)
    requires IsBlank(path) && p != [] && !IsSpace(p[0])
    ensures !Contains(path, p)
    decreases |path|
  {
    if path != [] {
      assert !StartsWith(path, p) by {
        if |p| <= |path| { assert path[0] != p[0]; }
      }
      BlankHasNoMarker(path[1..], p);
    }
  }

  /** The marker lookup, decided: for each marker, what `FirstPrefix`
      finds when the path holds it and none before it. */
  lemma FirstPrefixMarkers(path: string)
    ensures Contains(path, "external/") ==> FirstPrefix(path, 0) == Some(0)
    ensures !Contains(path, "external/") && Contains(path, "custom/") ==> FirstPrefix(path, 0) == Some(1)
    ensures !Contains(path, "external/") && !Contains(path, "custom/") && Contains(path, "operator/")
            ==> FirstPrefix(path, 0) == Some(2)
    ensures !HasSiteMarker(path) && Contains(path, "master") ==> FirstPrefix(path, 0) == Some(3)
    ensures !HasSiteMarker(path) && !Contains(path, "master") ==> FirstPrefix(path, 0) == None
  {
    assert Prefixes[0] == "external/" && Prefixes[1] == "custom/";
    assert Prefixes[2] == "operator/" && Prefixes[3] == "master";
  }

  /** Exactly `master` is accepted without a lookup when existence is not
      checked, and otherwise exactly when the lookup answers 200. */
  lemma MasterExact(check: bool, raiseError: bool, status: int)
    ensures !check ==> Decide(Some("master"), check, raiseError) == Done(Ok(Some("master")))
    ensures check ==> Decide(Some("master"), check, raiseError) == Lookup
    ensures check ==> (Validate(Some("master"), check, raiseError, status) == Ok(Some("master")) <==> status == 200)
  {
    var m := "master";
    assert !IsBlank(m) by { assert !IsSpace(m[0]); }
    assert StartsWith(m, m);
    StartsWithContains(m, m);
    FirstPrefixMarkers(m);
    assert !HasSiteMarker(m) by {
      LongerNotContained(m, "external/");
      LongerNotContained(m, "operator/");
      LongerNotContained(m, "custom/");
    }
  }

  /** A path containing `master` but none of the three other markers and
      not equal to `master` is always refused, whatever the flags. */
  lemma MasterNotExactRaises(path: string, check: bool, raiseError: bool, status: int)
    requires Contains(path, "master") && path != "master" && !HasSiteMarker(path)
    ensures Decide(Some(path), check, raiseError) == Done(Raised(MasterNotExact(path)))
    ensures Validate(Some(path), check, raiseError, status) == Raised(MasterNotExact(path))
  {
    FirstPrefixMarkers(path);
    assert !IsBlank(path) by {
      var m := "master";
      assert !IsSpace(m[0]);
      if IsBlank(path) { BlankHasNoMarker(path, m); }
    }
  }

  /** A path containing no marker at all is always refused. */
  lemma NoMarkerRaises(path: string, check: bool, raiseError: bool, status: int)
    requires !IsBlank(path) && !HasSiteMarker(path) && !Contains(path, "master")
    ensures Validate(Some(path), check, raiseError, status) == Raised(NoValidPrefix)
  {
    FirstPrefixMarkers(path);
  }

  /** A path holding one of `external/`, `custom/`, `operator/` is given back
      unchanged without a lookup when existence is not checked; when it is
      checked, it is given back exactly when the lookup answers 200, and
      otherwise the answer is `None` or, with `raise_error`, an error. The
      `master` rule never applies to it, so `custom/master` is accepted. */
  lemma SiteMarkerAccepted(path: string, check: bool, raiseError: bool, status: int)
    requires HasSiteMarker(path)
    ensures !check ==> Decide(Some(path), check, raiseError) == Done(Ok(Some(path)))
    ensures check ==> Decide(Some(path), check, raiseError) == Lookup
    ensures check ==> (Validate(Some(path), check, raiseError, status) == Ok(Some(path)) <==> status == 200)
    ensures check && status != 200 ==>
      Validate(Some(path), check, raiseError, status) == (if raiseError then Raised(SiteMissing(path)) else Ok(None))
  {
    FirstPrefixMarkers(path);
    assert !IsBlank(path) by {
      if IsBlank(path) {
        var e, c, o := "external/", "custom/", "operator/";
        assert !IsSpace(e[0]) && !IsSpace(c[0]) && !IsSpace(o[0]);
        BlankHasNoMarker(path, e);
        BlankHasNoMarker(path, c);
        BlankHasNoMarker(path, o);
      }
    }
  }

  /** `custom/master` names a custom site, not the master action site. */
  lemma CustomMasterAccepted()
    ensures Validate(Some("custom/master"), false, true, 0) == Ok(Some("custom/master"))
  {
    var p := "custom/master";
    assert StartsWith(p, "custom/");
    StartsWithContains(p, "custom/");
    SiteMarkerAccepted(p, false, true, 0);
  }
}
