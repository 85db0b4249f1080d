/** Root-server normalisation and endpoint resolution
    (src/besapi/besapi.py:146-153 and 182-189; besapi.py:29-35). */
module Resolve {

  import opened Strings

  /** The console's default port, appended when none is given. */
  const DefaultPort: string := ":52311"

  /** The root as `BESConnection.__init__` stores it: `https://` is put in
      front unless the text starts with `http`, and the default port is
      appended unless the text then holds exactly two colons. */
  function NormalizeRoot(rootserver: string): (r: string)
  {
    var withScheme := if StartsWith(rootserver, "http") then rootserver else "https://" + rootserver;
    if CountChar(withScheme, ':') == 2 then withScheme else withScheme + DefaultPort
  }

  /** `url(path)`: a path that already starts with the root is used as
      it is, anything else goes under `<root>/api/`. */
  function Url(root: string, path: string): (r: string)
  {
    if StartsWith(path, root) then path else root + "/api/" + path
  }

  /** The normalised root always starts with `http`; it is the input,
      prefixed with `https://` exactly when the input does not start with
      `http`, and followed by `:52311` exactly when that prefixed text does
      not hold two colons. */
  lemma NormalizeRootSpec(rootserver: string)
    ensures StartsWith(NormalizeRoot(rootserver), "http")
    ensures var w := if StartsWith(rootserver, "http") then rootserver else "https://" + rootserver;
      NormalizeRoot(rootserver) == (if CountChar(w, ':') == 2 then w else w + DefaultPort)
      && (CountChar(w, ':') == 2 <==> NormalizeRoot(rootserver) == w)
  {
    var w := if StartsWith(rootserver, "http") then rootserver else "https://" + rootserver;
    assert StartsWith(w, "http") by {
      if !StartsWith(rootserver, "http") {
        assert w[..4] == "http";
      }
    }
    assert (w + DefaultPort)[..4] == w[..4];
  }

  /** A bare host name gets both the scheme and the default port. */
  lemma NormalizeBareHost(host: string)
    requires !StartsWith(host, "http") && ':' !in host
    ensures NormalizeRoot(host) == "https://" + host + DefaultPort
    ensures CountChar(NormalizeRoot(host), ':') == 2
  {
    CountAbsent(host, ':');
    CountCharAppend("https://", host, ':');
    CountCharAppend("https://" + host, DefaultPort, ':');
    assert CountChar(DefaultPort, ':') == 1;
    assert CountChar("https://", ':') == 1;
  }

  /** Normalising again changes nothing exactly when the normalised root
      holds two colons (a scheme and a port); a root like `http//host`
      would gain a second port. */
  lemma NormalizeRootIdempotent(rootserver: string)
    ensures NormalizeRoot(NormalizeRoot(rootserver)) == NormalizeRoot(rootserver)
            <==> CountChar(NormalizeRoot(rootserver), ':') == 2
  {
    NormalizeRootSpec(rootserver);
    var r := NormalizeRoot(rootserver);
    assert |r + DefaultPort| != |r|;
  }

  /** Every resolved URL starts with the root; the path comes back
      unchanged exactly when it already starts with the root. */
  lemma UrlSpec(root: string, path: string)
    ensures StartsWith(Url(root, path), root)
    ensures Url(root, path) == path <==> StartsWith(path, root)
    ensures !StartsWith(path, root) ==> Url(root, path) == root + "/api/" + path
  {
    var long := root + "/api/" + path;
    assert long[..|root|] == root;
    assert |long| != |path|;
  }

  /** Resolving a resolved URL gives it back. */
  lemma UrlIdempotent(root: string, path: string)
    ensures Url(root, Url(root, path)) == Url(root, path)
  {
    UrlSpec(root, path);
  }
}
