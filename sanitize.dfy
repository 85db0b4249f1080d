/** `sanitize_txt` (src/besapi/besapi.py:44-60): text made safe for use
    as a file or directory name. `/` and `\` become `-`, a space becomes
    `_`, and then only letters, digits and `-_.() ` are kept. */
module Sanitize {

  import opened Strings

  /** `c in valid_chars`, where valid_chars is `-_.() ` and the ASCII
      letters and digits. */
  predicate ValidChar(c: char) {
    c == '-' || c == '_' || c == '.' || c == '(' || c == ')' || c == ' '
    || ('a' <= c <= 'z') || ('A' <= c <= 'Z') || ('0' <= c <= '9')
  }

  /** A character sanitising can produce: valid and not a space. */
  predicate SafeChar(c: char) {
    ValidChar(c) && c != ' '
  }

  /** `"".join(c for c in s if c in valid_chars)` */
  function KeepValid(s: string): (r: string)
    ensures |r| <= |s|
  {
    if s == [] then []
    else (if ValidChar(s[0]) then [s[0]] else []) + KeepValid(s[1..])
  }

  /** One argument: the three replacements, then the filter. The final
      ASCII encode/decode of the source drops nothing, as every kept
      character is ASCII. */
  function SanitizeOne(s: string): (r: string)
    ensures |r| <= |s|
  {
    KeepValid(ReplaceChar(ReplaceChar(ReplaceChar(s, '/', '-'), '\\', '-'), ' ', '_'))
  }

  /** `sanitize_txt(*args)`: one sanitised string per argument, in order. */
  method SanitizeTxt(args: seq<string>) returns (r: seq<string>)
    ensures |r| == |args|
    ensures forall i :: 0 <= i < |args| ==> r[i] == SanitizeOne(args[i])
  {
    r := [];
    for i := 0 to |args|
      invariant |r| == i
      invariant forall j :: 0 <= j < i ==> r[j] == SanitizeOne(args[j])
    {
      r := r + [SanitizeOne(args[i])];
    }
  }

  lemma {:induction false} KeepValidChars(s: string)
    ensures forall i :: 0 <= i < |KeepValid(s)| ==> ValidChar(KeepValid(s)[i]) && KeepValid(s)[i] in s
  {
    if s != [] {
      KeepValidChars(s[1..]);
      var h := if ValidChar(s[0]) then [s[0]] else [];
      var t := KeepValid(s[1..]);
      assert KeepValid(s) == h + t;
      forall i | 0 <= i < |h + t| ensures ValidChar((h + t)[i]) && (h + t)[i] in s {
        if i >= |h| {
          assert (h + t)[i] == t[i - |h|];
          assert t[i - |h|] in s[1..];
        }
      }
    }
  }

  lemma {:induction false} KeepValidIdentity(s: string)
    requires forall i :: 0 <= i < |s| ==> ValidChar(s[i])
    ensures KeepValid(s) == s
  {
    if s != [] {
      KeepValidIdentity(s[1..]);
      assert [s[0]] + s[1..] == s;
    }
  }

  /** Every character of a sanitised string is safe: in particular it
      holds no space, no `/` and no `\`. */
  lemma SanitizeSafe(s: string)
    ensures forall i :: 0 <= i < |SanitizeOne(s)| ==> SafeChar(SanitizeOne(s)[i])
  {
    var t := ReplaceChar(ReplaceChar(ReplaceChar(s, '/', '-'), '\\', '-'), ' ', '_');
    KeepValidChars(t);
    assert forall c :: c in t ==> c != ' ' && c != '/' && c != '\\';
  }

  /** A string is left unchanged exactly when all its characters are safe. */
  lemma SanitizeFixedPoint(s: string)
    ensures SanitizeOne(s) == s <==> forall i :: 0 <= i < |s| ==> SafeChar(s[i])
  {
    SanitizeSafe(s);
    if forall i :: 0 <= i < |s| ==> SafeChar(s[i]) {
      assert ReplaceChar(s, '/', '-') == s;
      assert ReplaceChar(s, '\\', '-') == s;
      assert ReplaceChar(s, ' ', '_') == s;
      KeepValidIdentity(s);
    }
  }

  /** Sanitising twice is sanitising once. */
  lemma SanitizeIdempotent(s: string)
    ensures SanitizeOne(SanitizeOne(s)) == SanitizeOne(s)
  {
    SanitizeSafe(s);
    SanitizeFixedPoint(SanitizeOne(s));
  }
}
