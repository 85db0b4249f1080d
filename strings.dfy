/** The few Python `str` operations the library relies on, with the
    meaning Python gives them. */
module Strings {

  import opened Base

  /** `s.startswith(p)` */
  predicate StartsWith(s: string, p: string) {
    |p| <= |s| && s[..|p|] == p
  }

  /** `p in s`: substring containment. */
  predicate Contains(s: string, p: string)
    decreases |s|
  {
    StartsWith(s, p) || (|s| > 0 && Contains(s[1..], p))
  }

  /** Position of the first occurrence of `p` in `s` (`s.index(p)`). */
  function IndexOf(s: string, p: string): (r: nat)
    requires Contains(s, p)
    ensures r + |p| <= |s| && s[r..r + |p|] == p
    ensures forall j :: 0 <= j < r ==> !StartsWith(s[j..], p)
    decreases |s|
  {
    if StartsWith(s, p) then 0
    else
      var k := IndexOf(s[1..], p);
      assert forall j :: 1 <= j <= |s| ==> s[1..][j - 1..] == s[j..];
      k + 1
  }

  /** Position of the first occurrence of the character `c` (`s.index(c)`). */
  function FindChar(s: string, c: char): (r: nat)
    requires c in s
    ensures r < |s| && s[r] == c
    ensures forall j :: 0 <= j < r ==> s[j] != c
  {
    if s[0] == c then 0 else 1 + FindChar(s[1..], c)
  }

  lemma {:induction false} ContainsAt(s: string, p: string, i: nat)
    requires i + |p| <= |s| && s[i..i + |p|] == p
    ensures Contains(s, p)
    decreases i
  {
    if i > 0 {
      assert s[1..][i - 1..i - 1 + |p|] == s[i..i + |p|];
      ContainsAt(s[1..], p, i - 1);
    }
  }

  /** A string starts with each of its prefixes. */
  lemma StartsWithAppend(p: string, t: string)
    ensures StartsWith(p + t, p)
  {
    assert (p + t)[..|p|] == p;
  }

  /** A prefix occurrence is an occurrence. */
  lemma StartsWithContains(s: string, p: string)
    requires StartsWith(s, p)
    ensures Contains(s, p)
  {
  }

  /** Text shorter than `p` cannot contain it. */
  lemma {:induction false} LongerNotContained(s: string, p: string)
    requires |s| < |p|
    ensures !Contains(s, p)
    decreases |s|
  {
    if |s| > 0 {
      LongerNotContained(s[1..], p);
    }
  }

  /** Number of occurrences of the character `c` (`s.count(c)`). */
  function CountChar(s: string, c: char): nat
  {
    if s == [] then 0 else (if s[0] == c then 1 else 0) + CountChar(s[1..], c)
  }

  lemma {:induction false} CountCharAppend(s: string, t: string, c: char)
    ensures CountChar(s + t, c) == CountChar(s, c) + CountChar(t, c)
  {
    if s != [] {
      assert (s + t)[1..] == s[1..] + t;
      CountCharAppend(s[1..], t, c);
    } else {
      assert s + t == t;
    }
  }

  lemma {:induction false} CountAbsent(s: string, c: char)
    requires c !in s
    ensures CountChar(s, c) == 0
  {
    if s != [] {
      CountAbsent(s[1..], c);
    }
  }

  /** `s.replace(a, b)` for a one-character pattern. */
  function ReplaceChar(s: string, a: char, b: char): (r: string)
    ensures |r| == |s|
    ensures forall i :: 0 <= i < |s| ==> r[i] == (if s[i] == a then b else s[i])
  {
    if s == [] then [] else [if s[0] == a then b else s[0]] + ReplaceChar(s[1..], a, b)
  }

  /** `s.replace(pat, rep)`: every non-overlapping occurrence, left to right. */
  function ReplaceAll(s: string, pat: string, rep: string): string
    requires pat != []
    decreases |s|
  {
    if s == [] then []
    else if StartsWith(s, pat) then rep + ReplaceAll(s[|pat|..], pat, rep)
    else [s[0]] + ReplaceAll(s[1..], pat, rep)
  }

  /** `c.isspace()` in Python 3: the characters `str.strip()` removes. */
  predicate IsSpace(c: char) {
    ('\t' <= c <= '\r') || ('\U{001c}' <= c <= ' ')
    || c == '\U{0085}' || c == '\U{00a0}' || c == '\U{1680}'
    || ('\U{2000}' <= c <= '\U{200a}') || c == '\U{2028}' || c == '\U{2029}'
    || c == '\U{202f}' || c == '\U{205f}' || c == '\U{3000}'
  }

  /** `s.strip() == ""` */
  predicate IsBlank(s: string) {
    forall i :: 0 <= i < |s| ==> IsSpace(s[i])
  }

  /** `sep.join(items)` */
  function Join(items: seq<string>, sep: string): string
  {
    if items == [] then []
    else if |items| == 1 then items[0]
    else items[0] + sep + Join(items[1..], sep)
  }

  /** `s.split(c)` for a one-character separator: the pieces between the
      occurrences of `c`, always at least one. */
  function Split(s: string, c: char): (r: seq<string>)
    ensures |r| >= 1
    decreases |s|
  {
    if c !in s then [s]
    else
      var k := FindChar(s, c);
      [s[..k]] + Split(s[k + 1..], c)
  }

  /** Splitting at a first separator right after `head`. */
  lemma SplitAt(head: string, rest: string, c: char)
    requires c !in head
    ensures Split(head + [c] + rest, c) == [head] + Split(rest, c)
  {
    var s := head + [c] + rest;
    assert s[|head|] == c;
    var k := FindChar(s, c);
    assert forall j :: 0 <= j < |head| ==> s[j] == head[j];
    assert k == |head|;
    assert s[..k] == head && s[k + 1..] == rest;
  }

  /** Joining pieces free of the separator and splitting again gives the
      pieces back. */
  lemma {:induction false} SplitJoin(items: seq<string>, c: char)
    requires |items| >= 1 && forall i :: 0 <= i < |items| ==> c !in items[i]
    ensures Split(Join(items, [c]), c) == items
    decreases |items|
  {
    if |items| == 1 {
      assert Join(items, [c]) == items[0];
    } else {
      assert Join(items, [c]) == items[0] + [c] + Join(items[1..], [c]);
      SplitAt(items[0], Join(items[1..], [c]), c);
      SplitJoin(items[1..], c);
      assert items == [items[0]] + items[1..];
    }
  }

  /** Python's slice `s[:n]`, where a negative `n` counts from the end. */
  function SliceTo(s: string, n: int): (r: string)
    ensures StartsWith(s, r)
    ensures n >= 0 ==> |r| == if n < |s| then n else |s|
  {
    if n >= 0 then (if n < |s| then s[..n] else s)
    else if |s| + n > 0 then s[..|s| + n] else []
  }

  /** `s.split(sep, 1)[1]`: what follows the first `sep`; `None` when the
      split yields one part and indexing it raises IndexError. */
  function AfterFirst(s: string, sep: string): (r: Option<string>)
    requires sep != []
    ensures r.None? <==> !Contains(s, sep)
    ensures r.Some? ==> exists pre :: s == pre + sep + r.value && !Contains(pre, sep)
  {
    if Contains(s, sep) then
      var k := IndexOf(s, sep);
      NotBeforeFirst(s, sep, k);
      assert s == s[..k] + sep + s[k + |sep|..];
      Some(s[k + |sep|..])
    else None
  }

  /** Text ending before the first occurrence of `p` does not contain it. */
  lemma {:induction false} NotBeforeFirst(s: string, p: string, k: nat)
    requires p != [] && k <= |s|
    requires forall j :: 0 <= j < k ==> !StartsWith(s[j..], p)
    ensures !Contains(s[..k], p)
    decreases k
  {
    if k > 0 {
      assert !StartsWith(s, p) by { assert s[0..] == s; }
      assert !StartsWith(s[..k], p);
      assert forall j :: 0 <= j < k - 1 ==> s[1..][j..] == s[j + 1..];
      NotBeforeFirst(s[1..], p, k - 1);
      assert s[..k][1..] == s[1..][..k - 1];
    }
  }
}
