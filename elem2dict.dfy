/** `elem2dict` (src/besapi/besapi.py:63-88): an element tree becomes a
    nested dictionary keyed by local tag name. A child with non-blank text
    maps to that text, any other child to its own dictionary; a key met a
    second time turns its value into the list `[first, second]` and later
    occurrences are appended. The second occurrence calls `.copy()` on the
    first value, which a text value does not have, so a repeated text leaf
    raises. */
module Elem2Dict {

  import opened Base
  import opened Strings
  import opened Xml

  /** The value one child contributes. */
  function ChildValue(e: Element): (r: Outcome<DValue>)
    ensures r.Ok? ==> !r.value.DList?
    decreases e, 1
  {
    if e.text.Some? && !IsBlank(e.text.value) then Ok(DText(e.text.value))
    else
      match Convert(e, |e.children|)
      case Raised(x) => Raised(x)
      case Ok(m) => Ok(DDict(m))
  }

  /** Storing `value` under `key` in the dictionary built so far. */
  function Insert(acc: map<string, DValue>, key: string, value: DValue): Outcome<map<string, DValue>>
  {
    if key !in acc then Ok(acc[key := value])
    else
      match acc[key]
      case DList(items) => Ok(acc[key := DList(items + [value])])
      case DText(_) => Raised(NoCopyOnText(key))
      case DDict(m) => Ok(acc[key := DList([DDict(m), value])])
  }

  /** The dictionary after the first `n` children, in document order. */
  function Convert(node: Element, n: nat): Outcome<map<string, DValue>>
    requires n <= |node.children|
    decreases node, 0, n
  {
    if n == 0 then Ok(map[])
    else
      match Convert(node, n - 1)
      case Raised(x) => Raised(x)
      case Ok(acc) =>
        var child := node.children[n - 1];
        match ChildValue(child)
        case Raised(x) => Raised(x)
        case Ok(v) => Insert(acc, LocalName(child.tag), v)
  }

  function Elem2Dict(node: Element): Outcome<map<string, DValue>>
  {
    Convert(node, |node.children|)
  }

  /** The loop of the source, one child at a time. */
  method Elem2DictLoop(node: Element) returns (r: Outcome<map<string, DValue>>)
    ensures r == Convert(node, |node.children|)
    decreases node, 1
  {
    var result: map<string, DValue> := map[];
    var i := 0;
    while i < |node.children|
      invariant 0 <= i <= |node.children|
      invariant Convert(node, i) == Ok(result)
    {
      var next := Step(node, i, result);
      if next.Raised? {
        RaisedPersists(node, i + 1);
        return next;
      }
      result := next.value;
      i := i + 1;
    }
    return Ok(result);
  }

  /** One pass of the loop body: the child's key and value, stored into
      the dictionary built so far. */
  method Step(node: Element, i: nat, result: map<string, DValue>) returns (r: Outcome<map<string, DValue>>)
    requires i < |node.children| && Convert(node, i) == Ok(result)
    ensures r == Convert(node, i + 1)
    decreases node, 0
  {
    var element := node.children[i];
    ConvertNext(node, i, result);
    var value := ValueOf(element);
    if value.Raised? {
      return Raised(value.error);
    }
    r := Store(result, LocalName(element.tag), value.value);
  }

  /** The text of a child with non-blank text, otherwise its own
      dictionary, converted by the same loop. */
  method ValueOf(element: Element) returns (r: Outcome<DValue>)
    ensures r == ChildValue(element)
    decreases element, 2
  {
    if element.text.Some? && !IsBlank(element.text.value) {
      return Ok(DText(element.text.value));
    }
    var sub := Elem2DictLoop(element);
    if sub.Raised? {
      return Raised(sub.error);
    }
    return Ok(DDict(sub.value));
  }

  /** One step of the conversion, unfolded. */
  lemma ConvertNext(node: Element, i: nat, acc: map<string, DValue>)
    requires i < |node.children| && Convert(node, i) == Ok(acc)
    ensures var child := node.children[i];
      Convert(node, i + 1) == match ChildValue(child)
                              case Raised(x) => Raised(x)
                              case Ok(v) => Insert(acc, LocalName(child.tag), v)
  {
  }

  /** The body of the source's `if key in result` statement. */
  method Store(result: map<string, DValue>, key: string, value: DValue) returns (r: Outcome<map<string, DValue>>)
    ensures r == Insert(result, key, value)
  {
    if key in result {
      match result[key]
      case DList(items) =>
        return Ok(result[key := DList(items + [value])]);
      case DText(_) =>
        return Raised(NoCopyOnText(key));
      case DDict(m) =>
        return Ok(result[key := DList([DDict(m), value])]);
    }
    return Ok(result[key := value]);
  }

  /** Once raised, the exception is what the whole conversion raises. */
  lemma {:induction false} RaisedPersists(node: Element, n: nat)
    requires n <= |node.children| && Convert(node, n).Raised?
    ensures Convert(node, |node.children|) == Convert(node, n)
    decreases |node.children| - n
  {
    if n < |node.children| {
      RaisedPersists(node, n + 1);
    }
  }

  // ---- an independent description: the (key, value) pairs of the children

  /** The (local name, value) pair of each of the first `n` children, or
      the first exception a child's value raises. */
  function Pairs(node: Element, n: nat): Outcome<seq<(string, DValue)>>
    requires n <= |node.children|
  {
    if n == 0 then Ok([])
    else
      match Pairs(node, n - 1)
      case Raised(x) => Raised(x)
      case Ok(ps) =>
        var child := node.children[n - 1];
        match ChildValue(child)
        case Raised(x) => Raised(x)
        case Ok(v) => Ok(ps + [(LocalName(child.tag), v)])
  }

  /** The values stored under `key`, in document order. */
  function ValuesOf(ps: seq<(string, DValue)>, key: string): seq<DValue>
  {
    if ps == [] then []
    else ValuesOf(ps[..|ps| - 1], key) + (if ps[|ps| - 1].0 == key then [ps[|ps| - 1].1] else [])
  }

  function KeysOf(ps: seq<(string, DValue)>): set<string>
  {
    if ps == [] then {} else KeysOf(ps[..|ps| - 1]) + {ps[|ps| - 1].0}
  }

  /** One occurrence stands alone; several form a list. */
  function Collect(vs: seq<DValue>): DValue
    requires vs != []
  {
    if |vs| == 1 then vs[0] else DList(vs)
  }

  /** `key` occurs at least twice and its first value is text. */
  predicate TextRepeated(ps: seq<(string, DValue)>, key: string) {
    |ValuesOf(ps, key)| >= 2 && ValuesOf(ps, key)[0].DText?
  }

  /** `m` holds every key of `ps`, each with its collected values. */
  ghost predicate Represents(m: map<string, DValue>, ps: seq<(string, DValue)>) {
    m.Keys == KeysOf(ps)
    && forall k :: k in m ==> ValuesOf(ps, k) != [] && m[k] == Collect(ValuesOf(ps, k))
  }

  lemma ValuesOfSnoc(ps: seq<(string, DValue)>, p: (string, DValue), key: string)
    ensures ValuesOf(ps + [p], key) == ValuesOf(ps, key) + (if p.0 == key then [p.1] else [])
    ensures KeysOf(ps + [p]) == KeysOf(ps) + {p.0}
  {
    assert (ps + [p])[..|ps|] == ps;
  }

  lemma {:induction false} KeysOfValues(ps: seq<(string, DValue)>, key: string)
    ensures key in KeysOf(ps) <==> ValuesOf(ps, key) != []
  {
    if ps != [] {
      KeysOfValues(ps[..|ps| - 1], key);
    }
  }

  lemma {:induction false} ValuesNotList(ps: seq<(string, DValue)>, key: string)
    requires forall i :: 0 <= i < |ps| ==> !ps[i].1.DList?
    ensures forall j :: 0 <= j < |ValuesOf(ps, key)| ==> !ValuesOf(ps, key)[j].DList?
  {
    if ps != [] {
      ValuesNotList(ps[..|ps| - 1], key);
    }
  }

  /** The pairs are exactly the children's local names and values, in order. */
  lemma {:induction false} PairsOfChildren(node: Element, n: nat)
    requires n <= |node.children|
    ensures Pairs(node, n).Ok? <==> forall i :: 0 <= i < n ==> ChildValue(node.children[i]).Ok?
    ensures Pairs(node, n).Ok? ==>
      |Pairs(node, n).value| == n
      && forall i :: 0 <= i < n ==>
           Pairs(node, n).value[i] == (LocalName(node.children[i].tag), ChildValue(node.children[i]).value)
  {
    if n > 0 {
      PairsOfChildren(node, n - 1);
    }
  }

  /** What holds of every step below. */
  ghost predicate StepReady(acc: map<string, DValue>, ps: seq<(string, DValue)>, key: string, v: DValue) {
    && Represents(acc, ps)
    && (forall k :: !TextRepeated(ps, k))
    && (forall k :: ValuesOf(ps + [(key, v)], k) == ValuesOf(ps, k) + (if k == key then [v] else []))
    && KeysOf(ps + [(key, v)]) == KeysOf(ps) + {key}
    && (key in KeysOf(ps) <==> ValuesOf(ps, key) != [])
    && (forall j :: 0 <= j < |ValuesOf(ps, key)| ==> !ValuesOf(ps, key)[j].DList?)
  }

  /** A key met for the first time is stored as it is. */
  lemma InsertFirst(acc: map<string, DValue>, ps: seq<(string, DValue)>, key: string, v: DValue)
    requires StepReady(acc, ps, key, v) && key !in acc
    ensures Insert(acc, key, v).Ok? && Represents(Insert(acc, key, v).value, ps + [(key, v)])
    ensures forall k :: !TextRepeated(ps + [(key, v)], k)
  {
    var ps' := ps + [(key, v)];
    var m := acc[key := v];
    forall k | k in m ensures ValuesOf(ps', k) != [] && m[k] == Collect(ValuesOf(ps', k)) {
      if k != key { assert m[k] == acc[k]; }
    }
    forall k ensures !TextRepeated(ps', k) {
      if k != key { assert !TextRepeated(ps, k); }
    }
  }

  /** The second occurrence of a key: a dictionary becomes a two-element
      list, a text value raises. */
  lemma InsertSecond(acc: map<string, DValue>, ps: seq<(string, DValue)>, key: string, v: DValue)
    requires StepReady(acc, ps, key, v) && key in acc && |ValuesOf(ps, key)| == 1
    ensures Insert(acc, key, v).Ok? <==> forall k :: !TextRepeated(ps + [(key, v)], k)
    ensures Insert(acc, key, v).Ok? ==> Represents(Insert(acc, key, v).value, ps + [(key, v)])
  {
    var ps' := ps + [(key, v)];
    var first := ValuesOf(ps, key)[0];
    assert acc[key] == first;
    if first.DText? {
      assert TextRepeated(ps', key);
    } else {
      var m := acc[key := DList([first, v])];
      assert ValuesOf(ps', key) == [first, v];
      forall k | k in m ensures ValuesOf(ps', k) != [] && m[k] == Collect(ValuesOf(ps', k)) {
        if k != key { assert m[k] == acc[k]; }
      }
      forall k ensures !TextRepeated(ps', k) {
        if k != key { assert !TextRepeated(ps, k); }
      }
    }
  }

  /** A third or later occurrence is appended to the list. */
  lemma InsertLater(acc: map<string, DValue>, ps: seq<(string, DValue)>, key: string, v: DValue)
    requires StepReady(acc, ps, key, v) && key in acc && |ValuesOf(ps, key)| >= 2
    ensures Insert(acc, key, v).Ok? && Represents(Insert(acc, key, v).value, ps + [(key, v)])
    ensures forall k :: !TextRepeated(ps + [(key, v)], k)
  {
    var ps' := ps + [(key, v)];
    var vs := ValuesOf(ps, key);
    assert acc[key] == DList(vs);
    var m := acc[key := DList(vs + [v])];
    forall k | k in m ensures ValuesOf(ps', k) != [] && m[k] == Collect(ValuesOf(ps', k)) {
      if k != key { assert m[k] == acc[k]; }
    }
    forall k ensures !TextRepeated(ps', k) {
      assert !TextRepeated(ps, k);
    }
  }

  /** One step of the conversion keeps the two descriptions in agreement. */
  lemma InsertStep(acc: map<string, DValue>, ps: seq<(string, DValue)>, key: string, v: DValue)
    requires Represents(acc, ps) && forall k :: !TextRepeated(ps, k)
    requires forall i :: 0 <= i < |ps| ==> !ps[i].1.DList?
    ensures Insert(acc, key, v).Ok? <==> forall k :: !TextRepeated(ps + [(key, v)], k)
    ensures Insert(acc, key, v).Ok? ==> Represents(Insert(acc, key, v).value, ps + [(key, v)])
  {
    forall k ensures ValuesOf(ps + [(key, v)], k) == ValuesOf(ps, k) + (if k == key then [v] else []) {
      ValuesOfSnoc(ps, (key, v), k);
    }
    ValuesOfSnoc(ps, (key, v), key);
    KeysOfValues(ps, key);
    ValuesNotList(ps, key);
    assert StepReady(acc, ps, key, v);
    if key !in acc {
      InsertFirst(acc, ps, key, v);
    } else if |ValuesOf(ps, key)| == 1 {
      InsertSecond(acc, ps, key, v);
    } else {
      InsertLater(acc, ps, key, v);
    }
  }

  /** The conversion of the first `n` children succeeds exactly when every
      child value converts and no key repeats after a text first value; it
      then holds each key with its collected values. */
  lemma {:induction false} ConvertCharacterized(node: Element, n: nat)
    requires n <= |node.children|
    ensures Convert(node, n).Ok? <==>
      Pairs(node, n).Ok? && forall k :: !TextRepeated(Pairs(node, n).value, k)
    ensures Convert(node, n).Ok? ==> Represents(Convert(node, n).value, Pairs(node, n).value)
    ensures Pairs(node, n).Ok? ==> forall i :: 0 <= i < |Pairs(node, n).value| ==> !Pairs(node, n).value[i].1.DList?
  {
    if n > 0 {
      ConvertCharacterized(node, n - 1);
      var child := node.children[n - 1];
      var key := LocalName(child.tag);
      match Pairs(node, n - 1)
      case Raised(_) =>
      case Ok(ps) =>
        match ChildValue(child)
        case Raised(_) =>
        case Ok(v) =>
          var ps' := ps + [(key, v)];
          assert Pairs(node, n) == Ok(ps');
          forall k ensures ValuesOf(ps', k) == ValuesOf(ps, k) + (if k == key then [v] else []) {
            ValuesOfSnoc(ps, (key, v), k);
          }
          match Convert(node, n - 1)
          case Raised(_) =>
            var k :| TextRepeated(ps, k);
            assert TextRepeated(ps', k);
          case Ok(acc) =>
            InsertStep(acc, ps, key, v);
    }
  }

  /** The whole contract of `elem2dict`. */
  lemma Elem2DictCharacterized(node: Element)
    ensures Elem2Dict(node).Ok? <==>
      Pairs(node, |node.children|).Ok? && forall k :: !TextRepeated(Pairs(node, |node.children|).value, k)
    ensures Elem2Dict(node).Ok? ==>
      Represents(Elem2Dict(node).value, Pairs(node, |node.children|).value)
  {
    ConvertCharacterized(node, |node.children|);
  }

  /** Two children with the same tag and non-blank text make the
      conversion raise. */
  lemma RepeatedTextLeafRaises(tag: string, a: string, b: string)
    requires !IsBlank(a) && !IsBlank(b)
    ensures Elem2Dict(Element("r", map[], None,
              [Element(tag, map[], Some(a), []), Element(tag, map[], Some(b), [])]))
            == Raised(NoCopyOnText(LocalName(tag)))
  {
    var first, second := Element(tag, map[], Some(a), []), Element(tag, map[], Some(b), []);
    var node := Element("r", map[], None, [first, second]);
    var key := LocalName(tag);
    assert ChildValue(first) == Ok(DText(a)) && ChildValue(second) == Ok(DText(b));
    assert Convert(node, 1) == Ok(map[key := DText(a)]);
    assert Convert(node, 2) == Insert(map[key := DText(a)], key, DText(b));
  }
}
