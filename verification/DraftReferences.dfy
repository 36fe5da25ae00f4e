/** The arguments of a task, and the placeholders in them that name other tasks. */
module DraftReferences {
  import opened Text

  datatype Value =
    | Nothing
    | Words(text: string)
    | Mapping(items: map<string, Value>)
    | Listing(elements: seq<Value>)
    | Scalar(literal: string)

  /** `is_name`: not empty, no whitespace, none of `.`, `$`, `{`, `}`. */
  predicate IsName(s: string) {
    s != "" && forall i :: 0 <= i < |s| ==> !IsSpace(s[i]) && s[i] !in ".${}"
  }

  /** The placeholder for the result of a task. */
  function Reference(id: string): string {
    "$" + ("{tasks." + id + ".result}")
  }

  /** `str.replace`: from the left, without looking again at what was put in. */
  function Replaced(text: string, part: string, other: string): string
    requires part != ""
    decreases |text|
  {
    if text == "" then ""
    else if part <= text then other + Replaced(text[|part|..], part, other)
    else [text[0]] + Replaced(text[1..], part, other)
  }

  /** `_renamed_references`. */
  function RenamedReferences(v: Value, id: string, newId: string): Value {
    match v
    case Words(text) => Words(Replaced(text, Reference(id), Reference(newId)))
    case Mapping(items) => Mapping(map k | k in items :: RenamedReferences(items[k], id, newId))
    case Listing(elements) =>
      Listing(seq(|elements|, i requires 0 <= i < |elements| => RenamedReferences(elements[i], id, newId)))
    case _ => v
  }

  /** How often `part` occurs in the text. */
  function Count(text: string, part: string): nat {
    if text == "" then 0
    else (if part <= text then 1 else 0) + Count(text[1..], part)
  }

  /** Some text in the arguments refers to the task. */
  predicate Mentions(v: Value, id: string) {
    match v
    case Words(text) => Count(text, Reference(id)) > 0
    case Mapping(items) => exists k :: k in items && Mentions(items[k], id)
    case Listing(elements) => exists i :: 0 <= i < |elements| && Mentions(elements[i], id)
    case _ => false
  }

  // ---------------------------------------------------------------- references do not overlap

  predicate Plain(s: string) {
    forall i :: 0 <= i < |s| ==> s[i] != '$' && s[i] != '}'
  }

  predicate NoDollar(s: string) {
    forall i :: 0 <= i < |s| ==> s[i] != '$'
  }

  function Inner(id: string): string {
    "{tasks." + id + ".result"
  }

  lemma ReferenceParts(id: string)
    requires IsName(id)
    ensures Plain(Inner(id)) && Reference(id) == "$" + Inner(id) + "}"
  {
    assert Plain("{tasks.") && Plain(id) && Plain(".result");
    assert ".result}" == ".result" + "}";
    assert Reference(id) == "$" + Inner(id) + "}";
  }

  lemma ReferenceReads(id: string)
    ensures Reference(id) == "${tasks." + id + ".result}"
  {
    assert "${tasks." == "$" + "{tasks.";
  }

  /** A text cannot start with the references of two tasks. */
  lemma {:induction false} OneReference(m: string, n: string, rest: string)
    requires IsName(m) && IsName(n) && Reference(m) <= Reference(n) + rest
    ensures m == n
  {
    ReferenceParts(m);
    ReferenceParts(n);
    var a, b, t := Reference(m), Reference(n), Reference(n) + rest;
    assert t[|b|-1] == '}' && forall i :: 0 <= i < |a| ==> t[i] == a[i];
    assert a[|a|-1] == '}' && forall i :: 0 <= i < |b| ==> t[i] == b[i];
    assert a == b;
    assert m == a[8..|a|-8] && n == b[8..|b|-8];
  }

  /** No reference starts inside a stretch without a dollar sign. */
  lemma {:induction false} NoneInside(w: string, rest: string, part: string)
    requires NoDollar(w) && part != "" && part[0] == '$'
    ensures Count(w + rest, part) == Count(rest, part)
  {
    if w != "" {
      assert (w + rest)[0] == w[0] && (w + rest)[1..] == w[1..] + rest;
      NoneInside(w[1..], rest, part);
    } else {
      assert w + rest == rest;
    }
  }

  /** A reference in front adds itself and nothing else. */
  lemma {:induction false} CountFront(n: string, rest: string, m: string)
    requires IsName(n) && IsName(m)
    ensures Count(Reference(n) + rest, Reference(m)) == Count(rest, Reference(m)) + if m == n then 1 else 0
  {
    ReferenceParts(n);
    var text := Reference(n) + rest;
    assert text[1..] == Inner(n) + "}" + rest;
    NoneInside(Inner(n) + "}", rest, Reference(m));
    if Reference(m) <= text { OneReference(m, n, rest); }
    assert m == n ==> Reference(m) <= text;
  }

  /** A stretch without a dollar sign starts the text with its references renamed exactly if it starts the
      text. */
  lemma {:induction false} SameStart(w: string, text: string, id: string, newId: string)
    requires NoDollar(w)
    ensures w <= Replaced(text, Reference(id), Reference(newId)) <==> w <= text
    decreases |text|
  {
    var r := Replaced(text, Reference(id), Reference(newId));
    if w != "" && text != "" {
      if Reference(id) <= text {
        assert r[0] == '$' && text[0] == '$';
      } else {
        SameStart(w[1..], text[1..], id, newId);
        assert w == [w[0]] + w[1..] && text == [text[0]] + text[1..];
        StartsWith(w, r);
        StartsWith(w, text);
      }
    }
  }

  lemma StartsWith(w: string, text: string)
    requires w != "" && text != ""
    ensures w <= text <==> w[0] == text[0] && w[1..] <= text[1..]
  {
    if w[0] == text[0] && w[1..] <= text[1..] {
      assert text == [text[0]] + text[1..] && w == [w[0]] + w[1..];
      assert text[1..][..|w|-1] == w[1..];
      assert text[..|w|] == [text[0]] + text[1..][..|w|-1];
    }
    if w <= text {
      assert text[1..][..|w|-1] == w[1..];
    }
  }

  /** Where the text does not start with the reference renamed, it starts with the same reference as before. */
  lemma {:induction false} SameReference(text: string, id: string, newId: string, n: string)
    requires IsName(n) && text != "" && !(Reference(id) <= text)
    ensures Reference(n) <= Replaced(text, Reference(id), Reference(newId)) <==> Reference(n) <= text
  {
    ReferenceParts(n);
    var r := Replaced(text, Reference(id), Reference(newId));
    assert r[0] == text[0] && r[1..] == Replaced(text[1..], Reference(id), Reference(newId));
    assert Reference(n)[1..] == Inner(n) + "}";
    SameStart(Inner(n) + "}", text[1..], id, newId);
    StartsWith(Reference(n), r);
    StartsWith(Reference(n), text);
  }

  // ---------------------------------------------------------------- texts

  /** After renaming, the references to the old id are references to the new one, besides those that were
      there before; all others are what they were. */
  lemma {:induction false} CountsFollow(text: string, id: string, newId: string, n: string)
    requires IsName(id) && IsName(newId) && IsName(n) && newId != id
    ensures var r := Replaced(text, Reference(id), Reference(newId));
      Count(r, Reference(n)) ==
      if n == id then 0
      else if n == newId then Count(text, Reference(id)) + Count(text, Reference(newId))
      else Count(text, Reference(n))
    decreases |text|
  {
    if text != "" {
      if Reference(id) <= text {
        var rest := text[|Reference(id)|..];
        assert text == Reference(id) + rest;
        CountsFollow(rest, id, newId, n);
        CountFront(newId, Replaced(rest, Reference(id), Reference(newId)), n);
        CountFront(id, rest, n);
        CountFront(id, rest, id);
        CountFront(id, rest, newId);
      } else {
        var r := Replaced(text, Reference(id), Reference(newId));
        assert r[1..] == Replaced(text[1..], Reference(id), Reference(newId));
        CountsFollow(text[1..], id, newId, n);
        SameReference(text, id, newId, n);
      }
    }
  }

  /** Renaming a task back restores a text exactly if it did not already refer to the new id. */
  lemma {:induction false} TextBackIff(text: string, id: string, newId: string)
    requires IsName(id) && IsName(newId) && newId != id
    ensures var a, b := Reference(id), Reference(newId);
      Replaced(Replaced(text, a, b), b, a) == text <==> Count(text, b) == 0
    decreases |text|
  {
    var a, b := Reference(id), Reference(newId);
    if text != "" {
      var r := Replaced(text, a, b);
      if a <= text {
        var rest := text[|a|..];
        assert text == a + rest;
        TextBackIff(rest, id, newId);
        CountFront(id, rest, newId);
        var q := Replaced(rest, a, b);
        assert b <= r && r[|b|..] == q;
        assert Replaced(r, b, a) == a + Replaced(q, b, a);
        SameRest(a, Replaced(q, b, a), rest);
      } else {
        assert r[0] == text[0] && r[1..] == Replaced(text[1..], a, b);
        SameReference(text, id, newId, newId);
        if b <= text {
          assert a <= Replaced(r, b, a);
        } else {
          TextBackIff(text[1..], id, newId);
          assert Replaced(r, b, a) == [text[0]] + Replaced(r[1..], b, a);
          assert text == [text[0]] + text[1..];
          SameRest([text[0]], Replaced(r[1..], b, a), text[1..]);
        }
      }
    }
  }

  lemma SameRest(a: string, x: string, y: string)
    ensures a + x == a + y <==> x == y
  {
    if a + x == a + y { assert x == (a + x)[|a|..] && y == (a + y)[|a|..]; }
  }

  lemma {:induction false} NothingToReplace(text: string, part: string, other: string)
    requires part != "" && Count(text, part) == 0
    ensures Replaced(text, part, other) == text
  {
    if text != "" { NothingToReplace(text[1..], part, other); }
  }

  /** A reference to another task stays when `id` is renamed. */
  lemma OtherReferenceStays(n: string, id: string)
    requires IsName(n) && IsName(id) && n != id
    ensures RenamedReferences(Listing([Words(Reference(n))]), id, n) == Listing([Words(Reference(n))])
  {
    hide Count;
    CountFront(n, "", id);
    assert Reference(n) + "" == Reference(n);
    assert Count("", Reference(id)) == 0 by { NoneInNothing(Reference(id)); }
    NothingToReplace(Reference(n), Reference(id), Reference(n));
  }

  lemma NoneInNothing(part: string)
    ensures Count("", part) == 0
  {
  }

  lemma OwnReferenceFollows(id: string, newId: string)
    ensures RenamedReferences(Listing([Words(Reference(id))]), id, newId) == Listing([Words(Reference(newId))])
  {
    var a, b := Reference(id), Reference(newId);
    assert a <= a && a[|a|..] == "" && Replaced("", a, b) == "";
    assert Replaced(a, a, b) == b + "" == b;
    assert RenamedReferences(Words(a), id, newId) == Words(b);
  }

  // ---------------------------------------------------------------- arguments

  /** The arguments refer to the new id where they referred to the old one; a reference to the new id that
      was there before is taken over, and all others stay. */
  lemma {:induction false} ReferencesFollow(v: Value, id: string, newId: string, n: string)
    requires IsName(id) && IsName(newId) && IsName(n) && newId != id
    ensures Mentions(RenamedReferences(v, id, newId), n) <==>
      n != id && (Mentions(v, n) || (n == newId && Mentions(v, id)))
    decreases v
  {
    match v
    case Words(text) =>
      CountsFollow(text, id, newId, n);
    case Mapping(items) =>
      var r := RenamedReferences(v, id, newId);
      forall k | k in items
        ensures Mentions(r.items[k], n) <==>
          n != id && (Mentions(items[k], n) || (n == newId && Mentions(items[k], id)))
      {
        ReferencesFollow(items[k], id, newId, n);
      }
    case Listing(elements) =>
      var r := RenamedReferences(v, id, newId);
      forall i | 0 <= i < |elements|
        ensures Mentions(r.elements[i], n) <==>
          n != id && (Mentions(elements[i], n) || (n == newId && Mentions(elements[i], id)))
      {
        ReferencesFollow(elements[i], id, newId, n);
      }
    case _ =>
  }

  /** Renaming a task back restores arguments exactly if they did not already refer to the new id. */
  lemma {:induction false} ArgumentsBackIff(v: Value, id: string, newId: string)
    requires IsName(id) && IsName(newId) && newId != id
    ensures RenamedReferences(RenamedReferences(v, id, newId), newId, id) == v <==> !Mentions(v, newId)
    decreases v
  {
    var back := RenamedReferences(RenamedReferences(v, id, newId), newId, id);
    match v
    case Words(text) =>
      TextBackIff(text, id, newId);
    case Mapping(items) =>
      forall k | k in items ensures back.items[k] == items[k] <==> !Mentions(items[k], newId) {
        ArgumentsBackIff(items[k], id, newId);
      }
      assert back.items.Keys == items.Keys;
      assert !Mentions(v, newId) ==> back.items == items;
    case Listing(elements) =>
      forall i | 0 <= i < |elements| ensures back.elements[i] == elements[i] <==> !Mentions(elements[i], newId) {
        ArgumentsBackIff(elements[i], id, newId);
      }
      assert !Mentions(v, newId) ==> back.elements == elements;
    case _ =>
  }
}
