/** SQL `LIKE ... ESCAPE '\'`, and the patterns that make it a prefix or a substring test. */
module SqlLike {

  const ESCAPE := '\\'

  /** Lower the ASCII letters only. */
  function FoldChar(c: char): char {
    if 'A' <= c <= 'Z' then (c as int + 32) as char else c
  }

  /** `_fold`. */
  function Fold(s: string): (r: string)
    ensures |r| == |s| && forall i :: 0 <= i < |s| ==> r[i] == FoldChar(s[i])
  {
    seq(|s|, i requires 0 <= i < |s| => FoldChar(s[i]))
  }

  /** Whether SQLite's `text LIKE pattern ESCAPE '\'` holds. A pattern that ends in the escape
      character matches nothing. */
  predicate Like(pattern: string, text: string)
    decreases |pattern| + |text|
  {
    if pattern == "" then text == ""
    else if pattern[0] == '%' then
      Like(pattern[1..], text) || (text != "" && Like(pattern, text[1..]))
    else if pattern[0] == '_' then
      text != "" && Like(pattern[1..], text[1..])
    else if pattern[0] == ESCAPE then
      |pattern| > 1 && text != "" && FoldChar(pattern[1]) == FoldChar(text[0]) && Like(pattern[2..], text[1..])
    else
      text != "" && FoldChar(pattern[0]) == FoldChar(text[0]) && Like(pattern[1..], text[1..])
  }

  /** `str.replace` of one character. */
  function Replace(s: string, c: char, replacement: string): string {
    if s == "" then "" else (if s[0] == c then replacement else [s[0]]) + Replace(s[1..], c, replacement)
  }

  /** `escape_like`: three replacements, the escape character first. */
  function EscapeLike(text: string): string {
    Replace(Replace(Replace(text, ESCAPE, "\\\\"), '%', "\\%"), '_', "\\_")
  }

  lemma {:induction false} ReplaceConcat(a: string, b: string, c: char, replacement: string)
    ensures Replace(a + b, c, replacement) == Replace(a, c, replacement) + Replace(b, c, replacement)
  {
    if a == "" {
      assert a + b == b;
    } else {
      assert (a + b)[1..] == a[1..] + b;
      ReplaceConcat(a[1..], b, c, replacement);
    }
  }

  lemma ReplaceOne(x: char, c: char, replacement: string)
    ensures Replace([x], c, replacement) == if x == c then replacement else [x]
  {
    assert [x][1..] == "";
  }

  predicate IsSpecial(c: char) {
    c == ESCAPE || c == '%' || c == '_'
  }

  /** One character after the other, the special ones behind an escape character. */
  lemma EscapeLikeCons(text: string)
    requires text != ""
    ensures EscapeLike(text) ==
      (if IsSpecial(text[0]) then [ESCAPE, text[0]] else [text[0]]) + EscapeLike(text[1..])
  {
    var c, rest := text[0], text[1..];
    assert text == [c] + rest;
    var a := Replace([c], ESCAPE, "\\\\");
    var b := Replace(a, '%', "\\%");
    ReplaceConcat([c], rest, ESCAPE, "\\\\");
    ReplaceConcat(a, Replace(rest, ESCAPE, "\\\\"), '%', "\\%");
    ReplaceConcat(b, Replace(Replace(rest, ESCAPE, "\\\\"), '%', "\\%"), '_', "\\_");
    EscapeOne(c);
  }

  lemma EscapeOne(c: char)
    ensures EscapeLike([c]) == if IsSpecial(c) then [ESCAPE, c] else [c]
  {
    ReplaceOne(c, ESCAPE, "\\\\");
    ReplaceOne(c, '%', "\\%");
    ReplaceOne(c, '_', "\\_");
    ReplaceTwo(ESCAPE, ESCAPE, '%', "\\%");
    ReplaceTwo(ESCAPE, ESCAPE, '_', "\\_");
    ReplaceTwo(ESCAPE, '%', '_', "\\_");
    assert "\\\\" == [ESCAPE, ESCAPE] && "\\%" == [ESCAPE, '%'] && "\\_" == [ESCAPE, '_'];
  }

  lemma ReplaceTwo(x: char, y: char, c: char, replacement: string)
    requires x != c && y != c
    ensures Replace([x, y], c, replacement) == [x, y]
  {
    assert [x, y][1..] == [y];
    ReplaceOne(y, c, replacement);
  }

  /** An escaped text matches itself, letter case aside, and nothing else. */
  lemma {:induction false} LikeEscaped(t: string, pattern: string, text: string)
    ensures Like(EscapeLike(t) + pattern, text) <==>
      |t| <= |text| && Fold(t) == Fold(text)[..|t|] && Like(pattern, text[|t|..])
    decreases |t|
  {
    if t == "" {
      assert EscapeLike(t) + pattern == pattern && text[0..] == text;
    } else {
      EscapeLikeCons(t);
      var rest := EscapeLike(t[1..]) + pattern;
      LikeHead(t[0], rest, text);
      assert EscapeLike(t) + pattern == (if IsSpecial(t[0]) then [ESCAPE, t[0]] else [t[0]]) + rest;
      if text != "" {
        LikeEscaped(t[1..], pattern, text[1..]);
        FoldSplit(t, text);
        assert |t| <= |text| ==> text[1..][|t[1..]|..] == text[|t|..];
      }
    }
  }

  lemma LikeHead(c: char, rest: string, text: string)
    ensures Like((if IsSpecial(c) then [ESCAPE, c] else [c]) + rest, text)
      <==> text != "" && FoldChar(c) == FoldChar(text[0]) && Like(rest, text[1..])
  {
    var p := (if IsSpecial(c) then [ESCAPE, c] else [c]) + rest;
    if IsSpecial(c) { assert p[2..] == rest; } else { assert p[1..] == rest; }
  }

  lemma FoldSplit(t: string, text: string)
    requires t != "" && text != ""
    ensures |t| <= |text| ==>
      (Fold(t) == Fold(text)[..|t|] <==>
        FoldChar(t[0]) == FoldChar(text[0]) && Fold(t[1..]) == Fold(text[1..])[..|t|-1])
  {
    if |t| <= |text| {
      var a, b := Fold(t), Fold(text)[..|t|];
      assert a == [a[0]] + a[1..] && b == [b[0]] + b[1..];
      assert a[1..] == Fold(t[1..]) && b[1..] == Fold(text[1..])[..|t|-1];
    }
  }

  lemma {:induction false} LikeAnything(text: string)
    ensures Like("%", text)
  {
    assert "%"[1..] == "";
    if text != "" { LikeAnything(text[1..]); }
  }

  /** `LIKE escape_like(p) || '%'` holds exactly if the folded text starts with the folded `p`. */
  lemma LikePrefix(p: string, text: string)
    ensures Like(EscapeLike(p) + "%", text) <==> Fold(p) <= Fold(text)
  {
    hide Like, EscapeLike;
    LikeEscaped(p, "%", text);
    if |p| <= |text| { LikeAnything(text[|p|..]); }
  }

  lemma {:induction false} LikeAnywhere(pattern: string, text: string)
    ensures Like("%" + pattern, text) <==> exists i :: 0 <= i <= |text| && Like(pattern, text[i..])
    decreases |text|
  {
    var p := "%" + pattern;
    assert p[1..] == pattern && text[0..] == text;
    if text != "" {
      LikeAnywhere(pattern, text[1..]);
      if i :| 0 <= i <= |text[1..]| && Like(pattern, text[1..][i..]) {
        assert text[1..][i..] == text[i+1..];
      }
      if i :| 1 <= i <= |text| && Like(pattern, text[i..]) {
        assert text[1..][i-1..] == text[i..];
      }
    }
  }

  /** `needle in haystack`. */
  predicate Contains(haystack: string, needle: string) {
    exists i :: 0 <= i <= |haystack| && needle <= haystack[i..]
  }

  /** `LIKE '%' || escape_like(t) || '%'` holds exactly if the folded text contains the folded `t`. */
  lemma LikeContains(t: string, text: string)
    ensures Like("%" + EscapeLike(t) + "%", text) <==> Contains(Fold(text), Fold(t))
  {
    hide Like, EscapeLike, Fold;
    var q := EscapeLike(t) + "%";
    assert "%" + EscapeLike(t) + "%" == "%" + q;
    LikeAnywhere(q, text);
    forall i | 0 <= i <= |text| ensures Like(q, text[i..]) <==> Fold(t) <= Fold(text)[i..] {
      LikePrefix(t, text[i..]);
      assert Fold(text[i..]) == Fold(text)[i..];
    }
  }
}
