/** `str.splitlines(keepends=True)`. */
module PatchText {

  predicate IsBreak(c: char) {
    || c == '\n' || c == '\r' || c == '\U{0B}' || c == '\U{0C}' || '\U{1C}' <= c <= '\U{1E}'
    || c == '\U{85}' || c == '\U{2028}' || c == '\U{2029}'
  }

  /** The length of the first line of `s`, its ending included. */
  function FirstLine(s: string): (n: nat)
    requires s != ""
    ensures 0 < n <= |s|
  {
    if s[0] == '\r' && |s| > 1 && s[1] == '\n' then 2
    else if IsBreak(s[0]) || |s| == 1 then 1
    else 1 + FirstLine(s[1..])
  }

  function SplitLines(s: string): seq<string> {
    if s == "" then [] else [s[..FirstLine(s)]] + SplitLines(s[FirstLine(s)..])
  }

  function Join(lines: seq<string>): string {
    if lines == [] then "" else lines[0] + Join(lines[1..])
  }

  /** One line: not empty, and broken nowhere but at its end. */
  predicate IsLine(line: string) {
    line != "" && FirstLine(line) == |line|
  }

  predicate Terminated(line: string) {
    line != "" && IsBreak(line[|line|-1])
  }

  /** No line but the last may lack its ending. */
  predicate AllButLastTerminated(lines: seq<string>) {
    forall i :: 0 <= i < |lines| - 1 ==> Terminated(lines[i])
  }

  lemma {:induction false} FirstLineOf(line: string, rest: string)
    requires IsLine(line) && (rest == "" || (Terminated(line) && rest[0] != '\n'))
    ensures FirstLine(line + rest) == |line|
    decreases |line|
  {
    if rest == "" {
      assert line + rest == line;
    } else if |line| > 1 {
      assert (line + rest)[1..] == line[1..] + rest;
      if !(line[0] == '\r' && line[1] == '\n') {
        FirstLineOf(line[1..], rest);
      }
    }
  }

  lemma {:induction false} FirstLineEnds(s: string)
    requires s != ""
    ensures IsLine(s[..FirstLine(s)])
    ensures FirstLine(s) < |s| ==> Terminated(s[..FirstLine(s)])
    decreases |s|
  {
    var n := FirstLine(s);
    if n > 1 && !(s[0] == '\r' && s[1] == '\n') {
      FirstLineEnds(s[1..]);
      assert s[..n][1..] == s[1..][..n-1];
    }
  }

  lemma {:induction false} SplitLinesEnd(s: string)
    ensures AllButLastTerminated(SplitLines(s))
    ensures forall line :: line in SplitLines(s) ==> IsLine(line)
    decreases |s|
  {
    if s != "" {
      FirstLineEnds(s);
      SplitLinesEnd(s[FirstLine(s)..]);
    }
  }

  /** The characters that end a line, by their code points. */
  lemma BreaksAre(c: char)
    ensures IsBreak(c) <==> c as int in {10, 11, 12, 13, 28, 29, 30, 0x85, 0x2028, 0x2029}
  {
  }

  /** A carriage return and the line feed after it end a line together; any other break ends one alone. */
  ghost predicate BreaksOnlyAtEnd(line: string) {
    line != "" &&
    forall i :: 0 <= i < |line| - 1 && IsBreak(line[i]) ==> i == |line| - 2 && line[i] == '\r' && line[i+1] == '\n'
  }

  /** Line `i` ends where the next one starts: at a break, and not between the two parts of one. */
  ghost predicate EndsProperly(lines: seq<string>, i: int) {
    0 <= i < |lines| - 1 && Terminated(lines[i])
    && !(lines[i][|lines[i]|-1] == '\r' && lines[i+1] != "" && lines[i+1][0] == '\n')
  }

  lemma {:induction false} FirstLineLaw(s: string)
    requires s != ""
    ensures var n := FirstLine(s);
      && BreaksOnlyAtEnd(s[..n])
      && (n < |s| ==> Terminated(s[..n]) && !(s[n-1] == '\r' && s[n] == '\n'))
    decreases |s|
  {
    var n := FirstLine(s);
    if !(s[0] == '\r' && |s| > 1 && s[1] == '\n') && !IsBreak(s[0]) && |s| > 1 {
      FirstLineLaw(s[1..]);
      var rest := s[1..][..n-1];
      assert s[..n] == [s[0]] + rest;
      assert forall i :: 0 < i < n ==> s[..n][i] == rest[i-1];
    }
  }

  /** `splitlines` loses nothing, and cuts after every break and nowhere else. */
  lemma {:induction false} SplitLinesLaw(s: string)
    ensures Join(SplitLines(s)) == s
    ensures forall line :: line in SplitLines(s) ==> BreaksOnlyAtEnd(line)
    ensures forall i :: 0 <= i < |SplitLines(s)| - 1 ==> EndsProperly(SplitLines(s), i)
    decreases |s|
  {
    hide FirstLine, BreaksOnlyAtEnd, IsBreak;
    if s != "" {
      var n := FirstLine(s);
      FirstLineLaw(s);
      SplitLinesLaw(s[n..]);
      var lines, rest := SplitLines(s), SplitLines(s[n..]);
      assert lines == [s[..n]] + rest && lines[1..] == rest;
      if rest != [] {
        assert Join(rest) == rest[0] + Join(rest[1..]) && s[n..] != "";
        assert rest[0] != "" ==> rest[0][0] == s[n];
      }
      forall i | 0 <= i < |lines| - 1 ensures EndsProperly(lines, i) {
        if i > 0 { assert EndsProperly(rest, i - 1); }
      }
    }
  }

  /** Splitting undoes joining exactly if no line but the last lacks its ending. */
  lemma {:induction false} SplitJoinIff(lines: seq<string>)
    requires forall line :: line in lines ==> IsLine(line) && line[0] != '\n'
    ensures SplitLines(Join(lines)) == lines <==> AllButLastTerminated(lines)
  {
    if AllButLastTerminated(lines) { SplitJoin(lines); }
    SplitLinesEnd(Join(lines));
  }

  lemma {:induction false} SplitJoin(lines: seq<string>)
    requires forall line :: line in lines ==> IsLine(line) && line[0] != '\n'
    requires AllButLastTerminated(lines)
    ensures SplitLines(Join(lines)) == lines
  {
    hide FirstLine, IsBreak;
    if lines != [] {
      var first, rest := lines[0], lines[1..];
      assert AllButLastTerminated(rest) && forall line :: line in rest ==> line in lines;
      SplitJoin(rest);
      if rest == [] {
        assert Join(rest) == "";
      } else {
        assert rest[0] in lines && Join(rest)[0] == rest[0][0];
      }
      FirstLineOf(first, Join(rest));
      assert Join(lines)[|first|..] == Join(rest);
    }
  }
}
