/** Unified diffs as text: what the printer writes and what the parser makes of it.

    The format is that of POSIX.1-2017, utility `diff`, "Diff -u or -U Output Format".
 */
module UnifiedDiff {
  import opened Wrappers
  import opened Text

  datatype OpKind = Context | Delete | Add

  /** One line of a hunk. */
  datatype Op = Op(kind: OpKind, line: string)

  datatype Hunk = Hunk(start: nat, ops: seq<Op>)

  datatype PatchError =
    | MalformedHeader(header: string)
    | TooManyDigits
    | Mismatch(isContext: bool, line: nat)
    | IndexError

  // ---------------------------------------------------------------- scripts

  /** One stretch of an edit script: lines kept and not printed, then the lines of one hunk. */
  datatype Segment = Segment(gap: seq<string>, ops: seq<Op>)

  /** The lines that `ops` expects to find. */
  function OldLines(ops: seq<Op>): seq<string> {
    if ops == [] then []
    else (if ops[0].kind.Add? then [] else [ops[0].line]) + OldLines(ops[1..])
  }

  /** The lines that `ops` leaves. */
  function NewLines(ops: seq<Op>): seq<string> {
    if ops == [] then []
    else (if ops[0].kind.Delete? then [] else [ops[0].line]) + NewLines(ops[1..])
  }

  function Left(script: seq<Segment>, tail: seq<string>): seq<string> {
    if script == [] then tail
    else script[0].gap + OldLines(script[0].ops) + Left(script[1..], tail)
  }

  function Right(script: seq<Segment>, tail: seq<string>): seq<string> {
    if script == [] then tail
    else script[0].gap + NewLines(script[0].ops) + Right(script[1..], tail)
  }

  /** The hunks of a script whose first line is line `offset` (from 0) of the old text. */
  function HunksOf(script: seq<Segment>, offset: nat): seq<Hunk> {
    if script == [] then []
    else
      var start := offset + |script[0].gap|;
      [Hunk(start, script[0].ops)] + HunksOf(script[1..], start + |OldLines(script[0].ops)|)
  }

  // ---------------------------------------------------------------- printing

  /** The range of a hunk header: lines are numbered from 1, an empty range names the line before. */
  function Range(start: nat, length: nat): string {
    if length == 1 then Decimal(start + 1)
    else if length == 0 then Decimal(start) + ",0"
    else Decimal(start + 1) + "," + Decimal(length)
  }

  function Header(oldStart: nat, oldLength: nat, newStart: nat, newLength: nat): string {
    "@@ -" + Range(oldStart, oldLength) + " +" + Range(newStart, newLength) + " @@\n"
  }

  function Prefix(kind: OpKind): char {
    match kind
    case Context => ' '
    case Delete => '-'
    case Add => '+'
  }

  function OpLines(ops: seq<Op>): seq<string> {
    if ops == [] then [] else [[Prefix(ops[0].kind)] + ops[0].line] + OpLines(ops[1..])
  }

  function HunkLines(script: seq<Segment>, oldOffset: nat, newOffset: nat): seq<string> {
    if script == [] then []
    else
      var gap, ops := |script[0].gap|, script[0].ops;
      var oldLength, newLength := |OldLines(ops)|, |NewLines(ops)|;
      [Header(oldOffset + gap, oldLength, newOffset + gap, newLength)]
        + (OpLines(ops) + HunkLines(script[1..], oldOffset + gap + oldLength, newOffset + gap + newLength))
  }

  /** The lines of the patch; a script without hunks prints nothing, not even the file names. */
  function PatchLines(script: seq<Segment>, oldName: string, newName: string): seq<string> {
    if script == [] then []
    else ["--- " + oldName + "\n", "+++ " + newName + "\n"] + HunkLines(script, 0, 0)
  }

  // ---------------------------------------------------------------- hunk headers

  function Leading(s: string, digits: bool): (n: nat)
    ensures n <= |s| && forall i :: 0 <= i < n ==> if digits then IsDigit(s[i]) else IsSpace(s[i])
    ensures n < |s| ==> !if digits then IsDigit(s[n]) else IsSpace(s[n])
  {
    if s != "" && (if digits then IsDigit(s[0]) else IsSpace(s[0])) then 1 + Leading(s[1..], digits) else 0
  }

  function After(s: string, text: string): Option<string> {
    if text <= s then Some(s[|text|..]) else None
  }

  /** What is left of `s` after `\s+` and then `text`. */
  function SpaceThen(s: string, text: string): Option<string> {
    if Leading(s, false) > 0 then After(s[Leading(s, false)..], text) else None
  }

  /** The digits `s` begins with, and what is left of it after `\d+(?:,\d+)?`. */
  function NumberPart(s: string): (r: Option<(string, string)>)
    ensures r.Some? ==> AllDigits(r.value.0)
  {
    var n := Leading(s, true);
    if n == 0 then None
    else
      var rest := s[n..];
      var m := if rest != "" && rest[0] == ',' then Leading(rest[1..], true) else 0;
      Some((s[..n], if m > 0 then rest[1 + m..] else rest))
  }

  /** `_HUNK_HEADER`: the digits of the old start, if `line` has the form of a header. */
  function HeaderStart(line: string): (r: Option<string>)
    ensures r.Some? ==> AllDigits(r.value)
  {
    var a := After(line, "@@");
    var b := if a.Some? then SpaceThen(a.value, "-") else None;
    var c := if b.Some? then NumberPart(b.value) else None;
    var d := if c.Some? then SpaceThen(c.value.1, "+") else None;
    var e := if d.Some? then NumberPart(d.value) else None;
    var f := if e.Some? then SpaceThen(e.value.1, "@@") else None;
    if f.Some? then Some(c.value.0) else None
  }

  /** The most digits that `int` reads unless it is told otherwise. */
  const MAX_DIGITS := 4300

  /** `_parse_hunk_header`: line numbers are counted from 0. A number that `int` refuses is a `ValueError`. */
  function ParseHeader(line: string): Result<nat, PatchError> {
    var digits := HeaderStart(line);
    if digits.None? then Failure(MalformedHeader(line))
    else if |digits.value| > MAX_DIGITS then Failure(TooManyDigits)
    else
      var start := ParseDecimal(digits.value);
      Success(if start > 0 then start - 1 else 0)
  }

  /** The first `n + 1` lines have numbers that can be read back. */
  predicate Readable(n: nat) {
    |Decimal(n + 1)| <= MAX_DIGITS
  }

  lemma EarlierReadable(m: nat, n: nat)
    requires m <= n && Readable(n)
    ensures Readable(m) && |Decimal(m)| <= MAX_DIGITS
  {
    hide Decimal;
    FewerDigits(m + 1, n + 1);
    FewerDigits(m, n + 1);
  }

  lemma {:induction false} LeadingOf(a: string, b: string, digits: bool)
    requires forall i :: 0 <= i < |a| ==> if digits then IsDigit(a[i]) else IsSpace(a[i])
    requires b == "" || !if digits then IsDigit(b[0]) else IsSpace(b[0])
    ensures Leading(a + b, digits) == |a|
  {
    if a == "" {
      assert a + b == b;
    } else {
      LeadingOf(a[1..], b, digits);
      assert (a + b)[1..] == a[1..] + b;
    }
  }

  lemma SpaceThenOf(text: string, rest: string)
    requires text != "" && !IsSpace(text[0])
    ensures SpaceThen(" " + text + rest, text) == Some(rest)
  {
    var s := " " + text + rest;
    assert s == " " + (text + rest) && s[1..] == text + rest;
    assert text <= text + rest && (text + rest)[|text|..] == rest;
    LeadingOf(" ", text + rest, false);
  }

  // ---------------------------------------------------------------- what reads as a header

  ghost predicate IsWhite(w: string) {
    w != "" && forall i :: 0 <= i < |w| ==> IsSpace(w[i])
  }

  ghost predicate IsNumber(d: string) {
    d != "" && AllDigits(d)
  }

  /** Nothing, or a comma and a number. */
  ghost predicate IsLength(l: string) {
    l == "" || (l[0] == ',' && IsNumber(l[1..]))
  }

  /** The parts of a header, besides its marks and the digits of the old start. */
  datatype Parts = Parts(white1: string, length1: string, white2: string, number2: string, length2: string,
                         white3: string, rest: string)

  /** Two at signs, the old range, the new one and two at signs, with white space in between; then anything. */
  ghost predicate IsHeader(line: string, digits: string, p: Parts) {
    && IsWhite(p.white1) && IsWhite(p.white2) && IsWhite(p.white3)
    && IsNumber(digits) && IsNumber(p.number2) && IsLength(p.length1) && IsLength(p.length2)
    && line == "@@" + (p.white1 + ("-" + (digits + (p.length1
               + (p.white2 + ("+" + (p.number2 + (p.length2 + (p.white3 + ("@@" + p.rest))))))))))
  }

  lemma SpaceThenWhite(w: string, text: string, rest: string)
    requires IsWhite(w) && text != "" && !IsSpace(text[0])
    ensures SpaceThen(w + (text + rest), text) == Some(rest)
  {
    hide IsSpace;
    LeadingOf(w, text + rest, false);
    assert (w + (text + rest))[|w|..] == text + rest;
    assert text <= text + rest && (text + rest)[|text|..] == rest;
  }

  lemma SpaceThenSplits(s: string, text: string)
    requires SpaceThen(s, text).Some?
    ensures var n := Leading(s, false);
      IsWhite(s[..n]) && s == s[..n] + (text + SpaceThen(s, text).value)
  {
    hide IsSpace;
    var n := Leading(s, false);
    assert s == s[..n] + s[n..];
    assert s[n..][..|text|] == text;
  }

  lemma NumberPartWhite(digits: string, length: string, rest: string)
    requires IsNumber(digits) && IsLength(length) && rest != "" && IsSpace(rest[0])
    ensures NumberPart(digits + (length + rest)) == Some((digits, rest))
  {
    SpaceIsNoMark(rest[0]);
    hide IsSpace;
    var s := digits + (length + rest);
    LeadingOf(digits, length + rest, true);
    assert s[..|digits|] == digits && s[|digits|..] == length + rest;
    if length == "" {
      assert length + rest == rest;
    } else {
      LeadingOf(length[1..], rest, true);
      assert (length + rest)[1..] == length[1..] + rest;
      assert (length + rest)[|length|..] == rest;
    }
  }

  lemma SpaceIsNoMark(c: char)
    requires IsSpace(c)
    ensures !IsDigit(c) && c != ','
  {
  }

  lemma NumberPartSplits(s: string) returns (length: string)
    requires NumberPart(s).Some?
    ensures IsNumber(NumberPart(s).value.0) && IsLength(length)
    ensures s == NumberPart(s).value.0 + (length + NumberPart(s).value.1)
  {
    var n := Leading(s, true);
    var rest := s[n..];
    var m := if rest != "" && rest[0] == ',' then Leading(rest[1..], true) else 0;
    assert s == s[..n] + rest;
    length := if m > 0 then rest[..1 + m] else "";
    if m > 0 {
      assert rest == rest[..1 + m] + rest[1 + m..];
      assert length[1..] == rest[1..][..m];
    } else {
      assert "" + rest == rest;
    }
  }

  ghost predicate HasForm(line: string, digits: string) {
    exists p :: IsHeader(line, digits, p)
  }

  /** A line reads as a header with these digits exactly if it has the form of one. */
  lemma {:induction false} HeaderIff(line: string, digits: string)
    ensures HeaderStart(line) == Some(digits) <==> HasForm(line, digits)
  {
    if p :| IsHeader(line, digits, p) { HeaderOf(line, digits, p); }
    if HeaderStart(line) == Some(digits) {
      var p := PartsOf(line);
      assert IsHeader(line, digits, p);
    }
  }

  lemma HeaderOf(line: string, digits: string, p: Parts)
    requires IsHeader(line, digits, p)
    ensures HeaderStart(line) == Some(digits)
  {
    hide SpaceThen, NumberPart, IsSpace, Leading;
    NotSpaces();
    var r6 := p.white3 + ("@@" + p.rest);
    var r4 := p.white2 + ("+" + (p.number2 + (p.length2 + r6)));
    var r1 := p.white1 + ("-" + (digits + (p.length1 + r4)));
    assert line == "@@" + r1 && line[2..] == r1 && "@@" <= line;
    SpaceThenWhite(p.white1, "-", digits + (p.length1 + r4));
    assert r4[0] == p.white2[0] && r6[0] == p.white3[0];
    NumberPartWhite(digits, p.length1, r4);
    SpaceThenWhite(p.white2, "+", p.number2 + (p.length2 + r6));
    NumberPartWhite(p.number2, p.length2, r6);
    SpaceThenWhite(p.white3, "@@", p.rest);
  }

  lemma PartsOf(line: string) returns (p: Parts)
    requires HeaderStart(line).Some?
    ensures IsHeader(line, HeaderStart(line).value, p)
  {
    hide SpaceThen, NumberPart, IsSpace, Leading, IsWhite, IsNumber, IsLength;
    var a := line[2..];
    assert line == "@@" + a;
    var b := SpaceThen(a, "-").value;
    var c := NumberPart(b).value;
    var d := SpaceThen(c.1, "+").value;
    var e := NumberPart(d).value;
    var f := SpaceThen(e.1, "@@").value;
    SpaceThenSplits(a, "-");
    var length1 := NumberPartSplits(b);
    SpaceThenSplits(c.1, "+");
    var length2 := NumberPartSplits(d);
    SpaceThenSplits(e.1, "@@");
    p := Parts(a[..Leading(a, false)], length1, c.1[..Leading(c.1, false)], e.0, length2,
               e.1[..Leading(e.1, false)], f);
  }

  /** What a header gives: the old start counted from 0, and 0 for both 0 and 1; or, where it has more digits
      than `int` reads, a `ValueError`; and a line without the form of a header a `DiffException`. */
  lemma ParseHeaderIff(line: string, digits: string)
    requires AllDigits(digits)
    ensures HasForm(line, digits) ==>
      ParseHeader(line) ==
      if |digits| > 4300 then Failure(TooManyDigits)
      else if ParseDecimal(digits) == 0 then Success(0)
      else Success(ParseDecimal(digits) - 1)
    ensures (forall d :: !HasForm(line, d)) ==> ParseHeader(line) == Failure(MalformedHeader(line))
  {
    hide HasForm, ParseDecimal, HeaderStart;
    HeaderIff(line, digits);
    if HeaderStart(line).Some? { HeaderIff(line, HeaderStart(line).value); }
  }

  /** What a printed range reads as. */
  lemma NumberPartOf(start: nat, length: nat, rest: string)
    requires rest != "" && rest[0] == ' '
    ensures NumberPart(Range(start, length) + rest) == Some((Decimal(if length == 0 then start else start + 1), rest))
  {
    hide Decimal, Leading;
    var n := if length == 0 then start else start + 1;
    if length == 1 {
      NumberAlone(Decimal(n), rest);
    } else {
      assert length == 0 ==> Decimal(length) == "0" by { DecimalZero(); }
      assert Range(start, length) + rest == Decimal(n) + ("," + (Decimal(length) + rest));
      NumberWithLength(Decimal(n), Decimal(length), rest);
    }
  }

  lemma DecimalZero()
    ensures Decimal(0) == "0"
  {
  }

  lemma NumberAlone(digits: string, rest: string)
    requires AllDigits(digits) && digits != "" && rest != "" && rest[0] == ' '
    ensures NumberPart(digits + rest) == Some((digits, rest))
  {
    var s := digits + rest;
    LeadingOf(digits, rest, true);
    assert s[..|digits|] == digits && s[|digits|..] == rest;
  }

  lemma {:induction false} NumberWithLength(digits: string, length: string, rest: string)
    requires AllDigits(digits) && digits != "" && AllDigits(length) && length != "" && rest != "" && rest[0] == ' '
    ensures NumberPart(digits + ("," + (length + rest))) == Some((digits, rest))
  {
    hide Leading;
    var more := "," + (length + rest);
    LeadingOf(digits, more, true);
    assert (digits + more)[..|digits|] == digits && (digits + more)[|digits|..] == more;
    LeadingOf(length, rest, true);
    assert more[1..] == length + rest;
    assert more[1 + |length|..] == (length + rest)[|length|..] == rest;
  }

  /** A printed header reads as the old start it was printed for, except that an empty old range
      after the first line reads as one line too early, and that a number may have too many digits. */
  lemma {:induction false} HeaderReads(oldStart: nat, oldLength: nat, newStart: nat, newLength: nat)
    ensures ParseHeader(Header(oldStart, oldLength, newStart, newLength)) ==
      if |Decimal(if oldLength == 0 then oldStart else oldStart + 1)| > MAX_DIGITS then Failure(TooManyDigits)
      else Success(if oldLength == 0 && oldStart > 0 then oldStart - 1 else oldStart)
  {
    hide SpaceThen, NumberPart, Range, IsSpace, Decimal, ParseDecimal;
    DecimalRoundTrip(if oldLength == 0 then oldStart else oldStart + 1);
    var line := Header(oldStart, oldLength, newStart, newLength);
    var old_, new_ := Range(oldStart, oldLength), Range(newStart, newLength);
    var r4 := "\n";
    var r3 := " " + "@@" + r4;
    var r2 := " " + "+" + (new_ + r3);
    assert line[2..] == " " + "-" + (old_ + r2);
    NotSpaces();
    SpaceThenOf("-", old_ + r2);
    NumberPartOf(oldStart, oldLength, r2);
    SpaceThenOf("+", new_ + r3);
    NumberPartOf(newStart, newLength, r3);
    SpaceThenOf("@@", r4);
  }

  /** Any header with the old start in those digits. */
  lemma NumberedHeaderReads(digits: string)
    requires AllDigits(digits) && |digits| > MAX_DIGITS
    ensures ParseHeader("@@ -" + digits + " +1 @@\n") == Failure(TooManyDigits)
  {
    hide SpaceThen, NumberPart, IsSpace, ParseDecimal;
    var line := "@@ -" + digits + " +1 @@\n";
    var r3 := " " + "@@" + "\n";
    var r2 := " " + "+" + ("1" + r3);
    assert line[2..] == " " + "-" + (digits + r2);
    NotSpaces();
    SpaceThenOf("-", digits + r2);
    NumberAlone(digits, r2);
    SpaceThenOf("+", "1" + r3);
    NumberAlone("1", r3);
    SpaceThenOf("@@", "\n");
  }

  lemma NotSpaces()
    ensures !IsSpace('-') && !IsSpace('+') && !IsSpace('@')
  {
  }
}
