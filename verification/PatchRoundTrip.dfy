/** Printing a script and reading the patch back. */
module PatchRoundTrip {
  import opened Wrappers
  import opened Text
  import opened PatchText
  import opened UnifiedDiff
  import opened PatchModel

  /** A line the reader takes for a file name: `---` or `+++` at its start. */
  predicate Skipped(op: Op) {
    (op.kind.Delete? && "--" <= op.line) || (op.kind.Add? && "++" <= op.line)
  }

  function Kept(ops: seq<Op>): seq<Op> {
    if ops == [] then [] else (if Skipped(ops[0]) then [] else [ops[0]]) + Kept(ops[1..])
  }

  function ReadStart(start: nat, oldLength: nat): nat {
    if oldLength == 0 && start > 0 then start - 1 else start
  }

  /** The hunks the reader finds in a printed script. */
  function AsRead(script: seq<Segment>, offset: nat): seq<Hunk> {
    if script == [] then []
    else
      var start, ops := offset + |script[0].gap|, script[0].ops;
      var oldLength := |OldLines(ops)|;
      (if Kept(ops) == [] then [] else [Hunk(ReadStart(start, oldLength), Kept(ops))])
        + AsRead(script[1..], start + oldLength)
  }

  lemma ConsumeOp(st: ParseState, op: Op)
    requires st.inHunk
    ensures Consume(st, [Prefix(op.kind)] + op.line) ==
      (if Skipped(op) then st else st.(buffer := st.buffer + [op]), Success([]))
  {
    var raw := [Prefix(op.kind)] + op.line;
    assert raw[1..] == op.line;
    assert raw[0] == Prefix(op.kind) != '@';
    assert !("@@" <= raw) by { assert "@@"[0] == '@'; }
    assert "---" <= raw <==> op.kind.Delete? && "--" <= op.line by {
      assert "---" == ['-'] + "--" && "---"[0] == '-';
    }
    assert "+++" <= raw <==> op.kind.Add? && "++" <= op.line by {
      assert "+++" == ['+'] + "++" && "+++"[0] == '+';
    }
  }

  lemma ParseStep(raw: string, rest: seq<string>, st: ParseState, after: ParseState, found: seq<Hunk>)
    requires Consume(st, raw) == (after, Success(found))
    ensures Parse([raw] + rest, st) == Parsed(found + Parse(rest, after).hunks, Parse(rest, after).error)
  {
    hide Consume;
    assert ([raw] + rest)[1..] == rest;
  }

  lemma {:induction false} ParseOpLines(ops: seq<Op>, rest: seq<string>, st: ParseState)
    requires st.inHunk
    ensures Parse(OpLines(ops) + rest, st) == Parse(rest, st.(buffer := st.buffer + Kept(ops)))
    decreases |ops|
  {
    hide *;
    UnfoldOps(ops);
    if ops == [] {
      assert [] + rest == rest && st.buffer + [] == st.buffer;
    } else {
      var after := if Skipped(ops[0]) then st else st.(buffer := st.buffer + [ops[0]]);
      var raw, later := [Prefix(ops[0].kind)] + ops[0].line, OpLines(ops[1..]) + rest;
      ConsumeOp(st, ops[0]);
      ParseStep(raw, later, st, after, []);
      ParseOpLines(ops[1..], rest, after);
      assert [raw] + OpLines(ops[1..]) + rest == [raw] + later;
      assert after.buffer + Kept(ops[1..]) == st.buffer + Kept(ops);
    }
  }

  lemma UnfoldOps(ops: seq<Op>)
    ensures OpLines(ops) == if ops == [] then [] else [[Prefix(ops[0].kind)] + ops[0].line] + OpLines(ops[1..])
    ensures Kept(ops) ==
      if ops == [] then [] else if Skipped(ops[0]) then Kept(ops[1..]) else [ops[0]] + Kept(ops[1..])
  {
    hide Skipped;
  }

  lemma {:induction false} ParseHunkLines(script: seq<Segment>, oldOffset: nat, newOffset: nat, st: ParseState)
    requires Readable(oldOffset + |Left(script, [])|)
    ensures Parse(HunkLines(script, oldOffset, newOffset), st) == Parsed(Pending(st) + AsRead(script, oldOffset), None)
    decreases |script|
  {
    hide *;
    UnfoldEmpty(script, oldOffset, newOffset, st);
    if script != [] {
      Unfold(script, oldOffset, newOffset);
      var gap, ops := |script[0].gap|, script[0].ops;
      var oldLength, newLength := |OldLines(ops)|, |NewLines(ops)|;
      var header := Header(oldOffset + gap, oldLength, newOffset + gap, newLength);
      var later := HunkLines(script[1..], oldOffset + gap + oldLength, newOffset + gap + newLength);
      var opened_ := ParseState([], ReadStart(oldOffset + gap, oldLength), true);
      EarlierReadable(oldOffset + gap, oldOffset + |Left(script, [])|);
      ConsumeHeader(st, oldOffset + gap, oldLength, newOffset + gap, newLength);
      ParseStep(header, OpLines(ops) + later, st, opened_, Pending(st));
      ParseOpLines(ops, later, opened_);
      assert [] + Kept(ops) == Kept(ops);
      var filled := opened_.(buffer := Kept(ops));
      ParseHunkLines(script[1..], oldOffset + gap + oldLength, newOffset + gap + newLength, filled);
    }
  }

  lemma UnfoldEmpty(script: seq<Segment>, oldOffset: nat, newOffset: nat, st: ParseState)
    ensures script == [] ==> Parse(HunkLines(script, oldOffset, newOffset), st) == Parsed(Pending(st), None)
    ensures script == [] ==> AsRead(script, oldOffset) == []
    ensures script == [] ==> AreLines(HunkLines(script, oldOffset, newOffset))
  {
  }

  lemma Unfold(script: seq<Segment>, oldOffset: nat, newOffset: nat)
    requires script != []
    ensures var gap, ops := |script[0].gap|, script[0].ops;
      var oldLength, newLength := |OldLines(ops)|, |NewLines(ops)|;
      && |Left(script, [])| == gap + oldLength + |Left(script[1..], [])|
      && HunkLines(script, oldOffset, newOffset)
        == [Header(oldOffset + gap, oldLength, newOffset + gap, newLength)]
          + (OpLines(ops) + HunkLines(script[1..], oldOffset + gap + oldLength, newOffset + gap + newLength))
      && AsRead(script, oldOffset)
        == Pending(ParseState(Kept(ops), ReadStart(oldOffset + gap, oldLength), true))
          + AsRead(script[1..], oldOffset + gap + oldLength)
  {
    hide Header, OpLines, OldLines, NewLines, Kept;
  }

  lemma {:induction false} ConsumeHeader(st: ParseState, oldStart: nat, oldLength: nat, newStart: nat, newLength: nat)
    requires Readable(oldStart)
    ensures Consume(st, Header(oldStart, oldLength, newStart, newLength))
      == (ParseState([], ReadStart(oldStart, oldLength), true), Success(Pending(st)))
  {
    HeaderReads(oldStart, oldLength, newStart, newLength);
    HeaderStarts(oldStart, oldLength, newStart, newLength);
    EarlierReadable(oldStart, oldStart);
    hide Header, ParseHeader, Decimal;
  }

  lemma HeaderStarts(oldStart: nat, oldLength: nat, newStart: nat, newLength: nat)
    ensures "@@" <= Header(oldStart, oldLength, newStart, newLength)
  {
    assert Header(oldStart, oldLength, newStart, newLength)[..2] == "@@";
  }

  /** A printed script reads as its hunks, but for skipped lines and shifted starts. */
  lemma ParsePrinted(script: seq<Segment>, oldName: string, newName: string)
    requires Readable(|Left(script, [])|)
    ensures Parse(PatchLines(script, oldName, newName), Fresh) == Parsed(AsRead(script, 0), None)
  {
    hide *;
    var later := HunkLines(script, 0, 0);
    var a, b := "---" + (" " + oldName + "\n"), "+++" + (" " + newName + "\n");
    UnfoldPatch(script, oldName, newName);
    NothingPending();
    ParseHunkLines(script, 0, 0, Fresh);
    if script != [] {
      NameIgnored("---", " " + oldName + "\n");
      NameIgnored("+++", " " + newName + "\n");
      ParseStep(b, later, Fresh, Fresh, []);
      ParseStep(a, [b] + later, Fresh, Fresh, []);
    }
  }

  lemma UnfoldPatch(script: seq<Segment>, oldName: string, newName: string)
    ensures PatchLines(script, oldName, newName) ==
      if script == [] then HunkLines(script, 0, 0)
      else ["---" + (" " + oldName + "\n")] + (["+++" + (" " + newName + "\n")] + HunkLines(script, 0, 0))
  {
    assert "---" + (" " + oldName + "\n") == "--- " + oldName + "\n";
    assert "+++" + (" " + newName + "\n") == "+++ " + newName + "\n";
  }

  lemma NothingPending()
    ensures Pending(Fresh) == []
  {
  }

  /** Before the first hunk the file names are passed over. */
  lemma NameIgnored(mark: string, rest: string)
    requires mark == "---" || mark == "+++"
    ensures Consume(Fresh, mark + rest) == (Fresh, Success([]))
  {
    var raw := mark + rest;
    assert raw[0] == mark[0] != "@@"[0];
    assert raw[..3] == mark;
  }

  // ---------------------------------------------------------------- exactly when reading undoes printing

  /** No line of the script looks like a file name, and a hunk without old lines comes first in the
      file. With context around every change the latter means that the old file is empty. */
  ghost predicate Printable(script: seq<Segment>, offset: nat) {
    script == [] ||
    var start, ops := offset + |script[0].gap|, script[0].ops;
    && (forall op :: op in ops ==> !Skipped(op))
    && (OldLines(ops) == [] ==> start == 0)
    && Printable(script[1..], start + |OldLines(ops)|)
  }

  ghost predicate NoEmptyHunk(script: seq<Segment>) {
    forall i :: 0 <= i < |script| ==> script[i].ops != []
  }

  function OpCount(hunks: seq<Hunk>): nat {
    if hunks == [] then 0 else |hunks[0].ops| + OpCount(hunks[1..])
  }

  lemma {:induction false} KeptCount(ops: seq<Op>)
    ensures |Kept(ops)| <= |ops|
    ensures |Kept(ops)| == |ops| <==> forall op :: op in ops ==> !Skipped(op)
    ensures |Kept(ops)| == |ops| ==> Kept(ops) == ops
  {
    if ops != [] {
      KeptCount(ops[1..]);
      assert ops == [ops[0]] + ops[1..];
    }
  }

  lemma {:induction false} CountFallsBySkips(script: seq<Segment>, offset: nat)
    ensures OpCount(AsRead(script, offset)) <= OpCount(HunksOf(script, offset))
    ensures OpCount(AsRead(script, offset)) == OpCount(HunksOf(script, offset)) ==>
      forall i :: 0 <= i < |script| ==> |Kept(script[i].ops)| == |script[i].ops|
    decreases |script|
  {
    if script != [] {
      hide Skipped, Kept, OldLines;
      var start := offset + |script[0].gap|;
      var next := start + |OldLines(script[0].ops)|;
      CountFallsBySkips(script[1..], next);
      KeptCount(script[0].ops);
      var read, all := AsRead(script, offset), HunksOf(script, offset);
      assert all[1..] == HunksOf(script[1..], next);
      if Kept(script[0].ops) == [] {
        assert read == AsRead(script[1..], next);
      } else {
        assert read[1..] == AsRead(script[1..], next);
      }
      assert forall i :: 1 <= i < |script| ==> script[i] == script[1..][i-1];
    }
  }

  /** Reading a printed patch gives the hunks that were printed exactly if the script is printable. */
  lemma {:induction false} ReadUndoesPrintIff(script: seq<Segment>, oldName: string, newName: string)
    requires NoEmptyHunk(script) && Readable(|Left(script, [])|)
    ensures Parse(PatchLines(script, oldName, newName), Fresh) == Parsed(HunksOf(script, 0), None)
      <==> Printable(script, 0)
  {
    ParsePrinted(script, oldName, newName);
    AsReadIff(script, 0);
  }

  lemma {:induction false} AsReadIff(script: seq<Segment>, offset: nat)
    requires NoEmptyHunk(script)
    ensures AsRead(script, offset) == HunksOf(script, offset) <==> Printable(script, offset)
    decreases |script|
  {
    if script != [] {
      hide Skipped, Kept, OldLines;
      var ops, rest := script[0].ops, script[1..];
      var start := offset + |script[0].gap|;
      var next := start + |OldLines(ops)|;
      var read, all := AsRead(script, offset), HunksOf(script, offset);
      assert NoEmptyHunk(rest);
      AsReadIff(rest, next);
      KeptCount(ops);
      CountFallsBySkips(script, offset);
      assert all == [Hunk(start, ops)] + HunksOf(rest, next);
      if |Kept(ops)| == |ops| {
        assert read == [Hunk(ReadStart(start, |OldLines(ops)|), ops)] + AsRead(rest, next);
        assert read[1..] == AsRead(rest, next) && all[1..] == HunksOf(rest, next);
      }
    }
  }

  /** Where every hunk has an old line, as it has with context around every change, only the lines
      that look like file names are in the way. */
  lemma {:induction false} ContextLeavesOnlyNames(script: seq<Segment>, offset: nat)
    requires forall i :: 0 <= i < |script| ==> OldLines(script[i].ops) != []
    ensures Printable(script, offset) <==> forall i, op :: 0 <= i < |script| && op in script[i].ops ==> !Skipped(op)
    decreases |script|
  {
    hide OldLines, Skipped;
    if script != [] {
      var rest := script[1..];
      ContextLeavesOnlyNames(rest, offset + |script[0].gap| + |OldLines(script[0].ops)|);
      assert forall i :: 0 <= i < |rest| ==> rest[i] == script[i+1];
      assert forall i :: 1 <= i < |script| ==> script[i] == rest[i-1];
    }
  }

  // ---------------------------------------------------------------- whole patches as text

  ghost predicate NoBreaks(s: string) {
    forall i :: 0 <= i < |s| ==> !IsBreak(s[i])
  }

  ghost predicate OpsAreLines(script: seq<Segment>) {
    forall i, op :: 0 <= i < |script| && op in script[i].ops ==> IsLine(op.line)
  }

  /** Lines that stay apart when joined, if their endings are there. */
  ghost predicate AreLines(raws: seq<string>) {
    forall raw :: raw in raws ==> IsLine(raw) && raw[0] != '\n'
  }

  lemma {:induction false} PlainLine(s: string)
    requires NoBreaks(s)
    ensures IsLine(s + "\n") && Terminated(s + "\n")
    decreases |s|
  {
    if s == "" {
      assert s + "\n" == "\n";
    } else {
      PlainLine(s[1..]);
      assert (s + "\n")[1..] == s[1..] + "\n";
      assert (s + "\n")[0] == s[0];
    }
  }

  lemma PrefixedLine(c: char, line: string)
    requires !IsBreak(c) && IsLine(line)
    ensures IsLine([c] + line)
  {
    assert ([c] + line)[1..] == line;
  }

  lemma {:induction false} OpLinesAreLines(ops: seq<Op>)
    requires forall op :: op in ops ==> IsLine(op.line)
    ensures AreLines(OpLines(ops))
  {
    if ops != [] {
      hide IsLine;
      OpLinesAreLines(ops[1..]);
      PrefixedLine(Prefix(ops[0].kind), ops[0].line);
    }
  }

  lemma DigitsNoBreaks(n: nat)
    ensures NoBreaks(Decimal(n))
  {
    forall c | IsDigit(c) ensures !IsBreak(c) {}
  }

  lemma RangeNoBreaks(start: nat, length: nat)
    ensures NoBreaks(Range(start, length))
  {
    hide Decimal;
    DigitsNoBreaks(start);
    DigitsNoBreaks(start + 1);
    DigitsNoBreaks(length);
  }

  lemma HeaderIsLine(oldStart: nat, oldLength: nat, newStart: nat, newLength: nat)
    ensures var h := Header(oldStart, oldLength, newStart, newLength); IsLine(h) && Terminated(h) && h[0] != '\n'
  {
    hide Range, IsLine, Terminated;
    RangeNoBreaks(oldStart, oldLength);
    RangeNoBreaks(newStart, newLength);
    var s := "@@ -" + Range(oldStart, oldLength) + " +" + Range(newStart, newLength) + " @@";
    assert NoBreaks(s);
    PlainLine(s);
    assert s + "\n" == Header(oldStart, oldLength, newStart, newLength);
  }

  lemma {:induction false} HunkLinesAreLines(script: seq<Segment>, oldOffset: nat, newOffset: nat)
    requires OpsAreLines(script)
    ensures AreLines(HunkLines(script, oldOffset, newOffset))
    decreases |script|
  {
    hide *;
    UnfoldEmpty(script, oldOffset, newOffset, Fresh);
    if script != [] {
      Unfold(script, oldOffset, newOffset);
      var gap, ops := |script[0].gap|, script[0].ops;
      var oldLength, newLength := |OldLines(ops)|, |NewLines(ops)|;
      OpsAreLinesSplit(script);
      HunkLinesAreLines(script[1..], oldOffset + gap + oldLength, newOffset + gap + newLength);
      OpLinesAreLines(ops);
      var header := Header(oldOffset + gap, oldLength, newOffset + gap, newLength);
      HeaderIsLine(oldOffset + gap, oldLength, newOffset + gap, newLength);
      var later := HunkLines(script[1..], oldOffset + gap + oldLength, newOffset + gap + newLength);
      AreLinesTogether(OpLines(ops), later);
      OneLine(header);
      AreLinesTogether([header], OpLines(ops) + later);
    }
  }

  lemma AreLinesTogether(a: seq<string>, b: seq<string>)
    requires AreLines(a) && AreLines(b)
    ensures AreLines(a + b)
  {
    hide IsLine;
  }

  lemma OneLine(raw: string)
    requires IsLine(raw) && raw[0] != '\n'
    ensures AreLines([raw])
  {
  }

  lemma OpsAreLinesSplit(script: seq<Segment>)
    requires script != [] && OpsAreLines(script)
    ensures OpsAreLines(script[1..]) && forall op :: op in script[0].ops ==> IsLine(op.line)
  {
    hide IsLine;
    forall i, op | 0 <= i < |script[1..]| && op in script[1..][i].ops ensures IsLine(op.line) {
      assert op in script[i+1].ops;
    }
  }

  lemma PatchLinesAreLines(script: seq<Segment>, oldName: string, newName: string)
    requires OpsAreLines(script) && NoBreaks(oldName) && NoBreaks(newName)
    ensures AreLines(PatchLines(script, oldName, newName))
  {
    hide *;
    HunkLinesAreLines(script, 0, 0);
    UnfoldPatch(script, oldName, newName);
    if script != [] {
      NameIsLine("---", oldName);
      NameIsLine("+++", newName);
      var b := "+++" + (" " + newName + "\n");
      AreLinesTogether([b], HunkLines(script, 0, 0));
      AreLinesTogether(["---" + (" " + oldName + "\n")], [b] + HunkLines(script, 0, 0));
    }
  }

  lemma NameIsLine(mark: string, name: string)
    requires NoBreaks(name) && (mark == "---" || mark == "+++")
    ensures AreLines([mark + (" " + name + "\n")])
  {
    PlainLine(mark + " " + name);
    assert mark + " " + name + "\n" == mark + (" " + name + "\n");
  }

  /** The text of the patch. */
  function Patch(script: seq<Segment>, oldName: string, newName: string): string {
    Join(PatchLines(script, oldName, newName))
  }

  /** The lines of the printed patch are found again exactly if no line but the last lacks its
      ending; otherwise two of them run together. */
  lemma LinesFoundIff(script: seq<Segment>, oldName: string, newName: string)
    requires OpsAreLines(script) && NoBreaks(oldName) && NoBreaks(newName)
    ensures SplitLines(Patch(script, oldName, newName)) == PatchLines(script, oldName, newName)
      <==> AllButLastTerminated(PatchLines(script, oldName, newName))
  {
    PatchLinesAreLines(script, oldName, newName);
    hide PatchLines, IsLine;
    SplitJoinIff(PatchLines(script, oldName, newName));
  }

  /** Lines added in the middle of a file without any context end up one line too early: the header
      of an empty range names the line before it, and the reader takes that for the line itself. */
  lemma {:induction false} BareAdditionIsOneLineEarly(gap: seq<string>, added: seq<Op>, tail: seq<string>,
                                                           oldName: string, newName: string)
    requires gap != [] && added != [] && forall op :: op in added ==> op.kind.Add? && !Skipped(op)
    requires Readable(|gap|)
    ensures Parse(PatchLines([Segment(gap, added)], oldName, newName), Fresh)
      == Parsed([Hunk(|gap| - 1, added)], None)
    ensures ApplyHunks(gap + tail, 0, [Hunk(|gap| - 1, added)], [])
      == Success(gap[..|gap|-1] + NewLines(added) + [gap[|gap|-1]] + tail)
  {
    hide *;
    BareAdditionReads(gap, added);
    assert |Left([Segment(gap, added)], [])| == |gap| by { NoOldLines(added); OneSegment(gap, added); }
    ParsePrinted([Segment(gap, added)], oldName, newName);
    NoOldLines(added);
    var n, h := |gap| - 1, Hunk(|gap| - 1, added);
    var lines, last := gap + tail, gap[|gap|-1];
    assert [] + gap[..n] + [] + ([last] + tail) == lines;
    SegmentApplies([], gap[..n], added, [last] + tail, lines, []);
    LastHunk(lines, h, [], n, [] + gap[..n] + NewLines(added));
    EarlyLines(gap, NewLines(added), tail);
  }

  lemma OneSegment(gap: seq<string>, ops: seq<Op>)
    ensures Left([Segment(gap, ops)], []) == gap + OldLines(ops)
  {
    assert [Segment(gap, ops)][1..] == [];
  }

  lemma {:induction false} LeftLength(script: seq<Segment>, tail: seq<string>)
    ensures |Left(script, tail)| == |Left(script, [])| + |tail|
  {
    if script != [] { LeftLength(script[1..], tail); }
  }

  lemma EarlyLines(gap: seq<string>, added: seq<string>, tail: seq<string>)
    requires gap != []
    ensures var n, last := |gap| - 1, gap[|gap|-1];
      [] + gap[..n] + added + (gap + tail)[n..] == gap[..n] + added + [last] + tail
  {
  }

  lemma LastHunk(lines: seq<string>, h: Hunk, result: seq<string>, end: nat, out: seq<string>)
    requires ApplyHunk(lines, 0, h, result) == Success((end, out))
    ensures end <= |lines| && ApplyHunks(lines, 0, [h], result) == Success(out + lines[end..])
  {
    hide ApplyHunk;
    assert [h][1..] == [];
  }

  lemma BareAdditionReads(gap: seq<string>, added: seq<Op>)
    requires gap != [] && added != [] && forall op :: op in added ==> op.kind.Add? && !Skipped(op)
    ensures AsRead([Segment(gap, added)], 0) == [Hunk(|gap| - 1, added)]
  {
    NoOldLines(added);
    KeptCount(added);
    var script := [Segment(gap, added)];
    assert script[1..] == [] && AsRead([], |gap|) == [];
  }

  lemma {:induction false} NoOldLines(ops: seq<Op>)
    requires forall op :: op in ops ==> op.kind.Add?
    ensures OldLines(ops) == []
  {
    if ops != [] { NoOldLines(ops[1..]); }
  }
}
