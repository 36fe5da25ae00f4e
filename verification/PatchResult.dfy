/** What applying a printed patch gives, and exactly when that is the new text. */
module PatchResult {
  import opened Wrappers
  import opened Text
  import opened PatchText
  import opened UnifiedDiff
  import opened PatchModel
  import opened PatchRoundTrip

  // ---------------------------------------------------------------- hunks without old lines

  /** Where a hunk without old lines is applied one line early, the line it belongs after is still to be
      copied. `late` holds that line, if there is one; the text is what the script then makes of the rest. */
  function Out(script: seq<Segment>, late: seq<string>, tail: seq<string>): seq<string>
    decreases |script|
  {
    if script == [] then late + tail
    else
      var before, ops := late + script[0].gap, script[0].ops;
      if OldLines(ops) == [] && before != [] then
        before[..|before|-1] + NewLines(ops) + Out(script[1..], [before[|before|-1]], tail)
      else before + NewLines(ops) + Out(script[1..], [], tail)
  }

  ghost predicate NothingSkipped(script: seq<Segment>) {
    forall i, op :: 0 <= i < |script| && op in script[i].ops ==> !Skipped(op)
  }

  lemma {:induction false} OutApplies(before: seq<string>, late: seq<string>, script: seq<Segment>, tail: seq<string>,
                                      result: seq<string>)
    requires |late| <= 1 && NothingSkipped(script) && NoEmptyHunk(script)
    ensures ApplyHunks(before + late + Left(script, tail), |before|, AsRead(script, |before| + |late|), result)
      == Success(result + Out(script, late, tail))
    decreases |script|
  {
    hide *;
    if script == [] {
      NoHunks(before, late, tail, result);
    } else {
      var ops, more := script[0].ops, script[1..];
      var pre := late + script[0].gap;
      var start := |before| + |pre|;
      NothingSkippedParts(script);
      UnfoldOut(before, late, script, tail);
      var lines := before + pre + OldLines(ops) + Left(more, tail);
      var h, rest := Hunk(ReadStart(start, |OldLines(ops)|), ops), AsRead(more, start + |OldLines(ops)|);
      if OldLines(ops) == [] && pre != [] {
        var last := [pre[|pre|-1]];
        var next, out := before + pre[..|pre|-1], result + pre[..|pre|-1] + NewLines(ops);
        AppliesEarly(before, pre, ops, Left(more, tail), result);
        OneHunk(lines, |before|, h, rest, result, |next|, out);
        OutApplies(next, last, more, tail, out);
        assert next + last == before + pre && before + pre + [] == before + pre;
        Regroup(result, pre[..|pre|-1], NewLines(ops), Out(more, last, tail));
      } else {
        var next, out := before + pre + OldLines(ops), result + pre + NewLines(ops);
        AppliesHere(before, pre, ops, Left(more, tail), result);
        OneHunk(lines, |before|, h, rest, result, |next|, out);
        OutApplies(next, [], more, tail, out);
        assert next + [] == next;
        Regroup(result, pre, NewLines(ops), Out(more, [], tail));
      }
    }
  }

  lemma NoHunks(before: seq<string>, late: seq<string>, tail: seq<string>, result: seq<string>)
    ensures ApplyHunks(before + late + Left([], tail), |before|, AsRead([], |before| + |late|), result)
      == Success(result + Out([], late, tail))
  {
    assert (before + late + tail)[|before|..] == late + tail;
  }

  lemma UnfoldOut(before: seq<string>, late: seq<string>, script: seq<Segment>, tail: seq<string>)
    requires script != [] && script[0].ops != [] && forall op :: op in script[0].ops ==> !Skipped(op)
    ensures var ops, more, pre := script[0].ops, script[1..], late + script[0].gap;
      var start := |before| + |pre|;
      && before + late + Left(script, tail) == before + pre + OldLines(ops) + Left(more, tail)
      && AsRead(script, |before| + |late|)
        == [Hunk(ReadStart(start, |OldLines(ops)|), ops)] + AsRead(more, start + |OldLines(ops)|)
      && Out(script, late, tail)
        == (if OldLines(ops) == [] && pre != []
            then pre[..|pre|-1] + NewLines(ops) + Out(more, [pre[|pre|-1]], tail)
            else pre + NewLines(ops) + Out(more, [], tail))
  {
    hide OldLines, NewLines, Kept, Skipped;
    KeptCount(script[0].ops);
  }

  lemma OneHunk(lines: seq<string>, cursor: nat, h: Hunk, rest: seq<Hunk>, result: seq<string>, end: nat,
                out: seq<string>)
    requires cursor <= |lines| && ApplyHunk(lines, cursor, h, result) == Success((end, out))
    ensures end <= |lines| && ApplyHunks(lines, cursor, [h] + rest, result) == ApplyHunks(lines, end, rest, out)
  {
    hide ApplyHunk;
    assert ([h] + rest)[1..] == rest;
  }

  /** A hunk without old lines, read one line early. */
  lemma AppliesEarly(before: seq<string>, pre: seq<string>, ops: seq<Op>, rest: seq<string>, result: seq<string>)
    requires OldLines(ops) == [] && pre != []
    ensures var n := |pre| - 1;
      ApplyHunk(before + pre + OldLines(ops) + rest, |before|, Hunk(ReadStart(|before| + |pre|, 0), ops), result)
      == Success((|before + pre[..n]|, result + pre[..n] + NewLines(ops)))
  {
    hide ApplyHunk, OldLines, NewLines;
    var n := |pre| - 1;
    assert before + pre[..n] + [] + ([pre[n]] + rest) == before + pre + [] + rest;
    SegmentApplies(before, pre[..n], ops, [pre[n]] + rest, before + pre + [] + rest, result);
  }

  /** Any other hunk. */
  lemma AppliesHere(before: seq<string>, pre: seq<string>, ops: seq<Op>, rest: seq<string>, result: seq<string>)
    requires OldLines(ops) != [] || pre == []
    ensures ApplyHunk(before + pre + OldLines(ops) + rest, |before|,
                      Hunk(ReadStart(|before| + |pre|, |OldLines(ops)|), ops), result)
      == Success((|before + pre + OldLines(ops)|, result + pre + NewLines(ops)))
  {
    hide ApplyHunk, OldLines, NewLines;
    var lines, start := before + pre + OldLines(ops) + rest, |before| + |pre|;
    SegmentApplies(before, pre, ops, rest, lines, result);
    SameStop(lines, |before|, start, ReadStart(start, |OldLines(ops)|), ops, result);
  }

  lemma NothingSkippedParts(script: seq<Segment>)
    requires script != [] && NothingSkipped(script) && NoEmptyHunk(script)
    ensures NothingSkipped(script[1..]) && NoEmptyHunk(script[1..]) && script[0].ops != []
    ensures forall op :: op in script[0].ops ==> !Skipped(op)
  {
    hide Skipped;
    assert forall i :: 0 <= i < |script| - 1 ==> script[1..][i] == script[i+1];
  }

  /** Any start at or before the cursor is the same. */
  lemma SameStop(lines: seq<string>, cursor: nat, a: nat, b: nat, ops: seq<Op>, result: seq<string>)
    requires cursor <= |lines| && (a == b || (a <= cursor && b <= cursor))
    ensures ApplyHunk(lines, cursor, Hunk(a, ops), result) == ApplyHunk(lines, cursor, Hunk(b, ops), result)
  {
  }

  /** Every hunk without old lines and with a line before it adds only copies of that line, the last one
      before it in the old text; then one line early is the same place. */
  ghost predicate InPlace(script: seq<Segment>, late: seq<string>)
    decreases |script|
  {
    script == [] ||
    var before, ops := late + script[0].gap, script[0].ops;
    if OldLines(ops) == [] && before != [] then
      (forall l :: l in NewLines(ops) ==> l == before[|before|-1]) && InPlace(script[1..], [before[|before|-1]])
    else InPlace(script[1..], [])
  }

  lemma {:induction false} OutLength(script: seq<Segment>, late: seq<string>, tail: seq<string>)
    ensures |Out(script, late, tail)| == |late| + |Right(script, tail)|
    decreases |script|
  {
    if script != [] {
      var before := late + script[0].gap;
      OutLength(script[1..], [], tail);
      if before != [] { OutLength(script[1..], [before[|before|-1]], tail); }
    }
  }

  /** The pieces come out as long as they should, so one wrong piece shows. */
  lemma {:induction false} OutIff(script: seq<Segment>, late: seq<string>, tail: seq<string>)
    requires |late| <= 1
    ensures Out(script, late, tail) == late + Right(script, tail) <==> InPlace(script, late)
    decreases |script|
  {
    hide *;
    UnfoldInPlace(script, late, tail);
    if script != [] {
      var before, ops, more := late + script[0].gap, script[0].ops, script[1..];
      var added, right := NewLines(ops), Right(more, tail);
      if OldLines(ops) == [] && before != [] {
        var last := before[|before|-1];
        OutIff(more, [last], tail);
        OutLength(more, [last], tail);
        MovedIff(before, added, Out(more, [last], tail), right);
      } else {
        OutIff(more, [], tail);
        assert [] + right == right;
        SamePrefix(before + added, Out(more, [], tail), right);
      }
    }
  }

  lemma UnfoldInPlace(script: seq<Segment>, late: seq<string>, tail: seq<string>)
    ensures script == [] ==> Out(script, late, tail) == late + Right(script, tail) && InPlace(script, late)
    ensures script != [] ==>
      var before, ops, more := late + script[0].gap, script[0].ops, script[1..];
      late + Right(script, tail) == before + NewLines(ops) + Right(more, tail)
      && if OldLines(ops) == [] && before != [] then
           var last := before[|before|-1];
           Out(script, late, tail) == before[..|before|-1] + NewLines(ops) + Out(more, [last], tail)
           && (InPlace(script, late) <==> (forall l :: l in NewLines(ops) ==> l == last) && InPlace(more, [last]))
         else
           Out(script, late, tail) == before + NewLines(ops) + Out(more, [], tail)
           && (InPlace(script, late) <==> InPlace(more, []))
  {
    hide OldLines, NewLines;
  }

  lemma MovedIff(before: seq<string>, added: seq<string>, out: seq<string>, right: seq<string>)
    requires before != [] && |out| == 1 + |right|
    ensures var n := |before| - 1;
      before[..n] + added + out == before + added + right <==>
      (forall l :: l in added ==> l == before[n]) && out == [before[n]] + right
  {
    var n := |before| - 1;
    assert before + added + right == before[..n] + ([before[n]] + added + right);
    assert before[..n] + added + out == before[..n] + (added + out);
    SamePrefix(before[..n], added + out, [before[n]] + added + right);
    EarlyIff(before[n], added, out, right);
  }

  lemma SamePrefix(a: seq<string>, b: seq<string>, c: seq<string>)
    ensures a + b == a + c <==> b == c
  {
    assert (a + b)[|a|..] == b && (a + c)[|a|..] == c;
  }

  /** A line moved behind others is where it was exactly if they are all equal to it. */
  lemma EarlyIff(last: string, added: seq<string>, out: seq<string>, right: seq<string>)
    requires |out| == 1 + |right|
    ensures added + out == [last] + added + right <==> (forall l :: l in added ==> l == last) && out == [last] + right
  {
    var x, y := added + out, [last] + added + right;
    if x == y {
      forall i | 0 <= i < |added| ensures added[i] == last {
        AllTheSame(last, added, out, right, i);
      }
      assert x[|added|..] == out && y == [last] + added + right;
      assert [last] + added == added + [last] by {
        assert forall i :: 0 <= i < |added| ==> added[i] == last;
      }
      assert y == added + ([last] + right);
      SamePrefix(added, out, [last] + right);
    }
    if (forall l :: l in added ==> l == last) && out == [last] + right {
      assert forall i :: 0 <= i < |added| ==> added[i] in added;
      assert [last] + added == added + [last];
      assert x == y;
    }
  }

  lemma {:induction false} AllTheSame(last: string, added: seq<string>, out: seq<string>, right: seq<string>, i: nat)
    requires added + out == [last] + added + right && i < |added|
    ensures added[i] == last
  {
    assert (added + out)[i] == added[i];
    if i > 0 {
      assert ([last] + added + right)[i] == added[i-1];
      AllTheSame(last, added, out, right, i - 1);
    }
  }

  // ---------------------------------------------------------------- a skipped line shows

  function CountMarked(lines: seq<string>, mark: string): nat {
    if lines == [] then 0 else (if mark <= lines[0] then 1 else 0) + CountMarked(lines[1..], mark)
  }

  function GainOf(op: Op, mark: string): int {
    if !(mark <= op.line) || op.kind.Context? then 0 else if op.kind.Add? then 1 else -1
  }

  /** How many marked lines `ops` adds, less those it deletes. */
  function Gain(ops: seq<Op>, mark: string): int {
    if ops == [] then 0 else GainOf(ops[0], mark) + Gain(ops[1..], mark)
  }

  function TotalGain(script: seq<Segment>, mark: string): int {
    if script == [] then 0 else Gain(script[0].ops, mark) + TotalGain(script[1..], mark)
  }

  lemma {:induction false} CountConcat(a: seq<string>, b: seq<string>, mark: string)
    ensures CountMarked(a + b, mark) == CountMarked(a, mark) + CountMarked(b, mark)
  {
    if a == [] {
      assert a + b == b;
    } else {
      CountConcat(a[1..], b, mark);
      assert (a + b)[1..] == a[1..] + b;
    }
  }

  lemma {:induction false} OpsGain(ops: seq<Op>, mark: string)
    ensures CountMarked(NewLines(ops), mark) == CountMarked(OldLines(ops), mark) + Gain(ops, mark)
  {
    if ops != [] {
      var op := ops[0];
      OpsGain(ops[1..], mark);
      CountConcat(if op.kind.Add? then [] else [op.line], OldLines(ops[1..]), mark);
      CountConcat(if op.kind.Delete? then [] else [op.line], NewLines(ops[1..]), mark);
      OneCounted(op.line, mark);
    }
  }

  lemma OneCounted(line: string, mark: string)
    ensures CountMarked([line], mark) == (if mark <= line then 1 else 0) && CountMarked([], mark) == 0
  {
  }

  lemma {:induction false} ScriptGain(script: seq<Segment>, tail: seq<string>, mark: string)
    ensures CountMarked(Right(script, tail), mark) == CountMarked(Left(script, tail), mark) + TotalGain(script, mark)
  {
    hide CountMarked, OldLines, NewLines, Gain;
    if script != [] {
      var gap, ops, more := script[0].gap, script[0].ops, script[1..];
      ScriptGain(more, tail, mark);
      OpsGain(ops, mark);
      CountConcat(gap, OldLines(ops), mark);
      CountConcat(gap, NewLines(ops), mark);
      CountConcat(gap + OldLines(ops), Left(more, tail), mark);
      CountConcat(gap + NewLines(ops), Right(more, tail), mark);
    }
  }

  predicate IsMark(mark: string) {
    mark == "--" || mark == "++"
  }

  /** How far skipping shifts the gain of a mark: up by the skipped deletions, down by the skipped additions. */
  function Shift(ops: seq<Op>, mark: string): int {
    if ops == [] then 0
    else
      (if !Skipped(ops[0]) || !(mark <= ops[0].line) then 0 else if mark == "--" then 1 else -1)
      + Shift(ops[1..], mark)
  }

  lemma {:induction false} KeptGain(ops: seq<Op>, mark: string)
    requires IsMark(mark)
    ensures Gain(Kept(ops), mark) == Gain(ops, mark) + Shift(ops, mark)
    ensures if mark == "--" then Shift(ops, mark) >= 0 else Shift(ops, mark) <= 0
    ensures Shift(ops, mark) == 0 ==> forall op :: op in ops && Skipped(op) ==> !(mark <= op.line)
  {
    hide *;
    if ops != [] {
      var op, more := ops[0], ops[1..];
      assert ops == [op] + more;
      KeptGain(more, mark);
      GainOfOne(op, more, mark);
      GainOfOne(op, Kept(more), mark);
      ConsOps(op, more);
      ShiftOfOne(op, more, mark);
      assert [] + Kept(more) == Kept(more);
    } else {
      NoneKept(mark);
    }
  }

  lemma NoneKept(mark: string)
    ensures Gain(Kept([]), mark) == 0 && Gain([], mark) == 0 && Shift([], mark) == 0
  {
  }

  lemma GainOfOne(op: Op, more: seq<Op>, mark: string)
    ensures Gain([op] + more, mark) == GainOf(op, mark) + Gain(more, mark)
  {
    assert ([op] + more)[1..] == more;
  }

  lemma ShiftOfOne(op: Op, more: seq<Op>, mark: string)
    requires IsMark(mark)
    ensures var d := Shift([op] + more, mark) - Shift(more, mark);
      && (Skipped(op) ==> d == -GainOf(op, mark))
      && (!Skipped(op) ==> d == 0)
      && (if mark == "--" then d >= 0 else d <= 0)
      && (d == 0 ==> !(Skipped(op) && mark <= op.line))
  {
    SkippedMark(op);
    assert ([op] + more)[1..] == more;
    hide Skipped;
  }

  /** A skipped line has the mark of its kind and no other. */
  lemma SkippedMark(op: Op)
    ensures Skipped(op) && "--" <= op.line ==> op.kind.Delete?
    ensures Skipped(op) && "++" <= op.line ==> op.kind.Add?
    ensures Skipped(op) ==> "--" <= op.line || "++" <= op.line
  {
    assert "--" <= op.line ==> op.line[0] == '-' by { assert "--"[0] == '-'; }
    assert "++" <= op.line ==> op.line[0] == '+' by { assert "++"[0] == '+'; }
  }

  function TotalShift(script: seq<Segment>, mark: string): int {
    if script == [] then 0 else Shift(script[0].ops, mark) + TotalShift(script[1..], mark)
  }

  lemma {:induction false} TotalShiftIs(script: seq<Segment>, mark: string)
    requires IsMark(mark)
    ensures if mark == "--" then TotalShift(script, mark) >= 0 else TotalShift(script, mark) <= 0
    ensures TotalShift(script, mark) == 0 ==>
      forall i, op :: 0 <= i < |script| && op in script[i].ops && Skipped(op) ==> !(mark <= op.line)
  {
    hide Shift, Skipped;
    if script != [] {
      TotalShiftIs(script[1..], mark);
      KeptGain(script[0].ops, mark);
      assert forall i :: 1 <= i < |script| ==> script[i] == script[1..][i-1];
    }
  }

  /** The gain of the hunks that are read, under whatever script carries them. */
  lemma {:induction false} ReadGain(script: seq<Segment>, offset: nat, read: seq<Segment>, mark: string)
    requires IsMark(mark) && |read| == |AsRead(script, offset)|
    requires forall i :: 0 <= i < |read| ==> read[i].ops == AsRead(script, offset)[i].ops
    ensures TotalGain(read, mark) == TotalGain(script, mark) + TotalShift(script, mark)
    decreases |script|
  {
    hide Kept, Gain, Shift, OldLines;
    if script != [] {
      var ops := script[0].ops;
      var next := offset + |script[0].gap| + |OldLines(ops)|;
      KeptGain(ops, mark);
      var hunks := AsRead(script, offset);
      if Kept(ops) == [] {
        assert hunks == AsRead(script[1..], next);
        NoGain(mark);
        ReadGain(script[1..], next, read, mark);
      } else {
        assert hunks[1..] == AsRead(script[1..], next) && hunks[0].ops == Kept(ops);
        ReadGain(script[1..], next, read[1..], mark);
      }
    }
  }

  lemma NoGain(mark: string)
    ensures Gain([], mark) == 0
  {
  }

  /** If the hunks that are read turn the old text into the new one, no line was skipped. */
  lemma SkipShows(script: seq<Segment>, tail: seq<string>)
    requires ApplyHunks(Left(script, tail), 0, AsRead(script, 0), []) == Success(Right(script, tail))
    ensures NothingSkipped(script)
  {
    hide ApplyHunks, AsRead, Left, Right, Skipped, CountMarked, TotalGain, TotalShift;
    var read, rest := AppliedIsScript(Left(script, tail), 0, AsRead(script, 0), []);
    assert Left(script, tail)[0..] == Left(script, tail) && [] + Right(read, rest) == Right(read, rest);
    ShiftsAreZero(script, tail, read, rest, "--");
    ShiftsAreZero(script, tail, read, rest, "++");
    forall i, op | 0 <= i < |script| && op in script[i].ops ensures !Skipped(op) {
      SkippedMark(op);
    }
  }

  lemma ShiftsAreZero(script: seq<Segment>, tail: seq<string>, read: seq<Segment>, rest: seq<string>, mark: string)
    requires IsMark(mark) && |read| == |AsRead(script, 0)|
    requires forall i :: 0 <= i < |read| ==> read[i].ops == AsRead(script, 0)[i].ops
    requires Left(read, rest) == Left(script, tail) && Right(read, rest) == Right(script, tail)
    ensures forall i, op :: 0 <= i < |script| && op in script[i].ops && Skipped(op) ==> !(mark <= op.line)
  {
    hide AsRead, Left, Right, Skipped, CountMarked, TotalGain, TotalShift;
    ScriptGain(script, tail, mark);
    ScriptGain(read, rest, mark);
    ReadGain(script, 0, read, mark);
    TotalShiftIs(script, mark);
  }

  // ---------------------------------------------------------------- the round trip

  /** Applying the printed patch, found again line by line, runs the hunks that are read. */
  lemma PatchRuns(lines: seq<string>, script: seq<Segment>, oldName: string, newName: string)
    requires OpsAreLines(script) && NoBreaks(oldName) && NoBreaks(newName)
    requires AllButLastTerminated(PatchLines(script, oldName, newName)) && Readable(|Left(script, [])|)
    ensures ApplyPatch(lines, Patch(script, oldName, newName)) == ApplyHunks(lines, 0, AsRead(script, 0), [])
  {
    hide Parse, ApplyHunks, PatchLines, AsRead, IsLine, OpsAreLines, NoBreaks;
    PatchLinesAreLines(script, oldName, newName);
    SplitJoin(PatchLines(script, oldName, newName));
    ParsePrinted(script, oldName, newName);
  }

  /** Where all lines of the patch but the last end in a line break, applying it to the old text gives the new
      text exactly if no line of the script looks like a file name and every hunk without old lines is in
      place. */
  lemma SeparateRoundTripIff(script: seq<Segment>, tail: seq<string>, oldName: string, newName: string)
    requires NoEmptyHunk(script) && OpsAreLines(script) && NoBreaks(oldName) && NoBreaks(newName)
    requires AllButLastTerminated(PatchLines(script, oldName, newName)) && Readable(|Left(script, tail)|)
    ensures ApplyPatch(Left(script, tail), Patch(script, oldName, newName)) == Success(Right(script, tail))
      <==> NothingSkipped(script) && InPlace(script, [])
  {
    hide ApplyPatch, ApplyHunks, PatchLines, AsRead, IsLine, OpsAreLines, NoBreaks, InPlace, Out, NothingSkipped, Left,
      Readable;
    var old_ := Left(script, tail);
    LeftLength(script, tail);
    EarlierReadable(|Left(script, [])|, |old_|);
    PatchRuns(old_, script, oldName, newName);
    if NothingSkipped(script) {
      OutApplies([], [], script, tail, []);
      OutIff(script, [], tail);
      assert [] + [] + old_ == old_ && [] + Out(script, [], tail) == Out(script, [], tail);
      assert [] + Right(script, tail) == Right(script, tail);
    } else if ApplyHunks(old_, 0, AsRead(script, 0), []) == Success(Right(script, tail)) {
      SkipShows(script, tail);
    }
  }

  /** Where every hunk has an old line, as it has with context around every change, all are in place. */
  lemma {:induction false} ContextIsInPlace(script: seq<Segment>, late: seq<string>)
    requires forall i :: 0 <= i < |script| ==> OldLines(script[i].ops) != []
    ensures InPlace(script, late)
    decreases |script|
  {
    if script != [] {
      assert forall i :: 0 <= i < |script| - 1 ==> script[1..][i] == script[i+1];
      ContextIsInPlace(script[1..], []);
    }
  }

  // ---------------------------------------------------------------- what goes wrong

  ghost predicate AllTerminated(raws: seq<string>) {
    forall raw :: raw in raws ==> Terminated(raw)
  }

  ghost predicate OpsTerminated(ops: seq<Op>) {
    forall op :: op in ops ==> IsLine(op.line) && Terminated(op.line)
  }

  lemma {:induction false} OpLinesTerminated(ops: seq<Op>)
    requires OpsTerminated(ops)
    ensures AllTerminated(OpLines(ops))
  {
    if ops != [] {
      OpLinesTerminated(ops[1..]);
      var line := ops[0].line;
      assert ([Prefix(ops[0].kind)] + line)[|line|] == line[|line|-1];
    }
  }

  lemma {:induction false} HunkLinesTerminated(script: seq<Segment>, oldOffset: nat, newOffset: nat)
    requires forall i :: 0 <= i < |script| ==> OpsTerminated(script[i].ops)
    ensures AllTerminated(HunkLines(script, oldOffset, newOffset))
    decreases |script|
  {
    hide OpsTerminated, Terminated, Header, OpLines, OldLines, NewLines;
    if script != [] {
      var gap, ops := |script[0].gap|, script[0].ops;
      var oldLength, newLength := |OldLines(ops)|, |NewLines(ops)|;
      assert forall i :: 0 <= i < |script| - 1 ==> script[1..][i] == script[i+1];
      HunkLinesTerminated(script[1..], oldOffset + gap + oldLength, newOffset + gap + newLength);
      OpLinesTerminated(ops);
      HeaderIsLine(oldOffset + gap, oldLength, newOffset + gap, newLength);
    }
  }

  /** A script of lines that all end in a line break prints such lines. */
  lemma PatchTerminated(script: seq<Segment>, oldName: string, newName: string)
    requires forall i :: 0 <= i < |script| ==> OpsTerminated(script[i].ops)
    ensures OpsAreLines(script) && AllButLastTerminated(PatchLines(script, oldName, newName))
  {
    HunkLinesTerminated(script, 0, 0);
    assert Terminated("--- " + oldName + "\n") && Terminated("+++ " + newName + "\n");
    hide IsLine, HunkLines, Terminated;
    var raws := PatchLines(script, oldName, newName);
    forall i | 0 <= i < |raws| ensures Terminated(raws[i]) {
      assert raws[i] in raws;
    }
  }

  lemma ConsOps(op: Op, more: seq<Op>)
    ensures OldLines([op] + more) == (if op.kind.Add? then [] else [op.line]) + OldLines(more)
    ensures NewLines([op] + more) == (if op.kind.Delete? then [] else [op.line]) + NewLines(more)
    ensures Kept([op] + more) == (if Skipped(op) then [] else [op]) + Kept(more)
    ensures OldLines([]) == [] && NewLines([]) == [] && Kept([]) == []
  {
    hide Skipped;
    assert ([op] + more)[1..] == more;
  }

  /** A hunk of one context line. */
  lemma ContextOnly(line: string)
    ensures var ops := [Op(Context, line)]; OldLines(ops) == [line] && NewLines(ops) == [line] && Kept(ops) == ops
  {
    hide OldLines, NewLines, Kept;
    assert [Op(Context, line)] + [] == [Op(Context, line)];
    ConsOps(Op(Context, line), []);
  }

  lemma ReadOne(gap: seq<string>, ops: seq<Op>, more: seq<Segment>, offset: nat)
    requires Kept(ops) != []
    ensures AsRead([Segment(gap, ops)] + more, offset) ==
      var start, length := offset + |gap|, |OldLines(ops)|;
      [Hunk(ReadStart(start, length), Kept(ops))] + AsRead(more, start + length)
    ensures forall o: nat :: AsRead([], o) == []
  {
    hide Kept, OldLines;
    assert ([Segment(gap, ops)] + more)[1..] == more;
  }

  /** Deleting a last line that starts with `--`: the patch applies, and the file stays as it was. */
  lemma SkippedDeletionIsLost(kept: string, gone: string, oldName: string, newName: string)
    requires IsLine(kept) && Terminated(kept) && IsLine(gone) && Terminated(gone) && "--" <= gone
    requires NoBreaks(oldName) && NoBreaks(newName)
    ensures var script := [Segment([], [Op(Context, kept), Op(Delete, gone)])];
      Left(script, []) == [kept, gone] && Right(script, []) == [kept]
      && ApplyPatch([kept, gone], Patch(script, oldName, newName)) == Success([kept, gone])
  {
    hide ApplyPatch, ApplyHunks, AsRead, Patch, PatchLines, IsLine, NoBreaks, Terminated, OldLines, NewLines, Kept;
    var ops := [Op(Context, kept), Op(Delete, gone)];
    var script := [Segment([], ops)];
    PatchTerminated(script, oldName, newName);
    assert [Op(Context, kept)] + [Op(Delete, gone)] == ops && [Op(Delete, gone)] + [] == [Op(Delete, gone)];
    ConsOps(Op(Context, kept), [Op(Delete, gone)]);
    ConsOps(Op(Delete, gone), []);
    OneSegment([], ops);
    PatchRuns([kept, gone], script, oldName, newName);
    ReadOne([], ops, [], 0);
    assert script[1..] == [] && [Segment([], ops)] + [] == script;
    assert Kept(ops) == [Op(Context, kept)] && AsRead(script, 0) == [Hunk(0, [Op(Context, kept)])];
    ContextStays([kept, gone], 0);
  }

  /** A single hunk that only asks for one line where it stands changes nothing. */
  lemma ContextStays(lines: seq<string>, i: nat)
    requires i < |lines|
    ensures ApplyHunks(lines, 0, [Hunk(i, [Op(Context, lines[i])])], []) == Success(lines)
  {
    hide ApplyHunk, ApplyHunks, OldLines, NewLines, Kept;
    var ops := [Op(Context, lines[i])];
    ContextOnly(lines[i]);
    assert [] + lines[..i] + OldLines(ops) + lines[i+1..] == lines;
    SegmentApplies([], lines[..i], ops, lines[i+1..], lines, []);
    LastHunk(lines, Hunk(i, ops), [], i + 1, [] + lines[..i] + NewLines(ops));
    assert [] + lines[..i] + NewLines(ops) + lines[i+1..] == lines;
  }

  /** A header whose old start has more digits than `int` reads is a `ValueError`, whatever the file. */
  lemma LongNumberIsValueError(lines: seq<string>, digits: string)
    requires AllDigits(digits) && |digits| > MAX_DIGITS
    ensures ApplyPatch(lines, "@@ -" + digits + " +1 @@\n") == Failure(TooManyDigits)
  {
    hide ParseHeader, IsLine, Parse, SplitLines, NoBreaks;
    var line, raws := "@@ -" + digits + " +1 @@\n", ["@@ -" + digits + " +1 @@\n"];
    NumberedHeaderReads(digits);
    assert line == ("@@ -" + digits + " +1 @@") + "\n" && line[..2] == "@@" && line[0] == '@';
    NumberedHasNoBreaks(digits);
    PlainLine("@@ -" + digits + " +1 @@");
    SplitJoin(raws);
    assert Join(raws) == line by { assert raws[1..] == []; }
    BadHeaderAlone(line);
    NothingAppliedYet(lines);
  }

  lemma NumberedHasNoBreaks(digits: string)
    requires AllDigits(digits)
    ensures NoBreaks("@@ -" + digits + " +1 @@")
  {
    forall c | IsDigit(c) ensures !IsBreak(c) {}
  }

  lemma BadHeaderAlone(line: string)
    requires "@@" <= line && ParseHeader(line).Failure?
    ensures Parse([line], Fresh) == Parsed([], Some(ParseHeader(line).error))
  {
    hide ParseHeader;
  }

  lemma NothingAppliedYet(lines: seq<string>)
    ensures ApplyHunks(lines, 0, [], []).Success?
  {
  }

  /** A patch made for a longer file: its second hunk starts beyond the end of this one. */
  lemma ShortFileIsIndexError(first: string, gap: seq<string>, later: string, oldName: string, newName: string)
    requires IsLine(first) && Terminated(first) && IsLine(later) && Terminated(later) && gap != []
    requires Readable(2 + |gap|)
    requires NoBreaks(oldName) && NoBreaks(newName)
    ensures var script := [Segment([], [Op(Context, first)]), Segment(gap, [Op(Context, later)])];
      ApplyPatch([first], Patch(script, oldName, newName)) == Failure(IndexError)
  {
    hide ApplyPatch, ApplyHunks, AsRead, Patch, PatchLines, IsLine, NoBreaks, Terminated, OldLines, NewLines, Kept;
    var a, b := [Op(Context, first)], [Op(Context, later)];
    var script := [Segment([], a), Segment(gap, b)];
    PatchTerminated(script, oldName, newName);
    ContextOnly(first);
    ContextOnly(later);
    OneSegment(gap, b);
    assert script[1..] == [Segment(gap, b)] && |Left(script, [])| == 2 + |gap|;
    PatchRuns([first], script, oldName, newName);
    assert script == [Segment([], a)] + [Segment(gap, b)] && [Segment(gap, b)] + [] == [Segment(gap, b)];
    ReadOne([], a, [Segment(gap, b)], 0);
    ReadOne(gap, b, [], 1);
    var hunks := [Hunk(0, a)] + [Hunk(1 + |gap|, b)];
    assert AsRead(script, 0) == hunks;
    ContextStays([first], 0);
    assert hunks[..1] == [Hunk(0, a)] && [first][0] == first;
    assert Overshoots([first], 0, hunks, [], 1);
    OvershootIff([first], 0, hunks, []);
  }

  lemma {:induction false} PrefixKeepsLine(s: string, line: string)
    requires NoBreaks(s) && IsLine(line)
    ensures IsLine(s + line)
  {
    if s == "" {
      assert s + line == line;
    } else {
      PrefixKeepsLine(s[1..], line);
      assert [s[0]] + (s[1..] + line) == s + line;
      PrefixedLine(s[0], s[1..] + line);
    }
  }

  /** A last line without a line break, deleted and replaced: printed, it runs together with the line that
      replaces it, and is not found in the file. */
  lemma UnterminatedDeletionMisfits(gone: string, added: string, oldName: string, newName: string)
    requires gone != "" && NoBreaks(gone) && !("--" <= gone) && IsLine(added) && Terminated(added)
    requires NoBreaks(oldName) && NoBreaks(newName)
    ensures var script := [Segment([], [Op(Delete, gone), Op(Add, added)])];
      Left(script, []) == [gone] && Right(script, []) == [added]
      && ApplyPatch([gone], Patch(script, oldName, newName)) == Failure(Mismatch(false, 0))
  {
    hide *;
    var both := gone + ("+" + added);
    var a, b, h := "--- " + oldName + "\n", "+++ " + newName + "\n", Header(0, 1, 0, 1);
    PrintedTogether(gone, added, oldName, newName);
    TogetherAreLines(gone, added, oldName, newName);
    SplitJoin([a, b, h, "-" + both]);
    NoMark(gone, "+" + added);
    ReadTogether(both, oldName, newName);
    NotTheLine(gone, both);
    RunsRead([gone], [Segment([], [Op(Delete, gone), Op(Add, added)])], oldName, newName, [a, b, h, "-" + both]);
  }

  lemma PrintedTogether(gone: string, added: string, oldName: string, newName: string)
    ensures var script := [Segment([], [Op(Delete, gone), Op(Add, added)])];
      var a, b, h := "--- " + oldName + "\n", "+++ " + newName + "\n", Header(0, 1, 0, 1);
      Left(script, []) == [gone] && Right(script, []) == [added]
      && Patch(script, oldName, newName) == Join([a, b, h, "-" + (gone + ("+" + added))])
  {
    hide Header, Range;
    var ops, rest := [Op(Delete, gone), Op(Add, added)], [Op(Add, added)];
    var script := [Segment([], ops)];
    assert ops[1..] == rest && rest[1..] == [] && script[1..] == [];
    assert OldLines(rest) == [] && NewLines(rest) == [added];
    assert OldLines(ops) == [gone] && NewLines(ops) == [added];
    assert OpLines(rest) == ["+" + added] && OpLines(ops) == ["-" + gone] + ["+" + added];
    var a, b, h := "--- " + oldName + "\n", "+++ " + newName + "\n", Header(0, 1, 0, 1);
    assert HunkLines(script, 0, 0) == [h] + (OpLines(ops) + []);
    assert PatchLines(script, oldName, newName) == [a, b, h, "-" + gone, "+" + added];
    JoinFour(a, b, h, "-" + gone, "+" + added);
    assert "-" + gone + ("+" + added) == "-" + (gone + ("+" + added));
  }

  lemma NoMark(gone: string, rest: string)
    requires gone != "" && !("--" <= gone) && rest != "" && rest[0] == '+'
    ensures !("--" <= gone + rest)
  {
    var both := gone + rest;
    assert "--"[1] == '-';
    assert |gone| == 1 ==> both[1] == '+';
    assert |gone| >= 2 ==> both[..2] == gone[..2];
  }

  lemma JoinCons(x: string, rest: seq<string>)
    ensures Join([x] + rest) == x + Join(rest) && Join([]) == ""
  {
    assert ([x] + rest)[1..] == rest;
  }

  lemma JoinFour(a: string, b: string, c: string, d: string, e: string)
    ensures Join([a, b, c, d, e]) == Join([a, b, c, d + e])
  {
    hide Join;
    JoinCons(a, [b] + ([c] + ([d] + [e])));
    JoinCons(b, [c] + ([d] + [e]));
    JoinCons(c, [d] + [e]);
    JoinCons(d, [e]);
    JoinCons(e, []);
    JoinCons(a, [b] + ([c] + [d + e]));
    JoinCons(b, [c] + [d + e]);
    JoinCons(c, [d + e]);
    JoinCons(d + e, []);
    assert [a, b, c, d, e] == [a] + ([b] + ([c] + ([d] + [e]))) && [a, b, c, d + e] == [a] + ([b] + ([c] + [d + e]));
    assert [e] + [] == [e] && [d + e] + [] == [d + e];
    assert d + (e + "") == d + e + "";
  }

  lemma TogetherAreLines(gone: string, added: string, oldName: string, newName: string)
    requires NoBreaks(gone) && IsLine(added) && NoBreaks(oldName) && NoBreaks(newName)
    ensures var a, b, last := "--- " + oldName + "\n", "+++ " + newName + "\n", "-" + (gone + ("+" + added));
      var raws := [a, b, Header(0, 1, 0, 1), last];
      AllButLastTerminated(raws) && forall raw :: raw in raws ==> IsLine(raw) && raw[0] != '\n'
  {
    hide IsLine, Header;
    PlainLine("--- " + oldName);
    PlainLine("+++ " + newName);
    HeaderIsLine(0, 1, 0, 1);
    PrefixKeepsLine("+", added);
    PrefixKeepsLine(gone, "+" + added);
    PrefixKeepsLine("-", gone + ("+" + added));
  }

  lemma ReadTogether(both: string, oldName: string, newName: string)
    requires !("--" <= both)
    ensures var raws := ["--- " + oldName + "\n", "+++ " + newName + "\n", Header(0, 1, 0, 1), "-" + both];
      Parse(raws, Fresh) == Parsed([Hunk(0, [Op(Delete, both)])], None)
  {
    hide *;
    var a, b, h, g := "---" + (" " + oldName + "\n"), "+++" + (" " + newName + "\n"), Header(0, 1, 0, 1), "-" + both;
    var opened_, filled := ParseState([], 0, true), ParseState([Op(Delete, both)], 0, true);
    NameIgnored("---", " " + oldName + "\n");
    NameIgnored("+++", " " + newName + "\n");
    HeaderThenDeletion(both);
    ParseStep(a, [b] + ([h] + [g]), Fresh, Fresh, []);
    ParseStep(b, [h] + [g], Fresh, Fresh, []);
    ParseStep(h, [g], Fresh, opened_, []);
    ParseStep(g, [], opened_, filled, []);
    assert [a] + ([b] + ([h] + [g])) == [a, b, h, g] && [g] + [] == [g];
    assert a == "--- " + oldName + "\n" && b == "+++ " + newName + "\n";
    assert [] + ([] + ([] + ([] + [Hunk(0, [Op(Delete, both)])]))) == [Hunk(0, [Op(Delete, both)])];
  }

  lemma HeaderThenDeletion(both: string)
    requires !("--" <= both)
    ensures var opened_, filled := ParseState([], 0, true), ParseState([Op(Delete, both)], 0, true);
      Consume(Fresh, Header(0, 1, 0, 1)) == (opened_, Success([]))
      && Consume(opened_, "-" + both) == (filled, Success([]))
      && Parse([], filled) == Parsed([Hunk(0, [Op(Delete, both)])], None)
  {
    hide Header, Consume, ParseHeader;
    ConsumeHeader(Fresh, 0, 1, 0, 1);
    DeletionRead(both);
  }

  lemma DeletionRead(both: string)
    requires !("--" <= both)
    ensures Consume(ParseState([], 0, true), "-" + both) == (ParseState([Op(Delete, both)], 0, true), Success([]))
  {
    hide Consume;
    ConsumeOp(ParseState([], 0, true), Op(Delete, both));
    assert [Prefix(Delete)] + both == "-" + both && [] + [Op(Delete, both)] == [Op(Delete, both)];
  }

  lemma NotTheLine(gone: string, both: string)
    requires gone != both
    ensures ApplyHunks([gone], 0, [Hunk(0, [Op(Delete, both)])], []) == Failure(Mismatch(false, 0))
  {
  }

  lemma RunsRead(lines: seq<string>, script: seq<Segment>, oldName: string, newName: string, raws: seq<string>)
    requires SplitLines(Patch(script, oldName, newName)) == raws && Parse(raws, Fresh).error.None?
    ensures ApplyPatch(lines, Patch(script, oldName, newName)) == ApplyHunks(lines, 0, Parse(raws, Fresh).hunks, [])
  {
    hide Parse, ApplyHunks, Patch;
  }
}
