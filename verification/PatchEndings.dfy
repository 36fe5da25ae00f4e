/** Last lines without a line break in a printed patch, and the round trip of whole texts. */
module PatchEndings {
  import opened Wrappers
  import opened PatchText
  import opened UnifiedDiff
  import opened PatchModel
  import opened PatchRoundTrip
  import opened PatchResult

  predicate Loose(line: string) {
    line != "" && !Terminated(line)
  }

  function LooseLines(lines: seq<string>): nat {
    if lines == [] then 0 else (if Loose(lines[0]) then 1 else 0) + LooseLines(lines[1..])
  }

  /** How many operations of the kind have a line without its ending. */
  function LooseOps(ops: seq<Op>, kind: OpKind): nat {
    if ops == [] then 0
    else (if ops[0].kind == kind && Loose(ops[0].line) then 1 else 0) + LooseOps(ops[1..], kind)
  }

  function LooseIn(script: seq<Segment>, kind: OpKind): nat {
    if script == [] then 0 else LooseOps(script[0].ops, kind) + LooseIn(script[1..], kind)
  }

  function AllLoose(ops: seq<Op>): nat {
    LooseOps(ops, Context) + LooseOps(ops, Delete) + LooseOps(ops, Add)
  }

  function LooseInAll(script: seq<Segment>): nat {
    LooseIn(script, Context) + LooseIn(script, Delete) + LooseIn(script, Add)
  }

  lemma {:induction false} LooseConcat(a: seq<string>, b: seq<string>)
    ensures LooseLines(a + b) == LooseLines(a) + LooseLines(b)
  {
    if a == [] {
      assert a + b == b;
    } else {
      LooseConcat(a[1..], b);
      assert (a + b)[1..] == a[1..] + b;
    }
  }

  // ---------------------------------------------------------------- texts

  lemma {:induction false} LooseLast(lines: seq<string>)
    requires AllButLastTerminated(lines)
    ensures LooseLines(lines) == if lines != [] && Loose(lines[|lines|-1]) then 1 else 0
  {
    if |lines| > 1 {
      assert forall i :: 0 <= i < |lines[1..]| - 1 ==> lines[1..][i] == lines[i+1];
      LooseLast(lines[1..]);
      assert Terminated(lines[0]);
    }
  }

  /** A line without its ending before the last one shows in the count. */
  lemma {:induction false} LooseInside(lines: seq<string>)
    requires !AllButLastTerminated(lines) && forall line :: line in lines ==> line != ""
    ensures LooseLines(lines) > if Loose(lines[|lines|-1]) then 1 else 0
  {
    if Terminated(lines[0]) {
      var i :| 0 <= i < |lines| - 1 && !Terminated(lines[i]);
      assert lines[1..][i-1] == lines[i];
      assert forall line :: line in lines[1..] ==> line in lines;
      LooseInside(lines[1..]);
    } else {
      assert lines[0] in lines;
      LastCounts(lines[1..]);
    }
  }

  lemma {:induction false} LastCounts(lines: seq<string>)
    requires lines != []
    ensures Loose(lines[|lines|-1]) ==> LooseLines(lines) >= 1
  {
    if |lines| > 1 { LastCounts(lines[1..]); }
  }

  lemma {:induction false} SplitEnds(s: string)
    requires s != ""
    ensures var lines := SplitLines(s);
      lines != [] && lines[|lines|-1] != "" && lines[|lines|-1][|lines[|lines|-1]|-1] == s[|s|-1]
    decreases |s|
  {
    hide FirstLine;
    var rest := s[FirstLine(s)..];
    if rest != "" { SplitEnds(rest); }
  }

  lemma {:induction false} JoinEnds(lines: seq<string>)
    requires lines != [] && lines[|lines|-1] != ""
    ensures var s, last := Join(lines), lines[|lines|-1]; s != "" && s[|s|-1] == last[|last|-1]
  {
    if |lines| > 1 {
      JoinEnds(lines[1..]);
    } else {
      assert lines[1..] == [];
    }
  }

  /** However lines run together, of those found again at most the last lacks its ending. */
  lemma FoundLoose(lines: seq<string>)
    requires lines != [] && lines[|lines|-1] != ""
    ensures LooseLines(SplitLines(Join(lines))) == if Loose(lines[|lines|-1]) then 1 else 0
  {
    hide SplitLines, Join, LooseLines, IsBreak;
    JoinEnds(lines);
    SplitEnds(Join(lines));
    SplitLinesEnd(Join(lines));
    LooseLast(SplitLines(Join(lines)));
  }

  // ---------------------------------------------------------------- reading

  function LooseRead(hunks: seq<Hunk>): nat {
    if hunks == [] then 0 else AllLoose(hunks[0].ops) + LooseRead(hunks[1..])
  }

  lemma {:induction false} LooseAppend(ops: seq<Op>, op: Op, kind: OpKind)
    ensures LooseOps(ops + [op], kind) == LooseOps(ops, kind) + if op.kind == kind && Loose(op.line) then 1 else 0
  {
    if ops == [] {
      assert ops + [op] == [op] && [op][1..] == [];
    } else {
      LooseAppend(ops[1..], op, kind);
      assert (ops + [op])[1..] == ops[1..] + [op];
    }
  }

  lemma AllAppend(ops: seq<Op>, op: Op)
    ensures AllLoose(ops + [op]) == AllLoose(ops) + if Loose(op.line) then 1 else 0
  {
    hide LooseOps;
    LooseAppend(ops, op, Context);
    LooseAppend(ops, op, Delete);
    LooseAppend(ops, op, Add);
  }

  /** A line adds an operation without an ending only if it has none itself. */
  lemma ConsumeLoose(st: ParseState, raw: string)
    ensures var (after, r) := Consume(st, raw);
      r.Success? ==> LooseRead(r.value) + AllLoose(after.buffer) <= AllLoose(st.buffer) + if Loose(raw) then 1 else 0
  {
    hide ParseHeader, AllLoose, Terminated;
    assert AllLoose([]) == 0 by { Nothing(); }
    assert [Hunk(st.start, st.buffer)][1..] == [];
    if raw != "" && KindOf(raw[0]).Some? {
      AllAppend(st.buffer, Op(KindOf(raw[0]).value, raw[1..]));
      assert Loose(raw[1..]) ==> Loose(raw) by { Suffix(raw); }
    }
  }

  lemma Nothing()
    ensures AllLoose([]) == 0
  {
  }

  lemma Suffix(raw: string)
    requires raw != ""
    ensures Loose(raw[1..]) ==> Loose(raw)
  {
  }

  lemma {:induction false} ReadConcat(a: seq<Hunk>, b: seq<Hunk>)
    ensures LooseRead(a + b) == LooseRead(a) + LooseRead(b)
  {
    if a == [] {
      assert a + b == b;
    } else {
      ReadConcat(a[1..], b);
      assert (a + b)[1..] == a[1..] + b;
    }
  }

  lemma {:induction false} ParseLoose(raws: seq<string>, st: ParseState)
    ensures LooseRead(Parse(raws, st).hunks) <= AllLoose(st.buffer) + LooseLines(raws)
    decreases |raws|
  {
    hide Consume, AllLoose, Loose;
    if raws != [] {
      var (after, r) := Consume(st, raws[0]);
      ConsumeLoose(st, raws[0]);
      if r.Success? {
        ParseLoose(raws[1..], after);
        ReadConcat(r.value, Parse(raws[1..], after).hunks);
      }
    } else {
      assert [Hunk(st.start, st.buffer)][1..] == [];
    }
  }

  // ---------------------------------------------------------------- printing

  lemma {:induction false} OpLinesLoose(ops: seq<Op>)
    requires forall op :: op in ops ==> IsLine(op.line)
    ensures LooseLines(OpLines(ops)) == AllLoose(ops)
    ensures ops != [] ==>
      OpLines(ops) != [] && (Loose(OpLines(ops)[|OpLines(ops)|-1]) <==> Loose(ops[|ops|-1].line))
  {
    hide FirstLine, IsBreak;
    if ops != [] {
      assert ops[0] in ops;
      OpLinesLoose(ops[1..]);
      var line := ops[0].line;
      assert ([Prefix(ops[0].kind)] + line)[|line|] == line[|line|-1];
      assert OpLines(ops)[1..] == OpLines(ops[1..]);
    }
  }

  lemma {:induction false} HunkLinesLoose(script: seq<Segment>, oldOffset: nat, newOffset: nat)
    requires OpsAreLines(script)
    ensures LooseLines(HunkLines(script, oldOffset, newOffset)) == LooseInAll(script)
    decreases |script|
  {
    hide *;
    if script != [] {
      var gap, ops := |script[0].gap|, script[0].ops;
      var oldLength, newLength := |OldLines(ops)|, |NewLines(ops)|;
      var header := Header(oldOffset + gap, oldLength, newOffset + gap, newLength);
      var later := HunkLines(script[1..], oldOffset + gap + oldLength, newOffset + gap + newLength);
      OpsAreLinesSplit(script);
      HunkLinesLoose(script[1..], oldOffset + gap + oldLength, newOffset + gap + newLength);
      OpLinesLoose(ops);
      Unfold(script, oldOffset, newOffset);
      HeaderIsLine(oldOffset + gap, oldLength, newOffset + gap, newLength);
      LooseConcat(OpLines(ops), later);
      LooseConcat([header], OpLines(ops) + later);
      NotLoose(header);
    }
    SumParts(script, oldOffset, newOffset);
  }

  lemma NotLoose(line: string)
    requires Terminated(line)
    ensures LooseLines([line]) == 0
  {
    assert [line][1..] == [];
  }

  lemma SumParts(script: seq<Segment>, oldOffset: nat, newOffset: nat)
    ensures script == [] ==> LooseLines(HunkLines(script, oldOffset, newOffset)) == LooseInAll(script)
    ensures script != [] ==> LooseInAll(script) == AllLoose(script[0].ops) + LooseInAll(script[1..])
  {
    hide LooseOps;
  }

  lemma PatchLinesLoose(script: seq<Segment>, oldName: string, newName: string)
    requires OpsAreLines(script)
    ensures LooseLines(PatchLines(script, oldName, newName)) == LooseInAll(script)
  {
    hide HunkLines, OpsAreLines, IsBreak;
    HunkLinesLoose(script, 0, 0);
    if script != [] {
      var a, b := "--- " + oldName + "\n", "+++ " + newName + "\n";
      assert Terminated(a) && Terminated(b) by { BreakEnds(); }
      LooseConcat([a, b], HunkLines(script, 0, 0));
      assert [a, b][1..] == [b] && [b][1..] == [];
    }
  }

  lemma BreakEnds()
    ensures IsBreak('\n')
  {
  }

  // ---------------------------------------------------------------- operations that must show

  function Count(ops: seq<Op>, kind: OpKind, line: string): nat {
    if ops == [] then 0 else (if ops[0] == Op(kind, line) then 1 else 0) + Count(ops[1..], kind, line)
  }

  function Total(script: seq<Segment>, kind: OpKind, line: string): nat {
    if script == [] then 0 else Count(script[0].ops, kind, line) + Total(script[1..], kind, line)
  }

  lemma {:induction false} OpsBalance(ops: seq<Op>, line: string)
    ensures multiset(NewLines(ops))[line] + Count(ops, Delete, line)
         == multiset(OldLines(ops))[line] + Count(ops, Add, line)
  {
    if ops != [] { OpsBalance(ops[1..], line); }
  }

  lemma {:induction false} ScriptBalance(script: seq<Segment>, tail: seq<string>, line: string)
    ensures multiset(Right(script, tail))[line] + Total(script, Delete, line)
         == multiset(Left(script, tail))[line] + Total(script, Add, line)
  {
    hide OldLines, NewLines, Count;
    if script != [] {
      OpsBalance(script[0].ops, line);
      ScriptBalance(script[1..], tail, line);
    }
  }

  lemma {:induction false} CountedOp(ops: seq<Op>, kind: OpKind) returns (line: string)
    ensures LooseOps(ops, kind) > 0 ==> Loose(line) && Count(ops, kind, line) > 0 && Op(kind, line) in ops
  {
    line := "";
    if ops != [] {
      if ops[0].kind == kind && Loose(ops[0].line) {
        line := ops[0].line;
        assert ops[0] == Op(kind, line);
      } else {
        line := CountedOp(ops[1..], kind);
      }
    }
  }

  /** If an operation of the kind has a line without its ending, here is the line. */
  lemma {:induction false} CountedIn(script: seq<Segment>, kind: OpKind) returns (line: string)
    ensures LooseIn(script, kind) > 0 ==>
      Loose(line) && Total(script, kind, line) > 0 && exists i :: 0 <= i < |script| && Op(kind, line) in script[i].ops
  {
    line := "";
    if script != [] {
      if LooseOps(script[0].ops, kind) > 0 {
        line := CountedOp(script[0].ops, kind);
      } else {
        line := CountedIn(script[1..], kind);
        if LooseIn(script, kind) > 0 {
          var i :| 0 <= i < |script[1..]| && Op(kind, line) in script[1..][i].ops;
          assert script[i+1] == script[1..][i];
        }
      }
    }
  }

  lemma {:induction false} CountIsLoose(ops: seq<Op>, kind: OpKind, line: string)
    requires Loose(line)
    ensures Count(ops, kind, line) <= LooseOps(ops, kind)
    ensures Count(ops, kind, line) > 0 ==> Op(kind, line) in ops
  {
    if ops != [] { CountIsLoose(ops[1..], kind, line); }
  }

  lemma {:induction false} TotalIsLoose(script: seq<Segment>, kind: OpKind, line: string)
    requires Loose(line)
    ensures Total(script, kind, line) <= LooseIn(script, kind)
    ensures Total(script, kind, line) > 0 ==> exists i :: 0 <= i < |script| && Op(kind, line) in script[i].ops
  {
    if script != [] {
      CountIsLoose(script[0].ops, kind, line);
      TotalIsLoose(script[1..], kind, line);
      if Count(script[0].ops, kind, line) == 0 && Total(script, kind, line) > 0 {
        var i :| 0 <= i < |script[1..]| && Op(kind, line) in script[1..][i].ops;
        assert script[i+1] == script[1..][i];
      }
    }
  }

  /** No line without its ending is both deleted and added: where both texts end in the same such line, it
      is kept. */
  ghost predicate LastLineKept(script: seq<Segment>) {
    forall i, j, line :: 0 <= i < |script| && 0 <= j < |script| ==>
      Op(Delete, line) in script[i].ops && Op(Add, line) in script[j].ops ==> Terminated(line)
  }

  /** What one script deletes or adds without its ending, any other script from the same text to the same text
      deletes or adds as well. */
  lemma {:induction false} LooseShows(script: seq<Segment>, tail: seq<string>, other: seq<Segment>,
                                      rest: seq<string>, kind: OpKind)
    requires LastLineKept(script) && !kind.Context? && LooseIn(script, kind) > 0
    requires Left(script, tail) == Left(other, rest) && Right(script, tail) == Right(other, rest)
    ensures LooseIn(other, kind) > 0
  {
    hide Left, Right, Total, LooseIn, Terminated;
    var line := CountedIn(script, kind);
    var against := if kind.Delete? then Add else Delete;
    ScriptBalance(script, tail, line);
    ScriptBalance(other, rest, line);
    TotalIsLoose(script, against, line);
    TotalIsLoose(other, kind, line);
    assert Total(script, against, line) == 0;
  }

  // ---------------------------------------------------------------- what whole texts allow

  lemma {:induction false} OpsLoose(ops: seq<Op>)
    ensures LooseLines(OldLines(ops)) == LooseOps(ops, Context) + LooseOps(ops, Delete)
    ensures LooseLines(NewLines(ops)) == LooseOps(ops, Context) + LooseOps(ops, Add)
  {
    hide Loose;
    if ops != [] {
      OpsLoose(ops[1..]);
      var one := [ops[0].line];
      assert one[1..] == [];
      LooseConcat(one, OldLines(ops[1..]));
      LooseConcat(one, NewLines(ops[1..]));
      assert [] + OldLines(ops[1..]) == OldLines(ops[1..]) && [] + NewLines(ops[1..]) == NewLines(ops[1..]);
    }
  }

  lemma {:induction false} ScriptLoose(script: seq<Segment>, tail: seq<string>)
    ensures LooseIn(script, Context) + LooseIn(script, Delete) <= LooseLines(Left(script, tail))
    ensures LooseIn(script, Context) + LooseIn(script, Add) <= LooseLines(Right(script, tail))
  {
    hide OldLines, NewLines, LooseOps, LooseLines;
    if script != [] {
      var gap, ops := script[0].gap, script[0].ops;
      ScriptLoose(script[1..], tail);
      OpsLoose(ops);
      LooseConcat(gap + OldLines(ops), Left(script[1..], tail));
      LooseConcat(gap, OldLines(ops));
      LooseConcat(gap + NewLines(ops), Right(script[1..], tail));
      LooseConcat(gap, NewLines(ops));
    }
  }

  lemma SuffixTerminated(a: seq<string>, b: seq<string>)
    requires AllButLastTerminated(a + b)
    ensures AllButLastTerminated(b)
  {
    forall i | 0 <= i < |b| - 1 ensures Terminated(b[i]) {
      assert (a + b)[|a| + i] == b[i];
    }
  }

  /** A line without its ending that both texts keep is the last of both. */
  lemma {:induction false} OpsKeepLast(ops: seq<Op>, restLeft: seq<string>, restRight: seq<string>)
    requires AllButLastTerminated(OldLines(ops) + restLeft) && AllButLastTerminated(NewLines(ops) + restRight)
    requires LooseOps(ops, Context) > 0
    ensures restLeft == [] && restRight == [] && Loose(ops[|ops|-1].line)
  {
    hide IsBreak;
    var op, more := ops[0], ops[1..];
    var x, y := if op.kind.Add? then [] else [op.line], if op.kind.Delete? then [] else [op.line];
    assert OldLines(ops) + restLeft == x + (OldLines(more) + restLeft);
    assert NewLines(ops) + restRight == y + (NewLines(more) + restRight);
    SuffixTerminated(x, OldLines(more) + restLeft);
    SuffixTerminated(y, NewLines(more) + restRight);
    if LooseOps(more, Context) > 0 {
      OpsKeepLast(more, restLeft, restRight);
    } else {
      assert (OldLines(ops) + restLeft)[0] == op.line && (NewLines(ops) + restRight)[0] == op.line;
      assert OldLines(more) + restLeft == [] && NewLines(more) + restRight == [];
      assert more == [];
    }
  }

  /** So the operation that keeps it is the last line of the patch. */
  lemma {:induction false} ScriptKeepsLast(script: seq<Segment>, tail: seq<string>, oldOffset: nat, newOffset: nat)
    requires AllButLastTerminated(Left(script, tail)) && AllButLastTerminated(Right(script, tail))
    requires NoEmptyHunk(script) && OpsAreLines(script) && LooseIn(script, Context) > 0
    ensures var raws := HunkLines(script, oldOffset, newOffset); raws != [] && Loose(raws[|raws|-1])
    decreases |script|
  {
    hide OldLines, NewLines, LooseOps, OpLines, Header, Terminated, IsLine;
    var gap, ops, more := script[0].gap, script[0].ops, script[1..];
    var left, right := Left(more, tail), Right(more, tail);
    var oldNext, newNext := oldOffset + |gap| + |OldLines(ops)|, newOffset + |gap| + |NewLines(ops)|;
    var later := HunkLines(more, oldNext, newNext);
    assert Left(script, tail) == gap + (OldLines(ops) + left) && Right(script, tail) == gap + (NewLines(ops) + right);
    SuffixTerminated(gap, OldLines(ops) + left);
    SuffixTerminated(gap, NewLines(ops) + right);
    SuffixTerminated(OldLines(ops), left);
    SuffixTerminated(NewLines(ops), right);
    OpsAreLinesSplit(script);
    assert forall i :: 0 <= i < |more| ==> more[i] == script[i+1];
    if LooseIn(more, Context) > 0 {
      ScriptKeepsLast(more, tail, oldNext, newNext);
    } else {
      OpsKeepLast(ops, left, right);
      NothingLeft(more, tail);
      OpLinesLoose(ops);
      assert later == [];
    }
  }

  lemma {:induction false} NothingLeft(script: seq<Segment>, tail: seq<string>)
    requires NoEmptyHunk(script)
    ensures script != [] ==> Left(script, tail) != [] || Right(script, tail) != []
  {
    if script != [] {
      assert script[0].ops != [];
      assert OldLines(script[0].ops) != [] || NewLines(script[0].ops) != [];
    }
  }

  // ---------------------------------------------------------------- the round trip

  lemma {:induction false} SameLoose(hunks: seq<Hunk>, script: seq<Segment>)
    requires |script| == |hunks| && forall i :: 0 <= i < |hunks| ==> script[i].ops == hunks[i].ops
    ensures LooseRead(hunks) == LooseInAll(script)
  {
    hide LooseOps;
    if hunks != [] { SameLoose(hunks[1..], script[1..]); }
  }

  /** Lines of the patch that run together show: the patch does not give the new text. */
  lemma {:induction false} TogetherShows(script: seq<Segment>, tail: seq<string>, oldName: string, newName: string)
    requires NoEmptyHunk(script) && OpsAreLines(script) && NoBreaks(oldName) && NoBreaks(newName)
    requires AllButLastTerminated(Left(script, tail)) && AllButLastTerminated(Right(script, tail))
    requires LastLineKept(script) && !AllButLastTerminated(PatchLines(script, oldName, newName))
    ensures ApplyPatch(Left(script, tail), Patch(script, oldName, newName)) != Success(Right(script, tail))
  {
    hide *;
    var old_, raws := Left(script, tail), PatchLines(script, oldName, newName);
    LooseCounted(script, oldName, newName);
    if ApplyPatch(old_, Patch(script, oldName, newName)) == Success(Right(script, tail)) {
      var hunks := Parse(SplitLines(Join(raws)), Fresh).hunks;
      AppliedHunks(old_, script, oldName, newName);
      var read, rest := AppliedIsScript(old_, 0, hunks, []);
      assert old_[0..] == old_ && [] + Right(read, rest) == Right(read, rest);
      SameLoose(hunks, read);
      LooseFits(script, tail, oldName, newName);
      if LooseIn(script, Delete) > 0 { LooseShows(script, tail, read, rest, Delete); }
      if LooseIn(script, Add) > 0 { LooseShows(script, tail, read, rest, Add); }
      SumOf(script);
      SumOf(read);
    }
  }

  lemma SumOf(script: seq<Segment>)
    ensures LooseInAll(script) == LooseIn(script, Context) + LooseIn(script, Delete) + LooseIn(script, Add)
  {
  }

  lemma AppliedHunks(lines: seq<string>, script: seq<Segment>, oldName: string, newName: string)
    ensures var parsed := Parse(SplitLines(Join(PatchLines(script, oldName, newName))), Fresh);
      ApplyPatch(lines, Patch(script, oldName, newName)).Success? ==>
        ApplyHunks(lines, 0, parsed.hunks, []) == ApplyPatch(lines, Patch(script, oldName, newName))
  {
    hide Parse, ApplyHunks, SplitLines, PatchLines;
  }

  /** Fewer operations without an ending are read than were printed. */
  lemma {:induction false} LooseCounted(script: seq<Segment>, oldName: string, newName: string)
    requires OpsAreLines(script) && NoBreaks(oldName) && NoBreaks(newName)
    requires !AllButLastTerminated(PatchLines(script, oldName, newName))
    ensures var raws := PatchLines(script, oldName, newName);
      raws != [] && LooseRead(Parse(SplitLines(Join(raws)), Fresh).hunks) <= 1
      && LooseRead(Parse(SplitLines(Join(raws)), Fresh).hunks) < LooseInAll(script)
      && LooseInAll(script) > if Loose(raws[|raws|-1]) then 1 else 0
  {
    hide PatchLines, Parse, SplitLines, Join, IsLine, OpsAreLines, NoBreaks, LooseLines, LooseInAll, LooseRead, Loose;
    var raws := PatchLines(script, oldName, newName);
    PatchLinesAreLines(script, oldName, newName);
    assert forall raw :: raw in raws ==> raw != "" by { LinesAreNotEmpty(raws); }
    PatchLinesLoose(script, oldName, newName);
    LooseInside(raws);
    assert raws[|raws|-1] in raws;
    FoundLoose(raws);
    ParseLoose(SplitLines(Join(raws)), Fresh);
    Nothing();
  }

  lemma LinesAreNotEmpty(raws: seq<string>)
    requires AreLines(raws)
    ensures forall raw :: raw in raws ==> raw != ""
  {
  }

  /** Of each kind there is at most one, and none is kept. */
  lemma {:induction false} LooseFits(script: seq<Segment>, tail: seq<string>, oldName: string, newName: string)
    requires NoEmptyHunk(script) && OpsAreLines(script) && PatchLines(script, oldName, newName) != []
    requires AllButLastTerminated(Left(script, tail)) && AllButLastTerminated(Right(script, tail))
    requires var raws := PatchLines(script, oldName, newName);
      LooseInAll(script) > if Loose(raws[|raws|-1]) then 1 else 0
    ensures LooseIn(script, Context) == 0 && LooseIn(script, Delete) <= 1 && LooseIn(script, Add) <= 1
  {
    hide Left, Right, LooseIn, HunkLines, Loose, NoEmptyHunk, OpsAreLines;
    ScriptLoose(script, tail);
    LooseLast(Left(script, tail));
    LooseLast(Right(script, tail));
    if LooseIn(script, Context) > 0 { ScriptKeepsLast(script, tail, 0, 0); }
  }

  /** The line has to be kept: a script that deletes a last line starting with `--` and adds it again prints two
      lines that run together, are skipped together, and so do no harm. */
  lemma SkippedTogether(line: string, oldName: string, newName: string)
    requires NoBreaks(line) && "--" <= line && NoBreaks(oldName) && NoBreaks(newName)
    ensures var script := [Segment([], [Op(Delete, line), Op(Add, line)])];
      && Left(script, []) == [line] && Right(script, []) == [line]
      && !AllButLastTerminated(PatchLines(script, oldName, newName))
      && ApplyPatch([line], Patch(script, oldName, newName)) == Success([line])
  {
    hide *;
    var script := [Segment([], [Op(Delete, line), Op(Add, line)])];
    var a, b, h := "--- " + oldName + "\n", "+++ " + newName + "\n", Header(0, 1, 0, 1);
    var both := "-" + (line + ("+" + line));
    PrintedTogether(line, line, oldName, newName);
    PlainIsLine(line);
    TogetherAreLines(line, line, oldName, newName);
    SplitJoin([a, b, h, both]);
    TogetherSkipped(line, oldName, newName);
    RunsRead([line], script, oldName, newName, [a, b, h, both]);
    NothingApplied([line]);
  }

  lemma {:induction false} PlainIsLine(s: string)
    requires s != "" && NoBreaks(s)
    ensures IsLine(s) && !Terminated(s)
  {
    if |s| > 1 { PlainIsLine(s[1..]); }
  }

  lemma NothingApplied(lines: seq<string>)
    ensures ApplyHunks(lines, 0, [], []) == Success(lines)
  {
    assert [] + lines[0..] == lines;
  }

  lemma TogetherSkipped(line: string, oldName: string, newName: string)
    requires NoBreaks(line) && "--" <= line
    ensures var raws := ["--- " + oldName + "\n", "+++ " + newName + "\n", Header(0, 1, 0, 1),
                         "-" + (line + ("+" + line))];
      Parse(raws, Fresh) == Parsed([], None)
    ensures !AllButLastTerminated(PatchLines([Segment([], [Op(Delete, line), Op(Add, line)])], oldName, newName))
  {
    hide *;
    var a, b, h := "---" + (" " + oldName + "\n"), "+++" + (" " + newName + "\n"), Header(0, 1, 0, 1);
    var both := line + ("+" + line);
    var begun := ParseState([], 0, true);
    NameIgnored("---", " " + oldName + "\n");
    NameIgnored("+++", " " + newName + "\n");
    OneIsReadable();
    ConsumeHeader(Fresh, 0, 1, 0, 1);
    SkippedRead(line, both, begun);
    ParseStep("-" + both, [], begun, begun, []);
    ParseStep(h, ["-" + both], Fresh, begun, []);
    ParseStep(b, [h] + ["-" + both], Fresh, Fresh, []);
    ParseStep(a, [b] + ([h] + ["-" + both]), Fresh, Fresh, []);
    assert a == "--- " + oldName + "\n" && b == "+++ " + newName + "\n";
    assert [a] + ([b] + ([h] + ["-" + both])) == [a, b, h, "-" + both] && ["-" + both] + [] == ["-" + both];
    NotSeparate(line, oldName, newName);
  }

  lemma OneIsReadable()
    ensures Readable(0) && ReadStart(0, 1) == 0 && Pending(Fresh) == []
  {
  }

  lemma SkippedRead(line: string, both: string, st: ParseState)
    requires "--" <= line && line <= both && st == ParseState([], 0, true)
    ensures Consume(st, "-" + both) == (st, Success([])) && Parse([], st) == Parsed([], None)
  {
    hide Consume;
    ConsumeOp(st, Op(Delete, both));
    assert [Prefix(Delete)] + both == "-" + both;
    assert both[..2] == line[..2];
  }

  lemma NotSeparate(line: string, oldName: string, newName: string)
    requires line != "" && NoBreaks(line)
    ensures !AllButLastTerminated(PatchLines([Segment([], [Op(Delete, line), Op(Add, line)])], oldName, newName))
  {
    hide *;
    var ops, rest := [Op(Delete, line), Op(Add, line)], [Op(Add, line)];
    var script := [Segment([], ops)];
    UnfoldPatch(script, oldName, newName);
    Unfold(script, 0, 0);
    UnfoldOps(ops);
    UnfoldOps(rest);
    assert ops[1..] == rest;
    var raws := PatchLines(script, oldName, newName);
    assert OpLines(ops)[0] == [Prefix(Delete)] + line && |OpLines(ops)| >= 2;
    assert raws[3] == OpLines(ops)[0] && |raws| >= 5;
    PrefixedPlain(line);
    LineBefore(raws, 3);
  }

  lemma LineBefore(raws: seq<string>, i: nat)
    requires i + 1 < |raws| && !Terminated(raws[i])
    ensures !AllButLastTerminated(raws)
  {
    hide Terminated;
  }

  lemma PrefixedPlain(line: string)
    requires line != "" && NoBreaks(line)
    ensures !Terminated([Prefix(Delete)] + line)
  {
    assert ([Prefix(Delete)] + line)[|line|] == line[|line|-1];
  }

  /** Printing an edit script of two texts and applying the patch to the old one gives the new one exactly if
      all lines of the patch but the last have their endings, no line of the script looks like a file name,
      and every hunk without old lines is in place. */
  lemma RoundTripIff(script: seq<Segment>, tail: seq<string>, oldName: string, newName: string)
    requires NoEmptyHunk(script) && OpsAreLines(script) && NoBreaks(oldName) && NoBreaks(newName)
    requires AllButLastTerminated(Left(script, tail)) && AllButLastTerminated(Right(script, tail))
    requires LastLineKept(script) && Readable(|Left(script, tail)|)
    ensures ApplyPatch(Left(script, tail), Patch(script, oldName, newName)) == Success(Right(script, tail))
      <==> AllButLastTerminated(PatchLines(script, oldName, newName)) && NothingSkipped(script) && InPlace(script, [])
  {
    hide *;
    if AllButLastTerminated(PatchLines(script, oldName, newName)) {
      SeparateRoundTripIff(script, tail, oldName, newName);
    } else {
      TogetherShows(script, tail, oldName, newName);
    }
  }
}
