/** Reading a patch and applying it, as functions, and how they undo printing. */
module PatchModel {
  import opened Wrappers
  import opened PatchText
  import opened UnifiedDiff

  // ---------------------------------------------------------------- reading

  datatype ParseState = ParseState(buffer: seq<Op>, start: nat, inHunk: bool)

  /** The hunks read, and the error that ended the reading. */
  datatype Parsed = Parsed(hunks: seq<Hunk>, error: Option<PatchError>)

  const Fresh := ParseState([], 0, false)

  function KindOf(c: char): Option<OpKind> {
    if c == ' ' then Some(Context) else if c == '-' then Some(Delete) else if c == '+' then Some(Add) else None
  }

  /** The hunk under construction, if there is one. */
  function Pending(st: ParseState): seq<Hunk> {
    if st.inHunk && st.buffer != [] then [Hunk(st.start, st.buffer)] else []
  }

  /** `_consume_patch_line`: the state after a line, and the hunk the line completes. */
  function Consume(st: ParseState, raw: string): (ParseState, Result<seq<Hunk>, PatchError>) {
    if "@@" <= raw then
      var header := ParseHeader(raw);
      if header.Failure? then (st, Failure(header.error))
      else (ParseState([], header.value, true), Success(Pending(st)))
    else if "---" <= raw || "+++" <= raw || !st.inHunk || raw == "" then (st, Success([]))
    else if KindOf(raw[0]).None? then (st, Success([]))
    else (st.(buffer := st.buffer + [Op(KindOf(raw[0]).value, raw[1..])]), Success([]))
  }

  /** `_iter_hunks`. */
  function Parse(raws: seq<string>, st: ParseState): Parsed {
    if raws == [] then Parsed(Pending(st), None)
    else
      var (after, r) := Consume(st, raws[0]);
      if r.Failure? then Parsed([], Some(r.error))
      else
        var rest := Parse(raws[1..], after);
        Parsed(r.value + rest.hunks, rest.error)
  }

  // ---------------------------------------------------------------- what a patch holds

  /** The operation of a line inside a hunk: by its first character, unless it looks like a file name. */
  function OpOf(raw: string): Option<Op> {
    if "---" <= raw || "+++" <= raw || raw == "" then None
    else if raw[0] == ' ' then Some(Op(Context, raw[1..]))
    else if raw[0] == '-' then Some(Op(Delete, raw[1..]))
    else if raw[0] == '+' then Some(Op(Add, raw[1..]))
    else None
  }

  function OpsOf(body: seq<string>): seq<Op> {
    if body == [] then []
    else (if OpOf(body[0]).Some? then [OpOf(body[0]).value] else []) + OpsOf(body[1..])
  }

  /** A header and the lines up to the next one. */
  datatype Part = Part(header: string, body: seq<string>)

  function LinesOf(parts: seq<Part>): seq<string> {
    if parts == [] then [] else [parts[0].header] + parts[0].body + LinesOf(parts[1..])
  }

  ghost predicate NoHeader(body: seq<string>) {
    forall raw :: raw in body ==> !("@@" <= raw)
  }

  ghost predicate IsPart(part: Part) {
    "@@" <= part.header && ParseHeader(part.header).Success? && NoHeader(part.body)
  }

  ghost predicate AreParts(parts: seq<Part>) {
    forall part :: part in parts ==> IsPart(part)
  }

  /** One hunk for every header, where its old start says, of the operations below it if there are any. */
  function HunksIn(parts: seq<Part>): seq<Hunk> {
    if parts == [] then []
    else
      var ops, start := OpsOf(parts[0].body), ParseHeader(parts[0].header);
      (if ops == [] || start.Failure? then [] else [Hunk(start.value, ops)]) + HunksIn(parts[1..])
  }

  lemma BodyParts(body: seq<string>)
    requires body != [] && NoHeader(body)
    ensures !("@@" <= body[0]) && NoHeader(body[1..])
  {
    assert body[0] in body && forall raw :: raw in body[1..] ==> raw in body;
  }

  lemma ConsumeBody(st: ParseState, raw: string)
    requires st.inHunk && !("@@" <= raw)
    ensures Consume(st, raw) ==
      (st.(buffer := st.buffer + if OpOf(raw).Some? then [OpOf(raw).value] else []), Success([]))
  {
    assert st.buffer + [] == st.buffer;
  }

  lemma {:induction false} ParseBody(body: seq<string>, rest: seq<string>, st: ParseState)
    requires st.inHunk && NoHeader(body)
    ensures Parse(body + rest, st) == Parse(rest, st.(buffer := st.buffer + OpsOf(body)))
    decreases |body|
  {
    hide Consume, OpOf, NoHeader;
    if body == [] {
      assert body + rest == rest && st.buffer + [] == st.buffer;
    } else {
      var one := if OpOf(body[0]).Some? then [OpOf(body[0]).value] else [];
      var after := st.(buffer := st.buffer + one);
      BodyParts(body);
      ConsumeBody(st, body[0]);
      ParseBody(body[1..], rest, after);
      assert (body + rest)[0] == body[0] && (body + rest)[1..] == body[1..] + rest;
      assert after.buffer + OpsOf(body[1..]) == st.buffer + OpsOf(body);
      assert Parse(body + rest, st).hunks == [] + Parse(body[1..] + rest, after).hunks;
    }
  }

  lemma ConsumePrelude(raw: string)
    requires !("@@" <= raw)
    ensures Consume(Fresh, raw) == (Fresh, Success([]))
  {
  }

  /** Lines before the first header are passed over. */
  lemma {:induction false} ParsePrelude(prelude: seq<string>, rest: seq<string>)
    requires NoHeader(prelude)
    ensures Parse(prelude + rest, Fresh) == Parse(rest, Fresh)
  {
    hide Consume, NoHeader;
    if prelude == [] {
      assert prelude + rest == rest;
    } else {
      BodyParts(prelude);
      ConsumePrelude(prelude[0]);
      ParsePrelude(prelude[1..], rest);
      assert (prelude + rest)[0] == prelude[0] && (prelude + rest)[1..] == prelude[1..] + rest;
      assert Parse(prelude + rest, Fresh).hunks == [] + Parse(prelude[1..] + rest, Fresh).hunks;
    }
  }

  lemma FirstPart(parts: seq<Part>)
    requires parts != [] && AreParts(parts)
    ensures IsPart(parts[0]) && ParseHeader(parts[0].header).Success? && AreParts(parts[1..])
  {
    hide NoHeader, ParseHeader;
    assert parts[0] in parts;
  }

  lemma {:induction false} ParsePart(part: Part, rest: seq<string>, st: ParseState)
    requires IsPart(part)
    ensures var after := ParseState(OpsOf(part.body), ParseHeader(part.header).value, true);
      Parse([part.header] + part.body + rest, st)
      == Parsed(Pending(st) + Parse(rest, after).hunks, Parse(rest, after).error)
  {
    hide OpsOf, ParseHeader, NoHeader;
    var opened_ := ParseState([], ParseHeader(part.header).value, true);
    var raws := [part.header] + part.body + rest;
    assert raws[0] == part.header && raws[1..] == part.body + rest;
    ParseBody(part.body, rest, opened_);
    assert [] + OpsOf(part.body) == OpsOf(part.body);
  }

  lemma {:induction false} ParseParts(parts: seq<Part>, st: ParseState)
    requires AreParts(parts)
    ensures Parse(LinesOf(parts), st) == Parsed(Pending(st) + HunksIn(parts), None)
    decreases |parts|
  {
    hide ParseHeader, OpsOf, NoHeader, IsPart;
    if parts != [] {
      FirstPart(parts);
      var after := ParseState(OpsOf(parts[0].body), ParseHeader(parts[0].header).value, true);
      ParsePart(parts[0], LinesOf(parts[1..]), st);
      ParseParts(parts[1..], after);
    }
  }

  /** A patch reads as the hunks of its headers, in order; what comes before the first of them is passed over. */
  lemma {:induction false} PatchReads(prelude: seq<string>, parts: seq<Part>)
    requires NoHeader(prelude) && AreParts(parts)
    ensures Parse(prelude + LinesOf(parts), Fresh) == Parsed(HunksIn(parts), None)
  {
    hide HunksIn, LinesOf, NoHeader, AreParts;
    ParsePrelude(prelude, LinesOf(parts));
    ParseParts(parts, Fresh);
    assert [] + HunksIn(parts) == HunksIn(parts);
  }

  lemma {:induction false} ParseUpTo(parts: seq<Part>, bad: string, rest: seq<string>, st: ParseState)
    requires AreParts(parts) && "@@" <= bad && ParseHeader(bad).Failure?
    ensures Parse(LinesOf(parts) + ([bad] + rest), st) ==
      Parsed(if parts == [] then [] else Pending(st) + HunksIn(parts[..|parts|-1]), Some(ParseHeader(bad).error))
    decreases |parts|
  {
    hide ParseHeader, OpsOf, NoHeader, IsPart;
    if parts != [] {
      FirstPart(parts);
      var after := ParseState(OpsOf(parts[0].body), ParseHeader(parts[0].header).value, true);
      var more := LinesOf(parts[1..]) + ([bad] + rest);
      assert LinesOf(parts) + ([bad] + rest) == [parts[0].header] + parts[0].body + more;
      ParsePart(parts[0], more, st);
      ParseUpTo(parts[1..], bad, rest, after);
      if |parts| > 1 {
        assert parts[1..][..|parts|-2] == parts[..|parts|-1][1..];
      } else {
        assert parts[..0] == [];
      }
    } else {
      assert LinesOf(parts) + ([bad] + rest) == [bad] + rest;
    }
  }

  /** A header that cannot be read ends the reading, and the hunk before it is never given out. */
  lemma {:induction false} PatchReadsUpTo(prelude: seq<string>, parts: seq<Part>, bad: string, rest: seq<string>)
    requires NoHeader(prelude) && AreParts(parts) && "@@" <= bad && ParseHeader(bad).Failure?
    ensures Parse(prelude + (LinesOf(parts) + ([bad] + rest)), Fresh) ==
      Parsed(if parts == [] then [] else HunksIn(parts[..|parts|-1]), Some(ParseHeader(bad).error))
  {
    hide HunksIn, LinesOf, NoHeader, ParseHeader, Parse;
    ParsePrelude(prelude, LinesOf(parts) + ([bad] + rest));
    ParseUpTo(parts, bad, rest, Fresh);
    if parts != [] { assert Pending(Fresh) + HunksIn(parts[..|parts|-1]) == HunksIn(parts[..|parts|-1]); }
  }

  // ---------------------------------------------------------------- applying

  /** The first line of a hunk that is not where the hunk expects it. */
  function Misfit(lines: seq<string>, cursor: nat, ops: seq<Op>): Option<PatchError>
    decreases |ops|
  {
    if ops == [] then None
    else if ops[0].kind.Add? then Misfit(lines, cursor, ops[1..])
    else if cursor >= |lines| || lines[cursor] != ops[0].line then Some(Mismatch(ops[0].kind.Context?, cursor))
    else Misfit(lines, cursor + 1, ops[1..])
  }

  /** A hunk fits exactly where its old lines are. */
  lemma {:induction false} MisfitIff(lines: seq<string>, cursor: nat, ops: seq<Op>)
    requires cursor <= |lines|
    ensures Misfit(lines, cursor, ops).None? <==> OldLines(ops) <= lines[cursor..]
    ensures Misfit(lines, cursor, ops).Some? ==> Misfit(lines, cursor, ops).value.Mismatch?
    decreases |ops|
  {
    if ops != [] {
      var op, rest := ops[0], ops[1..];
      if op.kind.Add? {
        MisfitIff(lines, cursor, rest);
      } else if cursor < |lines| {
        MisfitIff(lines, cursor + 1, rest);
        assert lines[cursor..] == [lines[cursor]] + lines[cursor+1..];
        assert OldLines(ops) == [op.line] + OldLines(rest);
      }
    }
  }

  /** The error names the first old line of the hunk that is not there: its place in the file, and whether it was
      to be kept or deleted. */
  lemma {:induction false} MisfitNames(lines: seq<string>, cursor: nat, ops: seq<Op>) returns (k: nat)
    requires cursor <= |lines| && Misfit(lines, cursor, ops).Some?
    ensures k < |ops| && !ops[k].kind.Add?
    ensures var place := cursor + |OldLines(ops[..k])|;
      && Misfit(lines, cursor, ops) == Some(Mismatch(ops[k].kind.Context?, place))
      && OldLines(ops[..k]) <= lines[cursor..]
      && !(place < |lines| && lines[place] == ops[k].line)
    decreases |ops|
  {
    var op, rest := ops[0], ops[1..];
    if op.kind.Add? {
      var j := MisfitNames(lines, cursor, rest);
      k := j + 1;
      assert ops[..k][1..] == rest[..j];
    } else if cursor < |lines| && lines[cursor] == op.line {
      var j := MisfitNames(lines, cursor + 1, rest);
      k := j + 1;
      assert ops[..k][1..] == rest[..j];
      assert OldLines(ops[..k]) == [op.line] + OldLines(rest[..j]);
      assert lines[cursor..] == [lines[cursor]] + lines[cursor+1..];
    } else {
      k := 0;
      assert ops[..0] == [];
    }
  }

  /** `_copy_up_to` and `_apply_hunk_ops`: where the cursor and the result end up. */
  function ApplyHunk(lines: seq<string>, cursor: nat, hunk: Hunk, result: seq<string>)
    : (r: Result<(nat, seq<string>), PatchError>)
    requires cursor <= |lines|
    ensures r.Success? ==> r.value.0 <= |lines|
  {
    if hunk.start > |lines| then Failure(IndexError)
    else
      var stop := if cursor < hunk.start then hunk.start else cursor;
      var misfit := Misfit(lines, stop, hunk.ops);
      if misfit.Some? then Failure(misfit.value)
      else
        MisfitIff(lines, stop, hunk.ops);
        Success((stop + |OldLines(hunk.ops)|, result + lines[cursor..stop] + NewLines(hunk.ops)))
  }

  function ApplyHunks(lines: seq<string>, cursor: nat, hunks: seq<Hunk>, result: seq<string>)
    : Result<seq<string>, PatchError>
    requires cursor <= |lines|
    decreases |hunks|
  {
    if hunks == [] then Success(result + lines[cursor..])
    else
      var r := ApplyHunk(lines, cursor, hunks[0], result);
      if r.Failure? then Failure(r.error)
      else ApplyHunks(lines, r.value.0, hunks[1..], r.value.1)
  }

  /** What is left to do: read the rest of the patch and apply the hunks as they come. A reading
      error shows only after the hunks read before it have been applied. */
  function Continue(lines: seq<string>, raws: seq<string>, st: ParseState, cursor: nat, result: seq<string>)
    : Result<seq<string>, PatchError>
    requires cursor <= |lines|
  {
    var parsed := Parse(raws, st);
    var applied := ApplyHunks(lines, cursor, parsed.hunks, result);
    if applied.Success? && parsed.error.Some? then Failure(parsed.error.value) else applied
  }

  /** `_apply_unified_patch`. */
  function ApplyPatch(lines: seq<string>, patch: string): Result<seq<string>, PatchError> {
    Continue(lines, SplitLines(patch), Fresh, 0, [])
  }

  // ---------------------------------------------------------------- applying a script's own hunks

  /** Across all hunks the cursor stays aligned with the script: applied to its old text, a script's
      hunks give its new text. */
  lemma {:induction false} ScriptApplies(before: seq<string>, script: seq<Segment>, tail: seq<string>,
                                              result: seq<string>)
    ensures ApplyHunks(before + Left(script, tail), |before|, HunksOf(script, |before|), result)
      == Success(result + Right(script, tail))
    decreases |script|
  {
    hide OldLines, NewLines, ApplyHunk;
    if script == [] {
      assert (before + tail)[|before|..] == tail;
    } else {
      var gap, ops := script[0].gap, script[0].ops;
      var rest, later := Left(script[1..], tail), Right(script[1..], tail);
      var before' := before + gap + OldLines(ops);
      Regroup(before, gap, OldLines(ops), rest);
      SegmentApplies(before, gap, ops, rest, before' + rest, result);
      ScriptApplies(before', script[1..], tail, result + gap + NewLines(ops));
      Regroup(result, gap, NewLines(ops), later);
    }
  }

  lemma Regroup(a: seq<string>, b: seq<string>, c: seq<string>, d: seq<string>)
    ensures a + (b + c + d) == a + b + c + d
  {
  }

  lemma SegmentApplies(before: seq<string>, gap: seq<string>, ops: seq<Op>, rest: seq<string>,
                       lines: seq<string>, result: seq<string>)
    requires lines == before + gap + OldLines(ops) + rest
    ensures ApplyHunk(lines, |before|, Hunk(|before| + |gap|, ops), result)
      == Success((|before| + |gap| + |OldLines(ops)|, result + gap + NewLines(ops)))
  {
    hide Misfit, OldLines, NewLines;
    var start := |before| + |gap|;
    assert lines[|before|..start] == gap;
    assert lines[start..] == OldLines(ops) + rest;
    MisfitIff(lines, start, ops);
  }

  /** Whatever hunks were applied: if the result is a text, an edit script with the very lines of
      the hunks leads from the old text to it. No line is lost, added or changed otherwise. */
  lemma {:induction false} AppliedIsScript(lines: seq<string>, cursor: nat, hunks: seq<Hunk>, result: seq<string>)
    returns (script: seq<Segment>, tail: seq<string>)
    requires cursor <= |lines| && ApplyHunks(lines, cursor, hunks, result).Success?
    ensures |script| == |hunks| && forall i :: 0 <= i < |hunks| ==> script[i].ops == hunks[i].ops
    ensures Left(script, tail) == lines[cursor..]
    ensures ApplyHunks(lines, cursor, hunks, result).value == result + Right(script, tail)
    decreases |hunks|
  {
    if hunks == [] {
      script, tail := [], lines[cursor..];
    } else {
      hide OldLines, NewLines, ApplyHunk;
      var h := hunks[0];
      var gap, end, out := AppliedSegment(lines, cursor, h, result);
      var rest;
      rest, tail := AppliedIsScript(lines, end, hunks[1..], out);
      script := [Segment(gap, h.ops)] + rest;
      assert script[1..] == rest;
      Regroup(result, gap, NewLines(h.ops), Right(rest, tail));
    }
  }

  lemma AppliedSegment(lines: seq<string>, cursor: nat, h: Hunk, result: seq<string>)
    returns (gap: seq<string>, end: nat, out: seq<string>)
    requires cursor <= |lines| && ApplyHunk(lines, cursor, h, result).Success?
    ensures ApplyHunk(lines, cursor, h, result) == Success((end, out)) && end <= |lines|
    ensures lines[cursor..] == gap + OldLines(h.ops) + lines[end..]
    ensures out == result + gap + NewLines(h.ops)
  {
    hide Misfit, OldLines, NewLines;
    var stop := if cursor < h.start then h.start else cursor;
    gap, end := lines[cursor..stop], stop + |OldLines(h.ops)|;
    MisfitIff(lines, stop, h.ops);
    out := result + gap + NewLines(h.ops);
    assert lines[stop..] == OldLines(h.ops) + lines[end..];
    assert lines[cursor..] == gap + lines[stop..];
  }

  // ---------------------------------------------------------------- how applying a patch ends

  /** The first `k` hunks apply. */
  predicate Applies(lines: seq<string>, cursor: nat, hunks: seq<Hunk>, result: seq<string>, k: int)
    requires cursor <= |lines|
  {
    0 <= k <= |hunks| && ApplyHunks(lines, cursor, hunks[..k], result).Success?
  }

  /** Hunk `k` is reached, and starts beyond the end of the file. */
  predicate Overshoots(lines: seq<string>, cursor: nat, hunks: seq<Hunk>, result: seq<string>, k: int)
    requires cursor <= |lines|
  {
    0 <= k < |hunks| && Applies(lines, cursor, hunks, result, k) && hunks[k].start > |lines|
  }

  ghost predicate RunsOut(lines: seq<string>, cursor: nat, hunks: seq<Hunk>, result: seq<string>)
    requires cursor <= |lines|
  {
    exists k :: Overshoots(lines, cursor, hunks, result, k)
  }

  lemma {:induction false} OvershootIff(lines: seq<string>, cursor: nat, hunks: seq<Hunk>, result: seq<string>)
    requires cursor <= |lines|
    ensures ApplyHunks(lines, cursor, hunks, result) == Failure(IndexError) <==> RunsOut(lines, cursor, hunks, result)
    decreases |hunks|
  {
    hide Misfit;
    if hunks != [] {
      var r := ApplyHunk(lines, cursor, hunks[0], result);
      assert hunks[..0] == [];
      HunkOutcome(lines, cursor, hunks[0], result);
      if r.Failure? {
        assert hunks[0].start > |lines| ==> Overshoots(lines, cursor, hunks, result, 0);
        assert forall k :: 0 < k <= |hunks| ==> hunks[..k][0] == hunks[0];
      } else {
        var end, out := r.value.0, r.value.1;
        OvershootIff(lines, end, hunks[1..], out);
        forall k | 0 < k < |hunks|
          ensures Overshoots(lines, cursor, hunks, result, k) <==> Overshoots(lines, end, hunks[1..], out, k - 1)
        {
          assert hunks[..k][1..] == hunks[1..][..k-1];
        }
        if k :| Overshoots(lines, end, hunks[1..], out, k) {
          assert Overshoots(lines, cursor, hunks, result, k + 1);
        }
      }
    }
  }

  /** One hunk: it runs out of the file, or its old lines are where it says, or it is a mismatch. */
  lemma HunkOutcome(lines: seq<string>, cursor: nat, h: Hunk, result: seq<string>)
    requires cursor <= |lines|
    ensures var r, stop := ApplyHunk(lines, cursor, h, result), if cursor < h.start then h.start else cursor;
      && (r == Failure(IndexError) <==> h.start > |lines|)
      && (r.Success? <==> h.start <= |lines| && OldLines(h.ops) <= lines[stop..])
      && (r.Failure? ==> r.error.IndexError? || r.error.Mismatch?)
  {
    if h.start <= |lines| {
      MisfitIff(lines, if cursor < h.start then h.start else cursor, h.ops);
    }
  }

  lemma {:induction false} HunksOutcome(lines: seq<string>, cursor: nat, hunks: seq<Hunk>, result: seq<string>)
    requires cursor <= |lines|
    ensures var r := ApplyHunks(lines, cursor, hunks, result);
      r.Failure? ==> r.error.IndexError? || r.error.Mismatch?
    decreases |hunks|
  {
    hide ApplyHunk;
    if hunks != [] {
      HunkOutcome(lines, cursor, hunks[0], result);
      var r := ApplyHunk(lines, cursor, hunks[0], result);
      if r.Success? { HunksOutcome(lines, r.value.0, hunks[1..], r.value.1); }
    }
  }

  /** Line `i` starts like a header and cannot be read as one. */
  predicate BadHeader(raws: seq<string>, i: int) {
    0 <= i < |raws| && "@@" <= raws[i] && ParseHeader(raws[i]).Failure?
  }

  ghost predicate FirstBad(raws: seq<string>, i: int) {
    BadHeader(raws, i) && forall j :: 0 <= j < i ==> !BadHeader(raws, j)
  }

  /** Reading ends with the error of the first header that cannot be read, if there is one. */
  lemma {:induction false} ReadingErrorIff(raws: seq<string>, st: ParseState)
    ensures Parse(raws, st).error.Some? <==> exists i :: BadHeader(raws, i)
    ensures forall i :: FirstBad(raws, i) ==> Parse(raws, st).error == Some(ParseHeader(raws[i]).error)
    ensures Parse(raws, st).error.Some? ==>
      Parse(raws, st).error.value.MalformedHeader? || Parse(raws, st).error.value.TooManyDigits?
    decreases |raws|
  {
    if raws != [] {
      var (after, r) := Consume(st, raws[0]);
      assert r.Failure? <==> BadHeader(raws, 0);
      assert r.Failure? ==> r.error == ParseHeader(raws[0]).error;
      hide Consume, ParseHeader;
      forall i | 0 < i < |raws| ensures BadHeader(raws, i) <==> BadHeader(raws[1..], i - 1) {
        assert raws[i] == raws[1..][i-1];
      }
      forall i | 0 <= i < |raws| - 1 ensures BadHeader(raws[1..], i) ==> BadHeader(raws, i + 1) {
        assert raws[i+1] == raws[1..][i];
      }
      if r.Success? {
        ReadingErrorIff(raws[1..], after);
        forall i | FirstBad(raws, i) ensures FirstBad(raws[1..], i - 1) {
          assert forall j :: 0 <= j < i - 1 && BadHeader(raws[1..], j) ==> BadHeader(raws, j + 1);
        }
      }
    }
  }

  /** How applying a whole patch ends. A patch that does not match the file is documented to be a
      `DiffException`; it is an `IndexError` exactly if a hunk that is reached starts beyond the file. A
      header that cannot be read shows exactly if all hunks before it apply, and is a `ValueError` exactly if
      it has the form of one and its old start has too many digits. */
  lemma PatchOutcome(lines: seq<string>, patch: string)
    ensures var r, parsed := ApplyPatch(lines, patch), Parse(SplitLines(patch), Fresh);
      var all := Applies(lines, 0, parsed.hunks, [], |parsed.hunks|);
      && (r == Failure(IndexError) <==> RunsOut(lines, 0, parsed.hunks, []))
      && (r.Success? <==> all && parsed.error.None?)
      && (r.Failure? && r.error.MalformedHeader? <==>
            all && parsed.error.Some? && parsed.error.value.MalformedHeader?)
      && (r == Failure(TooManyDigits) <==> all && parsed.error == Some(TooManyDigits))
  {
    hide Parse, ApplyHunks, RunsOut;
    var parsed := Parse(SplitLines(patch), Fresh);
    ReadingErrorIff(SplitLines(patch), Fresh);
    HunksOutcome(lines, 0, parsed.hunks, []);
    OvershootIff(lines, 0, parsed.hunks, []);
    assert parsed.hunks[..|parsed.hunks|] == parsed.hunks;
  }
}

/** `_HunkParseState` and the loops of `_apply_unified_patch`. */
module DiffOps {
  import opened Wrappers
  import opened PatchText
  import opened UnifiedDiff
  import opened PatchModel

  class HunkParseState {
    var buffer: seq<Op>
    var start: nat
    var inHunk: bool

    ghost function View(): ParseState
      reads this
    {
      ParseState(buffer, start, inHunk)
    }

    constructor ()
      ensures View() == Fresh
    {
      buffer, start, inHunk := [], 0, false;
    }

    /** `_consume_patch_line`. */
    method ConsumePatchLine(raw: string) returns (r: Result<seq<Hunk>, PatchError>)
      modifies this
      ensures (View(), r) == Consume(old(View()), raw)
    {
      hide ParseHeader;
      if "@@" <= raw {
        var pending := if inHunk && buffer != [] then [Hunk(start, buffer)] else [];
        var header := ParseHeader(raw);
        if header.Failure? {
          return Failure(header.error);
        }
        start := header.value;
        buffer := [];
        inHunk := true;
        return Success(pending);
      }
      if "---" <= raw || "+++" <= raw || !inHunk || raw == "" {
        return Success([]);
      }
      var kind := KindOf(raw[0]);
      if kind.Some? {
        buffer := buffer + [Op(kind.value, raw[1..])];
      }
      return Success([]);
    }
  }

  /** `_copy_up_to`: the lines before `stop` are copied; `None` stands for the `IndexError`. */
  method CopyUpTo(lines: seq<string>, cursor0: nat, stop: nat, result0: seq<string>)
    returns (r: Option<(nat, seq<string>)>)
    requires cursor0 <= |lines|
    ensures r.None? <==> stop > |lines|
    ensures r.Some? ==>
      r.value == (if cursor0 < stop then (stop, result0 + lines[cursor0..stop]) else (cursor0, result0))
  {
    var cursor, result := cursor0, result0;
    while cursor < stop
      invariant cursor0 <= cursor <= |lines| && (cursor0 < stop ==> cursor <= stop)
      invariant cursor0 >= stop ==> cursor == cursor0
      invariant result == result0 + lines[cursor0..cursor]
    {
      if cursor == |lines| {
        return None;
      }
      result := result + [lines[cursor]];
      cursor := cursor + 1;
    }
    assert result0 + lines[cursor0..cursor0] == result0;
    return Some((cursor, result));
  }

  /** `_apply_hunk_ops`: every line is checked before the next is written. */
  method ApplyHunkOps(lines: seq<string>, cursor0: nat, ops: seq<Op>, result0: seq<string>)
    returns (r: Result<(nat, seq<string>), PatchError>)
    requires cursor0 <= |lines|
    ensures Misfit(lines, cursor0, ops).Some? ==> r == Failure(Misfit(lines, cursor0, ops).value)
    ensures Misfit(lines, cursor0, ops).None? ==>
      r == Success((cursor0 + |OldLines(ops)|, result0 + NewLines(ops)))
  {
    var cursor, result := cursor0, result0;
    for i := 0 to |ops|
      invariant cursor0 <= cursor <= |lines|
      invariant Misfit(lines, cursor0, ops) == Misfit(lines, cursor, ops[i..])
      invariant cursor + |OldLines(ops[i..])| == cursor0 + |OldLines(ops)|
      invariant result + NewLines(ops[i..]) == result0 + NewLines(ops)
    {
      assert ops[i..][0] == ops[i] && ops[i..][1..] == ops[i+1..];
      if ops[i].kind.Add? {
        result := result + [ops[i].line];
      } else {
        if cursor >= |lines| || lines[cursor] != ops[i].line {
          return Failure(Mismatch(ops[i].kind.Context?, cursor));
        }
        if ops[i].kind.Context? {
          result := result + [ops[i].line];
        }
        cursor := cursor + 1;
      }
    }
    assert ops[|ops|..] == [] && result + [] == result;
    return Success((cursor, result));
  }

  /** One round of `_apply_unified_patch`: the lines up to a hunk and the hunk. */
  method ApplyOneHunk(lines: seq<string>, cursor: nat, hunk: Hunk, result: seq<string>)
    returns (r: Result<(nat, seq<string>), PatchError>)
    requires cursor <= |lines|
    ensures r == ApplyHunk(lines, cursor, hunk, result)
  {
    hide Misfit, OldLines, NewLines;
    var copied := CopyUpTo(lines, cursor, hunk.start, result);
    if copied.None? {
      return Failure(IndexError);
    }
    assert cursor >= hunk.start ==> result + lines[cursor..cursor] == result;
    r := ApplyHunkOps(lines, copied.value.0, hunk.ops, copied.value.1);
  }

  /** `_apply_unified_patch`: hunks are applied as soon as the line after them is read. */
  method ApplyUnifiedPatch(lines: seq<string>, patch: string) returns (r: Result<seq<string>, PatchError>)
    ensures r == ApplyPatch(lines, patch)
  {
    hide Consume, ApplyHunk;
    var raws := SplitLines(patch);
    var state := new HunkParseState();
    var cursor: nat, result: seq<string> := 0, [];
    assert raws[0..] == raws;
    for i := 0 to |raws|
      invariant fresh(state) && cursor <= |lines|
      invariant Continue(lines, raws[i..], state.View(), cursor, result) == ApplyPatch(lines, patch)
    {
      ghost var st := state.View();
      assert raws[i..] == [raws[i]] + raws[i+1..];
      var found := state.ConsumePatchLine(raws[i]);
      ContinueStep(lines, raws[i], raws[i+1..], st, state.View(), found, cursor, result);
      if found.Failure? {
        return Failure(found.error);
      }
      if found.value != [] {
        FoundOne(st, raws[i]);
        var applied := ApplyOneHunk(lines, cursor, found.value[0], result);
        if applied.Failure? {
          return Failure(applied.error);
        }
        cursor, result := applied.value.0, applied.value.1;
      }
    }
    assert raws[|raws|..] == [];
    if state.inHunk && state.buffer != [] {
      var applied := ApplyOneHunk(lines, cursor, Hunk(state.start, state.buffer), result);
      LastOne(lines, cursor, Hunk(state.start, state.buffer), result);
      if applied.Failure? {
        return Failure(applied.error);
      }
      return Success(applied.value.1 + lines[applied.value.0..]);
    }
    return Success(result + lines[cursor..]);
  }

  lemma LastOne(lines: seq<string>, cursor: nat, hunk: Hunk, result: seq<string>)
    requires cursor <= |lines|
    ensures var one := ApplyHunk(lines, cursor, hunk, result);
      ApplyHunks(lines, cursor, [hunk], result) ==
        if one.Failure? then Failure(one.error) else Success(one.value.1 + lines[one.value.0..])
  {
    hide ApplyHunk;
    assert [hunk][1..] == [];
  }

  lemma {:induction false} FoundOne(st: ParseState, raw: string)
    requires Consume(st, raw).1.Success? && Consume(st, raw).1.value != []
    ensures |Consume(st, raw).1.value| == 1
  {
  }

  /** Reading one more line and applying what it completes does not change what comes out. */
  lemma ContinueStep(lines: seq<string>, raw: string, rest: seq<string>, st: ParseState, after: ParseState,
                     found: Result<seq<Hunk>, PatchError>, cursor: nat, result: seq<string>)
    requires cursor <= |lines| && Consume(st, raw) == (after, found)
    ensures found.Failure? ==> Continue(lines, [raw] + rest, st, cursor, result) == Failure(found.error)
    ensures found == Success([]) ==>
      Continue(lines, [raw] + rest, st, cursor, result) == Continue(lines, rest, after, cursor, result)
    ensures found.Success? && |found.value| == 1 ==>
      var one := ApplyHunk(lines, cursor, found.value[0], result);
      Continue(lines, [raw] + rest, st, cursor, result) ==
        if one.Failure? then Failure(one.error) else Continue(lines, rest, after, one.value.0, one.value.1)
  {
    hide Consume, ApplyHunk;
    assert ([raw] + rest)[1..] == rest;
    var later := Parse(rest, after).hunks;
    if found.Success? && |found.value| == 1 {
      assert found.value + later == [found.value[0]] + later && ([found.value[0]] + later)[1..] == later;
    }
    assert [] + later == later;
  }
}
