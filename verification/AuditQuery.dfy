/** Audit records, the filters of a search, and the `WHERE` clause made of them. */
module AuditQuery {
  import opened Wrappers
  import opened SqlLike

  /** A float: a number, or not one. */
  datatype Duration = Millis(ms: real) | NotANumber

  /** `timestamp` counts microseconds since the epoch; `metadata` is its JSON text. */
  datatype Record = Record(
    id: string, timestamp: int, actor: string, source: string, pipeline: Option<string>,
    task: Option<string>, action: string, resource: Option<string>, backend: Option<string>,
    status: string, durationMs: Option<Duration>, error: Option<string>, metadata: string,
    correlationId: Option<string>)

  datatype Field =
    | Actor | Source | Pipeline | Task | Action | Resource | Backend | Status | Error | Metadata
    | CorrelationId

  /** A column of the record's row; `None` is `NULL`. */
  function Column(r: Record, f: Field): Option<string> {
    match f
    case Actor => Some(r.actor)
    case Source => Some(r.source)
    case Pipeline => r.pipeline
    case Task => r.task
    case Action => Some(r.action)
    case Resource => r.resource
    case Backend => r.backend
    case Status => Some(r.status)
    case Error => r.error
    case Metadata => Some(r.metadata)
    case CorrelationId => r.correlationId
  }

  datatype Query = Query(
    since: Option<int>, until: Option<int>, actor: Option<string>, source: Option<string>,
    pipeline: Option<string>, task: Option<string>, action: Option<string>,
    resourcePrefix: Option<string>, backend: Option<string>, status: Option<string>,
    correlationId: Option<string>, text: Option<string>, limit: nat, offset: nat)

  const EXACT_FILTERS := [Actor, Source, Pipeline, Task, Action, Backend, Status, CorrelationId]
  const TEXT_FIELDS := [Action, Resource, Error, Actor, Source, Pipeline, Task, Backend]
  const TEXT_COLUMNS := TEXT_FIELDS + [Metadata]

  function Wanted(q: Query, f: Field): Option<string> {
    match f
    case Actor => q.actor
    case Source => q.source
    case Pipeline => q.pipeline
    case Task => q.task
    case Action => q.action
    case Backend => q.backend
    case Status => q.status
    case CorrelationId => q.correlationId
    case _ => None
  }

  // ---------------------------------------------------------------- the predicate in Python

  /** `getattr(record, name) or ""`. */
  function Text(r: Record, f: Field): string {
    var c := Column(r, f);
    if c.Some? then c.value else ""
  }

  predicate MatchesTime(q: Query, r: Record) {
    (q.since.Some? ==> r.timestamp >= q.since.value) && (q.until.Some? ==> r.timestamp < q.until.value)
  }

  predicate MatchesExact(q: Query, r: Record) {
    forall f :: f in EXACT_FILTERS && Wanted(q, f).Some? ==> Column(r, f) == Wanted(q, f)
  }

  predicate MatchesResource(q: Query, r: Record) {
    q.resourcePrefix.None? || q.resourcePrefix.value == ""
    || Fold(q.resourcePrefix.value) <= Fold(Text(r, Resource))
  }

  predicate MatchesText(q: Query, r: Record) {
    q.text.None? || q.text.value == ""
    || exists f :: f in TEXT_COLUMNS && Contains(Fold(Text(r, f)), Fold(q.text.value))
  }

  /** `AuditQuery.matches`. */
  predicate Matches(q: Query, r: Record) {
    MatchesTime(q, r) && MatchesExact(q, r) && MatchesResource(q, r) && MatchesText(q, r)
  }

  // ---------------------------------------------------------------- what the filters mean, one by one

  /** The same letter, as far as an ASCII letter and its other case are the same. */
  ghost predicate SameLetter(a: char, b: char) {
    || a == b
    || ('A' <= a <= 'Z' && b as int == a as int + 32)
    || ('A' <= b <= 'Z' && a as int == b as int + 32)
  }

  ghost predicate SameLetters(a: string, b: string) {
    |a| == |b| && forall i :: 0 <= i < |a| ==> SameLetter(a[i], b[i])
  }

  ghost predicate PartIs(value: string, i: nat, part: string) {
    i + |part| <= |value| && SameLetters(value[i..i+|part|], part)
  }

  /** The field is there and contains the text. */
  ghost predicate Holds(value: Option<string>, text: string) {
    value.Some? && exists i: nat :: PartIs(value.value, i, text)
  }

  /** A record passes the filters that are given: the times bound its own, every other one but the last two
      names the value of its field, and the last two are looked for whatever the case of ASCII letters. */
  ghost predicate Accepts(q: Query, r: Record) {
    && (q.since.Some? ==> r.timestamp >= q.since.value)
    && (q.until.Some? ==> r.timestamp < q.until.value)
    && (q.actor.Some? ==> r.actor == q.actor.value)
    && (q.source.Some? ==> r.source == q.source.value)
    && (q.pipeline.Some? ==> r.pipeline == q.pipeline)
    && (q.task.Some? ==> r.task == q.task)
    && (q.action.Some? ==> r.action == q.action.value)
    && (q.backend.Some? ==> r.backend == q.backend)
    && (q.status.Some? ==> r.status == q.status.value)
    && (q.correlationId.Some? ==> r.correlationId == q.correlationId)
    && (q.resourcePrefix.Some? && q.resourcePrefix.value != "" ==>
          r.resource.Some? && PartIs(r.resource.value, 0, q.resourcePrefix.value))
    && (q.text.Some? && q.text.value != "" ==>
          || Holds(Some(r.action), q.text.value) || Holds(r.resource, q.text.value) || Holds(r.error, q.text.value)
          || Holds(Some(r.actor), q.text.value) || Holds(Some(r.source), q.text.value)
          || Holds(r.pipeline, q.text.value) || Holds(r.task, q.text.value) || Holds(r.backend, q.text.value)
          || Holds(Some(r.metadata), q.text.value))
  }

  /** `AuditQuery.matches` accepts just those records. */
  lemma MatchesIff(q: Query, r: Record)
    ensures Matches(q, r) <==> Accepts(q, r)
  {
    hide MatchesResource, MatchesText, Holds, PartIs;
    ExactIff(q, r);
    ResourceIff(q, r);
    TextIff(q, r);
  }

  predicate IsExact(f: Field) {
    f.Actor? || f.Source? || f.Pipeline? || f.Task? || f.Action? || f.Backend? || f.Status? || f.CorrelationId?
  }

  lemma ExactMember(f: Field)
    ensures f in EXACT_FILTERS <==> IsExact(f)
  {
    var all := EXACT_FILTERS;
    assert all[0] == Actor && all[1] == Source && all[2] == Pipeline && all[3] == Task;
    assert all[4] == Action && all[5] == Backend && all[6] == Status && all[7] == CorrelationId;
  }

  /** The field of the filter has the value asked for. */
  predicate Fits(q: Query, r: Record, f: Field) {
    Wanted(q, f).Some? ==> Column(r, f) == Wanted(q, f)
  }

  lemma ExactOver(q: Query, r: Record)
    ensures MatchesExact(q, r) <==> forall f :: IsExact(f) ==> Fits(q, r, f)
  {
    hide Wanted, Column, IsExact;
    forall f ensures f in EXACT_FILTERS <==> IsExact(f) { ExactMember(f); }
  }

  lemma ExactIff(q: Query, r: Record)
    ensures MatchesExact(q, r) <==>
      && (q.actor.Some? ==> r.actor == q.actor.value) && (q.source.Some? ==> r.source == q.source.value)
      && (q.pipeline.Some? ==> r.pipeline == q.pipeline) && (q.task.Some? ==> r.task == q.task)
      && (q.action.Some? ==> r.action == q.action.value) && (q.backend.Some? ==> r.backend == q.backend)
      && (q.status.Some? ==> r.status == q.status.value)
      && (q.correlationId.Some? ==> r.correlationId == q.correlationId)
  {
    hide MatchesExact;
    ExactOver(q, r);
    if forall f :: IsExact(f) ==> Fits(q, r, f) {
      assert Fits(q, r, Actor) && Fits(q, r, Source) && Fits(q, r, Pipeline) && Fits(q, r, Task);
      assert Fits(q, r, Action) && Fits(q, r, Backend) && Fits(q, r, Status) && Fits(q, r, CorrelationId);
    }
  }

  lemma LetterIff(a: char, b: char)
    ensures FoldChar(a) == FoldChar(b) <==> SameLetter(a, b)
  {
  }

  lemma LettersIff(a: string, b: string)
    ensures Fold(a) == Fold(b) <==> SameLetters(a, b)
  {
    hide FoldChar, SameLetter;
    var x, y := Fold(a), Fold(b);
    forall i | 0 <= i < |a| && i < |b| ensures x[i] == y[i] <==> SameLetter(a[i], b[i]) {
      LetterIff(a[i], b[i]);
    }
    if SameLetters(a, b) { assert forall i :: 0 <= i < |x| ==> x[i] == y[i]; }
  }

  /** A folded part at a place is the part there, case aside. */
  lemma PartIff(value: string, i: nat, part: string)
    requires i <= |value|
    ensures Fold(part) <= Fold(value)[i..] <==> PartIs(value, i, part)
  {
    hide Fold, SameLetters;
    FoldLength(value);
    FoldLength(part);
    if i + |part| <= |value| {
      FoldPart(value, i, i + |part|);
      LettersIff(value[i..i+|part|], part);
      assert Fold(value)[i..][..|part|] == Fold(value)[i..i+|part|];
    }
  }

  lemma FoldLength(s: string)
    ensures |Fold(s)| == |s|
  {
  }

  lemma FoldPart(s: string, i: nat, j: nat)
    requires i <= j <= |s|
    ensures Fold(s[i..j]) == Fold(s)[i..j]
  {
    hide FoldChar;
  }

  lemma ResourceIff(q: Query, r: Record)
    ensures MatchesResource(q, r) <==>
      (q.resourcePrefix.Some? && q.resourcePrefix.value != "" ==>
        r.resource.Some? && PartIs(r.resource.value, 0, q.resourcePrefix.value))
  {
    hide Fold, PartIs;
    if q.resourcePrefix.Some? && q.resourcePrefix.value != "" {
      var s := Text(r, Resource);
      PartIff(s, 0, q.resourcePrefix.value);
      FoldLength(s);
      assert Fold(s)[0..] == Fold(s);
      if r.resource.None? { NoPartOfNothing(q.resourcePrefix.value); }
    }
  }

  lemma NoPartOfNothing(part: string)
    requires part != ""
    ensures forall i: nat :: !PartIs("", i, part)
  {
  }

  lemma HoldsIff(r: Record, f: Field, text: string)
    requires text != ""
    ensures Contains(Fold(Text(r, f)), Fold(text)) <==> Holds(Column(r, f), text)
  {
    hide Fold, PartIs, Column;
    var s := Text(r, f);
    FoldLength(s);
    forall i: nat | i <= |s| ensures Fold(text) <= Fold(s)[i..] <==> PartIs(s, i, text) {
      PartIff(s, i, text);
    }
    PartInside(s, text);
    if Column(r, f).None? { NoPartOfNothing(text); }
  }

  lemma PartInside(value: string, part: string)
    ensures forall i: nat :: PartIs(value, i, part) ==> i <= |value|
  {
  }

  predicate IsText(f: Field) {
    f.Action? || f.Resource? || f.Error? || f.Actor? || f.Source? || f.Pipeline? || f.Task? || f.Backend?
    || f.Metadata?
  }

  lemma TextMember(f: Field)
    ensures f in TEXT_COLUMNS <==> IsText(f)
  {
    var all := TEXT_COLUMNS;
    assert all[0] == Action && all[1] == Resource && all[2] == Error && all[3] == Actor && all[4] == Source;
    assert all[5] == Pipeline && all[6] == Task && all[7] == Backend && all[8] == Metadata;
  }

  lemma TextOver(q: Query, r: Record)
    requires q.text.Some? && q.text.value != ""
    ensures MatchesText(q, r) <==> exists f :: IsText(f) && Holds(Column(r, f), q.text.value)
  {
    hide Fold, Contains, Holds, Text, Column, IsText;
    forall f ensures f in TEXT_COLUMNS <==> IsText(f) { TextMember(f); }
    forall f ensures Contains(Fold(Text(r, f)), Fold(q.text.value)) <==> Holds(Column(r, f), q.text.value) {
      HoldsIff(r, f, q.text.value);
    }
  }

  lemma TextIff(q: Query, r: Record)
    ensures MatchesText(q, r) <==>
      (q.text.Some? && q.text.value != "" ==>
        || Holds(Some(r.action), q.text.value) || Holds(r.resource, q.text.value) || Holds(r.error, q.text.value)
        || Holds(Some(r.actor), q.text.value) || Holds(Some(r.source), q.text.value)
        || Holds(r.pipeline, q.text.value) || Holds(r.task, q.text.value) || Holds(r.backend, q.text.value)
        || Holds(Some(r.metadata), q.text.value))
  {
    if q.text.Some? && q.text.value != "" {
      hide MatchesText, Holds;
      TextOver(q, r);
      assert IsText(Action) && IsText(Resource) && IsText(Error) && IsText(Actor) && IsText(Source);
      assert IsText(Pipeline) && IsText(Task) && IsText(Backend) && IsText(Metadata);
    }
  }

  // ---------------------------------------------------------------- the clause in SQL

  /** SQL's third truth value is what a comparison with `NULL` gives. */
  datatype Truth = Yes | No | Unknown

  function Of(b: bool): Truth { if b then Yes else No }

  function Or(a: Truth, b: Truth): Truth {
    if a.Yes? || b.Yes? then Yes else if a.No? && b.No? then No else Unknown
  }

  datatype Clause =
    | SinceClause(us: int)
    | UntilClause(us: int)
    | EqualsClause(f: Field, value: string)
    | LikeClause(f: Field, pattern: string)
    | AnyLikeClause(columns: seq<Field>, pattern: string)

  function LikeColumn(r: Record, f: Field, pattern: string): Truth {
    var c := Column(r, f);
    if c.None? then Unknown else Of(Like(pattern, c.value))
  }

  function AnyLike(r: Record, columns: seq<Field>, pattern: string): Truth {
    if columns == [] then No
    else Or(LikeColumn(r, columns[0], pattern), AnyLike(r, columns[1..], pattern))
  }

  function Eval(c: Clause, r: Record): Truth {
    match c
    case SinceClause(us) => Of(r.timestamp >= us)
    case UntilClause(us) => Of(r.timestamp < us)
    case EqualsClause(f, value) => if Column(r, f).None? then Unknown else Of(Column(r, f).value == value)
    case LikeClause(f, pattern) => LikeColumn(r, f, pattern)
    case AnyLikeClause(columns, pattern) => AnyLike(r, columns, pattern)
  }

  /** The row passes `WHERE c1 AND c2 ...`: no clause is false or unknown. */
  predicate Selects(clauses: seq<Clause>, r: Record) {
    clauses == [] || (Eval(clauses[0], r).Yes? && Selects(clauses[1..], r))
  }

  lemma {:induction false} SelectsMore(clauses: seq<Clause>, c: Clause, r: Record)
    ensures Selects(clauses + [c], r) <==> Selects(clauses, r) && Eval(c, r).Yes?
  {
    hide Eval;
    if clauses == [] {
      assert [c][1..] == [] && [] + [c] == [c];
    } else {
      assert (clauses + [c])[1..] == clauses[1..] + [c];
      SelectsMore(clauses[1..], c, r);
    }
  }

  lemma {:induction false} AnyLikeYes(r: Record, columns: seq<Field>, pattern: string)
    ensures AnyLike(r, columns, pattern).Yes? <==> exists f :: f in columns && LikeColumn(r, f, pattern).Yes?
  {
    hide LikeColumn;
    if columns != [] {
      AnyLikeYes(r, columns[1..], pattern);
      assert columns == [columns[0]] + columns[1..];
    }
  }

  /** A `NULL` resource matches no prefix, as its empty text starts with none. */
  lemma PrefixClauseYes(q: Query, r: Record)
    requires q.resourcePrefix.Some? && q.resourcePrefix.value != ""
    ensures Eval(LikeClause(Resource, EscapeLike(q.resourcePrefix.value) + "%"), r).Yes? <==> MatchesResource(q, r)
  {
    hide Like, EscapeLike;
    LikePrefix(q.resourcePrefix.value, Text(r, Resource));
  }

  lemma TextClauseYes(q: Query, r: Record)
    requires q.text.Some? && q.text.value != ""
    ensures Eval(AnyLikeClause(TEXT_COLUMNS, "%" + EscapeLike(q.text.value) + "%"), r).Yes? <==> MatchesText(q, r)
  {
    hide Like, EscapeLike, AnyLike, Fold;
    var pattern := "%" + EscapeLike(q.text.value) + "%";
    AnyLikeYes(r, TEXT_COLUMNS, pattern);
    forall f ensures LikeColumn(r, f, pattern).Yes? <==> Contains(Fold(Text(r, f)), Fold(q.text.value)) {
      LikeContains(q.text.value, Text(r, f));
    }
  }

  lemma EqualsClauseYes(f: Field, value: string, r: Record)
    ensures Eval(EqualsClause(f, value), r).Yes? <==> Column(r, f) == Some(value)
  {
  }

  /** `_where`: a row is selected exactly if `AuditQuery.matches` accepts its record, so exactly if that passes
      the filters one by one. */
  method Where(q: Query) returns (clauses: seq<Clause>)
    ensures forall r :: Selects(clauses, r) <==> Matches(q, r)
    ensures forall r :: Selects(clauses, r) <==> Accepts(q, r)
  {
    hide Eval, EscapeLike, MatchesResource, MatchesText, Column, Accepts;
    clauses := WhereTime(q);
    for i := 0 to |EXACT_FILTERS|
      invariant forall r :: Selects(clauses, r) <==> MatchesTime(q, r) && MatchesExactly(q, r, EXACT_FILTERS[..i])
    {
      var f := EXACT_FILTERS[i];
      if Wanted(q, f).Some? {
        forall r ensures Selects(clauses + [EqualsClause(f, Wanted(q, f).value)], r) <==>
          Selects(clauses, r) && Column(r, f) == Wanted(q, f)
        {
          SelectsMore(clauses, EqualsClause(f, Wanted(q, f).value), r);
          EqualsClauseYes(f, Wanted(q, f).value, r);
        }
        clauses := clauses + [EqualsClause(f, Wanted(q, f).value)];
      }
      assert EXACT_FILTERS[..i+1] == EXACT_FILTERS[..i] + [f];
    }
    assert EXACT_FILTERS[..|EXACT_FILTERS|] == EXACT_FILTERS;
    assert forall r :: Selects(clauses, r) <==> MatchesTime(q, r) && MatchesExact(q, r);
    clauses := WhereLike(q, clauses);
    forall r ensures Matches(q, r) <==> Accepts(q, r) {
      MatchesIff(q, r);
    }
  }

  ghost predicate MatchesExactly(q: Query, r: Record, fields: seq<Field>) {
    forall f :: f in fields && Wanted(q, f).Some? ==> Column(r, f) == Wanted(q, f)
  }

  /** The time range of `_where`. */
  method WhereTime(q: Query) returns (clauses: seq<Clause>)
    ensures forall r :: Selects(clauses, r) <==> MatchesTime(q, r)
  {
    clauses := [];
    if q.since.Some? {
      clauses := clauses + [SinceClause(q.since.value)];
    }
    ghost var first := clauses;
    if q.until.Some? {
      forall r ensures Selects(clauses + [UntilClause(q.until.value)], r) <==>
        Selects(clauses, r) && r.timestamp < q.until.value
      {
        SelectsMore(clauses, UntilClause(q.until.value), r);
      }
      clauses := clauses + [UntilClause(q.until.value)];
    }
    assert forall r :: Selects(first, r) <==> (q.since.Some? ==> r.timestamp >= q.since.value) by {
      if q.since.Some? { assert first[1..] == []; }
    }
  }

  /** The `LIKE` clauses of `_where`. */
  method WhereLike(q: Query, clauses0: seq<Clause>) returns (clauses: seq<Clause>)
    ensures forall r :: Selects(clauses, r) <==> Selects(clauses0, r) && MatchesResource(q, r) && MatchesText(q, r)
  {
    hide Eval, EscapeLike, Selects;
    clauses := clauses0;
    if q.resourcePrefix.Some? && q.resourcePrefix.value != "" {
      var c := LikeClause(Resource, EscapeLike(q.resourcePrefix.value) + "%");
      forall r ensures Selects(clauses + [c], r) <==> Selects(clauses, r) && MatchesResource(q, r) {
        SelectsMore(clauses, c, r);
        PrefixClauseYes(q, r);
      }
      clauses := clauses + [c];
    }
    ghost var before := clauses;
    if q.text.Some? && q.text.value != "" {
      var c := AnyLikeClause(TEXT_COLUMNS, "%" + EscapeLike(q.text.value) + "%");
      forall r ensures Selects(clauses + [c], r) <==> Selects(clauses, r) && MatchesText(q, r) {
        SelectsMore(clauses, c, r);
        TextClauseYes(q, r);
      }
      clauses := clauses + [c];
    }
  }
}
