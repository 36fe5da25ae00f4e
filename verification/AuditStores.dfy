/** Orders in which search results come, and that there is only one. */
module NewestFirst {
  import opened Collections
  import opened AuditQuery

  /** A record and its number: the index in a list, or the `seq` of a row. */
  datatype Entry = Entry(number: nat, record: Record)

  /** `ORDER BY ts_us DESC, seq DESC`; the later of two equal times first. */
  predicate Newer(a: Entry, b: Entry) {
    a.record.timestamp > b.record.timestamp
    || (a.record.timestamp == b.record.timestamp && a.number > b.number)
  }

  ghost predicate Sorted(s: seq<Entry>) {
    forall i, j :: 0 <= i < j < |s| ==> Newer(s[i], s[j])
  }

  ghost predicate SameElements(a: seq<Entry>, b: seq<Entry>) {
    forall e :: e in a <==> e in b
  }

  /** The elements determine the order. */
  lemma {:induction false} OneOrder(a: seq<Entry>, b: seq<Entry>)
    requires Sorted(a) && Sorted(b) && SameElements(a, b)
    ensures a == b
  {
    if a == [] {
      NothingIn(b);
    } else {
      assert a[0] in b && b != [];
      assert b[0] in a;
      assert a[0] == b[0];
      forall e ensures e in a[1..] <==> e in b[1..] {
        assert e in a <==> e == a[0] || e in a[1..];
        assert e in b <==> e == b[0] || e in b[1..];
        assert a[0] !in a[1..] && b[0] !in b[1..];
      }
      OneOrder(a[1..], b[1..]);
    }
  }

  function Insert(e: Entry, s: seq<Entry>): seq<Entry> {
    if s == [] || Newer(e, s[0]) then [e] + s else [s[0]] + Insert(e, s[1..])
  }

  /** `sort(key=(timestamp, number), reverse=True)`. */
  function SortNewest(s: seq<Entry>): seq<Entry> {
    if s == [] then [] else Insert(s[0], SortNewest(s[1..]))
  }

  lemma {:induction false} SortLength(s: seq<Entry>)
    ensures |SortNewest(s)| == |s|
  {
    if s != [] {
      SortLength(s[1..]);
      InsertLength(s[0], SortNewest(s[1..]));
    }
  }

  lemma {:induction false} InsertLength(e: Entry, s: seq<Entry>)
    ensures |Insert(e, s)| == |s| + 1
  {
    if s != [] { InsertLength(e, s[1..]); }
  }

  ghost predicate Numbered(s: seq<Entry>) {
    forall i, j :: 0 <= i < j < |s| ==> s[i].number < s[j].number
  }

  lemma {:induction false} InsertSorts(e: Entry, s: seq<Entry>)
    requires Sorted(s) && forall x :: x in s ==> x.number != e.number
    ensures Sorted(Insert(e, s)) && forall x :: x in Insert(e, s) <==> x == e || x in s
  {
    if s != [] && !Newer(e, s[0]) {
      InsertSorts(e, s[1..]);
      var rest := Insert(e, s[1..]);
      forall i | 0 <= i < |rest| ensures Newer(s[0], rest[i]) {
        assert rest[i] in rest;
        if rest[i] != e {
          assert rest[i] in s[1..];
          var k :| 0 <= k < |s| - 1 && s[1..][k] == rest[i];
          assert Newer(s[0], s[k+1]);
        }
      }
      assert s == [s[0]] + s[1..];
    }
  }

  lemma {:induction false} SortSorts(s: seq<Entry>)
    requires Numbered(s)
    ensures Sorted(SortNewest(s)) && SameElements(SortNewest(s), s)
  {
    if s != [] {
      var rest := s[1..];
      SortSorts(rest);
      forall x | x in SortNewest(rest) ensures x.number != s[0].number {
        assert x in rest;
        var k :| 0 <= k < |rest| && rest[k] == x;
        assert s[0].number < s[k+1].number;
      }
      InsertSorts(s[0], SortNewest(rest));
      assert s == [s[0]] + rest;
    }
  }

  /** How many of the entries come before `e`. */
  function Ahead(s: seq<Entry>, e: Entry): nat {
    if s == [] then 0 else (if Newer(s[0], e) then 1 else 0) + Ahead(s[1..], e)
  }

  lemma {:induction false} InsertAhead(x: Entry, s: seq<Entry>, e: Entry)
    ensures Ahead(Insert(x, s), e) == Ahead([x] + s, e)
  {
    assert ([x] + s)[1..] == s;
    if s != [] && !Newer(x, s[0]) {
      InsertAhead(x, s[1..], e);
      assert ([x] + s[1..])[1..] == s[1..];
    }
  }

  lemma {:induction false} SortAhead(s: seq<Entry>, e: Entry)
    ensures Ahead(SortNewest(s), e) == Ahead(s, e)
  {
    if s != [] {
      SortAhead(s[1..], e);
      InsertAhead(s[0], SortNewest(s[1..]), e);
      assert ([s[0]] + SortNewest(s[1..]))[1..] == SortNewest(s[1..]);
    }
  }

  lemma {:induction false} RankInSorted(s: seq<Entry>, k: nat)
    requires Sorted(s) && k < |s|
    ensures Ahead(s, s[k]) == k
  {
    if k == 0 {
      NoneAhead(s, s[0]);
    } else {
      RankInSorted(s[1..], k - 1);
    }
  }

  lemma {:induction false} NoneAhead(s: seq<Entry>, e: Entry)
    requires forall x :: x in s ==> x == e || Newer(e, x)
    ensures Ahead(s, e) == 0
  {
    if s != [] {
      assert s[0] in s;
      NoneAhead(s[1..], e);
    }
  }

  /** A page of a result. */
  function Page<T>(s: seq<T>, offset: nat, limit: nat): seq<T> {
    var start := if offset < |s| then offset else |s|;
    var end := if start + limit < |s| then start + limit else |s|;
    s[start..end]
  }

  function Records(s: seq<Entry>): (r: seq<Record>)
    ensures |r| == |s| && forall i :: 0 <= i < |s| ==> r[i] == s[i].record
  {
    seq(|s|, i requires 0 <= i < |s| => s[i].record)
  }
}

/** The two stores as values, and what they answer. */
module StoreModel {
  import opened Wrappers
  import opened AuditQuery
  import opened NewestFirst

  /** `MemoryAuditStore`: the records in the order they were appended. */
  datatype Memory = Memory(records: seq<Record>, ids: set<string>, closed: bool)

  /** `SQLiteAuditStore`: the rows of the table by `seq`, and the next `seq` to be given. */
  datatype Table = Table(rows: seq<Entry>, nextSeq: nat, closed: bool)

  datatype Operation =
    | Append(record: Record)
    | Search(query: Query)
    | Count(query: Query)
    | Purge(cutoff: int)
    | Close

  /** What a call returns; `Failed` is an `AuditException`, `Overflow` an `OverflowError`. */
  datatype Answer = Done | Found(records: seq<Record>) | Number(n: nat) | Failed | Overflow

  /** The first integer that the engine cannot take. */
  const INTEGER_LIMIT := 0x8000_0000_0000_0000

  /** What a row keeps of a record: the engine stores a duration that is not a number as `NULL`. */
  function Stored(r: Record): Record {
    if r.durationMs == Some(NotANumber) then r.(durationMs := None) else r
  }

  function StoredAll(s: seq<Record>): (r: seq<Record>)
    ensures |r| == |s| && forall i :: 0 <= i < |s| ==> r[i] == Stored(s[i])
  {
    seq(|s|, i requires 0 <= i < |s| => Stored(s[i]))
  }

  ghost predicate MemoryValid(m: Memory) {
    && (forall id :: id in m.ids <==> exists i :: 0 <= i < |m.records| && m.records[i].id == id)
  }

  ghost predicate TableValid(t: Table) {
    Numbered(t.rows) && forall i :: 0 <= i < |t.rows| ==> t.rows[i].number < t.nextSeq
  }

  /** The records with their indices from `offset` on. */
  function Enumerate(records: seq<Record>): (s: seq<Entry>)
    ensures |s| == |records| && Numbered(s)
    ensures forall i :: 0 <= i < |s| ==> s[i] == Entry(i, records[i])
  {
    seq(|records|, i requires 0 <= i < |records| => Entry(i, records[i]))
  }

  function Matching(s: seq<Entry>, q: Query): seq<Entry> {
    if s == [] then []
    else if Matches(q, s[|s|-1].record) then Matching(s[..|s|-1], q) + [s[|s|-1]]
    else Matching(s[..|s|-1], q)
  }

  lemma {:induction false} MatchingHolds(s: seq<Entry>, q: Query)
    ensures forall e :: e in Matching(s, q) <==> e in s && Matches(q, e.record)
    ensures Numbered(s) ==> Numbered(Matching(s, q))
  {
    hide Matches;
    if s != [] {
      var rest, last := s[..|s|-1], s[|s|-1];
      MatchingHolds(rest, q);
      assert s == rest + [last];
      assert Numbered(s) ==> forall e :: e in rest ==> e.number < last.number;
    }
  }

  // ---------------------------------------------------------------- what an answer is

  /** How many of the first `n` records that pass the filters come before record `i`: those of a later time, and
      of the same time those appended after it. */
  ghost function NewerCount(records: seq<Record>, q: Query, i: nat, n: nat): nat
    requires i < |records| && n <= |records|
  {
    if n == 0 then 0
    else
      var j := n - 1;
      NewerCount(records, q, i, j)
      + if Accepts(q, records[j])
           && (records[j].timestamp > records[i].timestamp || (records[j].timestamp == records[i].timestamp && j > i))
        then 1 else 0
  }

  /** Record `i` passes the filters, and `rank` others that do come before it. */
  ghost predicate Ranks(records: seq<Record>, q: Query, i: int, rank: int) {
    0 <= i < |records| && Accepts(q, records[i]) && NewerCount(records, q, i, |records|) == rank
  }

  /** Place `k` of the page has the record of that rank. */
  ghost predicate Placed(records: seq<Record>, q: Query, found: seq<Record>, k: int)
    requires 0 <= k < |found|
  {
    exists i :: Ranks(records, q, i, q.offset + k) && found[k] == records[i]
  }

  /** The record of the rank, if that is on the page, is there. */
  ghost predicate Present(records: seq<Record>, q: Query, found: seq<Record>, i: int, rank: int) {
    Ranks(records, q, i, rank) && q.offset <= rank < q.offset + q.limit ==>
      rank - q.offset < |found| && found[rank - q.offset] == records[i]
  }

  /** The answer is the page: one after the other, from the offset on, the records that pass the filters,
      newest first, and no more of them than the limit. */
  ghost predicate Answers(records: seq<Record>, q: Query, found: seq<Record>) {
    && |found| <= q.limit
    && (forall k :: 0 <= k < |found| ==> Placed(records, q, found, k))
    && (forall i, rank :: Present(records, q, found, i, rank))
  }

  ghost function AcceptedCount(records: seq<Record>, q: Query): nat {
    if records == [] then 0
    else AcceptedCount(records[..|records|-1], q) + if Accepts(q, records[|records|-1]) then 1 else 0
  }

  lemma {:induction false} AheadAppend(s: seq<Entry>, x: Entry, e: Entry)
    ensures Ahead(s + [x], e) == Ahead(s, e) + if Newer(x, e) then 1 else 0
  {
    if s == [] {
      assert s + [x] == [x] && [x][1..] == [];
    } else {
      AheadAppend(s[1..], x, e);
      assert (s + [x])[1..] == s[1..] + [x];
    }
  }

  lemma {:induction false} AheadIsCount(s: seq<Entry>, q: Query, i: nat, n: nat)
    requires Numbered(s) && i < |s| && n <= |s|
    ensures Ahead(Matching(s[..n], q), s[i]) == NewerCount(Records(s), q, i, n)
  {
    hide Accepts, Matches;
    if n > 0 {
      var j := n - 1;
      AheadIsCount(s, q, i, j);
      MatchesIff(q, s[j].record);
      AheadAppend(Matching(s[..j], q), s[j], s[i]);
      assert s[..n][..j] == s[..j] && s[..n][j] == s[j];
      assert s[j].number > s[i].number <==> j > i;
    }
  }

  lemma {:induction false} CountIsAccepted(s: seq<Entry>, q: Query)
    ensures |Matching(s, q)| == AcceptedCount(Records(s), q)
  {
    hide Accepts, Matches;
    if s != [] {
      var init := s[..|s|-1];
      CountIsAccepted(init, q);
      MatchesIff(q, s[|s|-1].record);
      assert Records(s)[..|s|-1] == Records(init);
    }
  }

  /** The entry at place `k` of the sorted ones that match is the record of that rank, and the other way round. */
  lemma {:induction false} RankIs(s: seq<Entry>, q: Query, i: nat, k: nat)
    requires Numbered(s) && i < |s|
    ensures Ranks(Records(s), q, i, k) <==>
      k < |SortNewest(Matching(s, q))| && SortNewest(Matching(s, q))[k] == s[i]
  {
    hide Accepts, Matches, SortNewest, Ahead, Newer, Numbered, Matching;
    var m := Matching(s, q);
    var sorted := SortNewest(m);
    MatchesIff(q, s[i].record);
    MatchingHolds(s, q);
    SortSorts(m);
    AheadIsCount(s, q, i, |s|);
    assert s[..|s|] == s;
    SortAhead(m, s[i]);
    if k < |sorted| && sorted[k] == s[i] {
      RankInSorted(sorted, k);
      assert s[i] in sorted;
    }
    if Ranks(Records(s), q, i, k) {
      assert s[i] in m && s[i] in sorted;
      var j :| 0 <= j < |sorted| && sorted[j] == s[i];
      RankInSorted(sorted, j);
    }
  }

  lemma {:induction false} PagePlaced(s: seq<Entry>, q: Query, k: nat)
    requires Numbered(s) && k < |Page(Records(SortNewest(Matching(s, q))), q.offset, q.limit)|
    ensures Placed(Records(s), q, Page(Records(SortNewest(Matching(s, q))), q.offset, q.limit), k)
  {
    hide Accepts, NewerCount, SortNewest, Matching, Numbered, Ranks;
    var sorted, found := SortNewest(Matching(s, q)), Page(Records(SortNewest(Matching(s, q))), q.offset, q.limit);
    MatchingHolds(s, q);
    SortSorts(Matching(s, q));
    var e := sorted[q.offset + k];
    assert e in sorted && e in s;
    var i :| 0 <= i < |s| && s[i] == e;
    RankIs(s, q, i, q.offset + k);
    assert Ranks(Records(s), q, i, q.offset + k) && found[k] == Records(s)[i];
  }

  lemma {:induction false} PagePresent(s: seq<Entry>, q: Query, i: int, rank: int)
    requires Numbered(s)
    ensures Present(Records(s), q, Page(Records(SortNewest(Matching(s, q))), q.offset, q.limit), i, rank)
  {
    hide Accepts, NewerCount, SortNewest, Matching, Numbered;
    if Ranks(Records(s), q, i, rank) && q.offset <= rank < q.offset + q.limit {
      RankIs(s, q, i, rank);
    }
  }

  /** The page of the sorted ones that match is the answer. */
  lemma {:induction false} PageAnswers(s: seq<Entry>, q: Query)
    requires Numbered(s)
    ensures Answers(Records(s), q, Page(Records(SortNewest(Matching(s, q))), q.offset, q.limit))
  {
    hide Placed, Present, SortNewest, Matching, Numbered;
    var found := Page(Records(SortNewest(Matching(s, q))), q.offset, q.limit);
    forall k | 0 <= k < |found| ensures Placed(Records(s), q, found, k) { PagePlaced(s, q, k); }
    forall i, rank ensures Present(Records(s), q, found, i, rank) { PagePresent(s, q, i, rank); }
  }

  /** Purging a list is purging its parts. */
  lemma {:induction false} KeptParts(a: seq<Record>, b: seq<Record>, r: Record, cutoff: int)
    ensures KeptRecords(a + b, cutoff) == KeptRecords(a, cutoff) + KeptRecords(b, cutoff)
    ensures KeptRecords([r], cutoff) == if r.timestamp >= cutoff then [r] else []
    decreases |b|
  {
    assert [r][..0] == [];
    if b == [] {
      assert a + b == a;
    } else {
      assert (a + b)[..|a+b|-1] == a + b[..|b|-1];
      KeptParts(a, b[..|b|-1], r, cutoff);
    }
  }

  function KeptRecords(s: seq<Record>, cutoff: int): seq<Record> {
    if s == [] then []
    else
      var rest, last := KeptRecords(s[..|s|-1], cutoff), s[|s|-1];
      if last.timestamp >= cutoff then rest + [last] else rest
  }

  function KeptRows(s: seq<Entry>, cutoff: int): (r: seq<Entry>)
    ensures |r| <= |s| && forall e :: e in r ==> e in s
    ensures Numbered(s) ==> Numbered(r)
  {
    if s == [] then []
    else
      var rest, last := KeptRows(s[..|s|-1], cutoff), s[|s|-1];
      assert s == s[..|s|-1] + [last];
      assert Numbered(s) ==> forall e :: e in s[..|s|-1] ==> e.number < last.number;
      if last.record.timestamp < cutoff then rest else rest + [last]
  }

  // ---------------------------------------------------------------- the memory store

  function MemorySearch(m: Memory, q: Query): seq<Record> {
    Page(Records(SortNewest(Matching(Enumerate(m.records), q))), q.offset, q.limit)
  }

  ghost function MemoryStep(m: Memory, op: Operation): (Memory, Answer) {
    if op.Close? then (m.(closed := true), Done)
    else if m.closed then (m, Failed)
    else match op
      case Append(r) =>
        if r.id in m.ids then (m, Failed) else (Memory(m.records + [r], m.ids + {r.id}, false), Done)
      case Search(q) => (m, Found(MemorySearch(m, q)))
      case Count(q) => (m, Number(|Matching(Enumerate(m.records), q)|))
      case Purge(cutoff) =>
        var kept := KeptRecords(m.records, cutoff);
        (Memory(kept, set i | 0 <= i < |kept| :: kept[i].id, false),
         Number(if |kept| <= |m.records| then |m.records| - |kept| else 0))
      case Close => (m, Done)
  }

  // ---------------------------------------------------------------- the table

  /** What the engine may return for the search: some order of the selected rows that puts the
      newest first, cut to the page. */
  ghost predicate SelectResult(t: Table, q: Query, out: seq<Record>) {
    exists ordered :: Sorted(ordered) && SameElements(ordered, Matching(t.rows, q))
      && out == Page(Records(ordered), q.offset, q.limit)
  }

  ghost predicate TableStep(t: Table, op: Operation, t': Table, a: Answer) {
    match op
    case Close => t' == t.(closed := true) && a == Done
    case Search(q) =>
      t' == t
      && (if q.limit == 0 then a == Found([])
          else if t.closed then a == Failed
          else if q.offset >= INTEGER_LIMIT then a == Overflow
          else a.Found? && SelectResult(t, q, a.records))
    case Append(r) =>
      if t.closed || exists i :: 0 <= i < |t.rows| && t.rows[i].record.id == r.id then t' == t && a == Failed
      else t' == Table(t.rows + [Entry(t.nextSeq, Stored(r))], t.nextSeq + 1, false) && a == Done
    case Count(q) =>
      t' == t && a == (if t.closed then Failed else Number(|Matching(t.rows, q)|))
    case Purge(cutoff) =>
      if t.closed then t' == t && a == Failed
      else
        var kept := KeptRows(t.rows, cutoff);
        t' == t.(rows := kept) && a == Number(|t.rows| - |kept|)
  }

  // ---------------------------------------------------------------- the two agree

  /** The table holds the records of the list, as it keeps them, in the same order. */
  ghost predicate Agree(m: Memory, t: Table) {
    && MemoryValid(m) && TableValid(t) && m.closed == t.closed
    && Records(t.rows) == StoredAll(m.records)
  }

  lemma StoredMatches(q: Query, r: Record)
    ensures Matches(q, Stored(r)) == Matches(q, r)
  {
    assert forall f :: Column(Stored(r), f) == Column(r, f);
  }

  lemma {:induction false} MatchingAgrees(a: seq<Entry>, b: seq<Entry>, q: Query)
    requires SameRanks(a, b)
    ensures SameRanks(Matching(a, q), Matching(b, q))
  {
    hide Matches;
    if a != [] {
      MatchingAgrees(a[..|a|-1], b[..|b|-1], q);
      StoredMatches(q, a[|a|-1].record);
    }
  }

  /** Element by element what a row keeps of the record. */
  ghost predicate SameRanks(a: seq<Entry>, b: seq<Entry>) {
    |a| == |b| && forall i :: 0 <= i < |a| ==> b[i].record == Stored(a[i].record)
  }

  /** Renumbering that keeps the order of the numbers keeps the order of the result. */
  lemma {:induction false} RenumberedOrder(a: seq<Entry>, b: seq<Entry>)
    requires SameRanks(a, b) && Numbered(a) && Numbered(b)
    ensures SameRanks(SortNewest(a), SortNewest(b))
  {
    hide Stored, Insert;
    if a != [] {
      RenumberedOrder(a[1..], b[1..]);
      FirstIsLowest(a);
      FirstIsLowest(b);
      InsertAgrees(a[0], b[0], SortNewest(a[1..]), SortNewest(b[1..]));
    }
  }

  lemma FirstIsLowest(s: seq<Entry>)
    requires Numbered(s) && s != []
    ensures Numbered(s[1..]) && forall e :: e in SortNewest(s[1..]) ==> s[0].number < e.number
  {
    SortSorts(s[1..]);
  }

  lemma {:induction false} InsertAgrees(x: Entry, y: Entry, s: seq<Entry>, u: seq<Entry>)
    requires SameRanks(s, u) && y.record == Stored(x.record)
    requires (forall e :: e in s ==> x.number < e.number) && forall e :: e in u ==> y.number < e.number
    ensures SameRanks(Insert(x, s), Insert(y, u))
    decreases |s|
  {
    if s != [] {
      assert s[0] in s && u[0] in u;
      assert Newer(x, s[0]) <==> Newer(y, u[0]);
      if !Newer(x, s[0]) { InsertAgrees(x, y, s[1..], u[1..]); }
    }
  }

  lemma PageStored(a: seq<Entry>, b: seq<Entry>, offset: nat, limit: nat)
    requires SameRanks(a, b)
    ensures Page(Records(b), offset, limit) == StoredAll(Page(Records(a), offset, limit))
  {
    hide Stored;
    assert Records(b) == StoredAll(Records(a));
  }

  /** Whatever order the engine chose to build its answer in, it is the memory store's answer, as rows keep it. */
  lemma SearchAgrees(m: Memory, t: Table, q: Query, out: seq<Record>)
    requires Agree(m, t) && SelectResult(t, q, out)
    ensures out == StoredAll(MemorySearch(m, q))
  {
    hide Matching, Stored, Sorted, SameElements, Page, SortNewest, Numbered;
    var ordered :| Sorted(ordered) && SameElements(ordered, Matching(t.rows, q))
      && out == Page(Records(ordered), q.offset, q.limit);
    var a, b := Matching(Enumerate(m.records), q), Matching(t.rows, q);
    RowsAgree(m, t);
    MatchingAgrees(Enumerate(m.records), t.rows, q);
    MatchingHolds(Enumerate(m.records), q);
    MatchingHolds(t.rows, q);
    RenumberedOrder(a, b);
    SortSorts(b);
    SameSorted(ordered, b);
    OneOrder(ordered, SortNewest(b));
    PageStored(SortNewest(a), SortNewest(b), q.offset, q.limit);
  }

  lemma RowsAgree(m: Memory, t: Table)
    requires Agree(m, t)
    ensures SameRanks(Enumerate(m.records), t.rows) && Numbered(t.rows)
  {
    hide Stored;
    forall i | 0 <= i < |t.rows| ensures t.rows[i].record == Stored(m.records[i]) {
      assert Records(t.rows)[i] == StoredAll(m.records)[i];
    }
    assert |Records(t.rows)| == |StoredAll(m.records)|;
  }

  lemma SameSorted(ordered: seq<Entry>, s: seq<Entry>)
    requires SameElements(ordered, s) && SameElements(SortNewest(s), s)
    ensures SameElements(ordered, SortNewest(s))
  {
  }

  lemma {:induction false} PurgeAgrees(records: seq<Record>, rows: seq<Entry>, cutoff: int)
    requires Records(rows) == StoredAll(records)
    ensures Records(KeptRows(rows, cutoff)) == StoredAll(KeptRecords(records, cutoff))
    ensures |KeptRecords(records, cutoff)| <= |rows|
    decreases |rows|
  {
    hide Stored, Records, StoredAll;
    LastAgrees(records, rows);
    if rows != [] {
      var n := |rows| - 1;
      PurgeAgrees(records[..n], rows[..n], cutoff);
      OneMore(KeptRecords(records[..n], cutoff), KeptRows(rows[..n], cutoff), records[n], rows[n]);
    }
  }

  lemma LastAgrees(records: seq<Record>, rows: seq<Entry>)
    requires Records(rows) == StoredAll(records)
    ensures |records| == |rows| && (rows == [] ==> Records([]) == StoredAll([]))
    ensures rows != [] ==>
      var n := |rows| - 1;
      rows[n].record == Stored(records[n]) && rows[n].record.timestamp == records[n].timestamp
      && Records(rows[..n]) == StoredAll(records[..n])
  {
    forall i | 0 <= i < |rows| ensures rows[i].record == Stored(records[i]) {
      assert Records(rows)[i] == StoredAll(records)[i];
    }
    assert |Records(rows)| == |StoredAll(records)|;
    hide Stored;
    assert rows != [] ==> Records(rows[..|rows|-1]) == StoredAll(records[..|rows|-1]);
  }

  lemma OneMore(records: seq<Record>, rows: seq<Entry>, r: Record, e: Entry)
    requires Records(rows) == StoredAll(records) && e.record == Stored(r)
    ensures Records(rows + [e]) == StoredAll(records + [r])
  {
    hide Stored;
    assert Records(rows + [e]) == Records(rows) + [e.record];
    assert StoredAll(records + [r]) == StoredAll(records) + [Stored(r)];
  }

  /** The record comes back from a row as another one. */
  predicate Altered(r: Record) {
    r.durationMs == Some(NotANumber)
  }

  lemma StoredAllIff(s: seq<Record>)
    ensures StoredAll(s) == s <==> forall i :: 0 <= i < |s| ==> !Altered(s[i])
  {
    assert forall i :: 0 <= i < |s| ==> (Stored(s[i]) == s[i] <==> !Altered(s[i]));
    assert (forall i :: 0 <= i < |s| ==> StoredAll(s)[i] == s[i]) ==> StoredAll(s) == s;
  }

  /** The record is one that the query asks for: it matches, and as many that match as the offset says come
      before it, and fewer than the page holds besides. */
  ghost predicate OnPage(m: Memory, q: Query, i: int) {
    0 <= i < |m.records| && Matches(q, m.records[i])
    && q.offset <= Ahead(Matching(Enumerate(m.records), q), Entry(i, m.records[i])) < q.offset + q.limit
  }

  /** Where the answers of the stores differ: a closed table still answers a search for no records; an open
      one raises for an offset that its engine cannot take; and a duration that is not a number comes back absent. */
  ghost predicate Differs(m: Memory, op: Operation) {
    op.Search? &&
    if m.closed then op.query.limit == 0
    else (op.query.limit > 0 && op.query.offset >= INTEGER_LIMIT)
         || exists i :: OnPage(m, op.query, i) && Altered(m.records[i])
  }

  /** The entry at place `k` of all that match, and its record in the list. */
  lemma {:induction false} EntryAt(m: Memory, q: Query, k: nat) returns (i: nat)
    requires k < |SortNewest(Matching(Enumerate(m.records), q))|
    ensures i < |m.records| && Matches(q, m.records[i])
    ensures var s := Matching(Enumerate(m.records), q);
      SortNewest(s)[k] == Entry(i, m.records[i]) && Ahead(s, Entry(i, m.records[i])) == k
  {
    hide Matching, SortNewest, Ahead, Matches, Newer;
    var s := Matching(Enumerate(m.records), q);
    MatchingHolds(Enumerate(m.records), q);
    SortSorts(s);
    var e := SortNewest(s)[k];
    assert e in s;
    RankInSorted(SortNewest(s), k);
    SortAhead(s, e);
    i := e.number;
  }

  /** The place of a matching record among all that match. */
  lemma {:induction false} PlaceOf(m: Memory, q: Query, i: nat) returns (k: nat)
    requires i < |m.records| && Matches(q, m.records[i])
    ensures var s := Matching(Enumerate(m.records), q);
      k < |SortNewest(s)| && SortNewest(s)[k] == Entry(i, m.records[i]) && Ahead(s, Entry(i, m.records[i])) == k
  {
    hide Matching, SortNewest, Ahead, Matches, Newer;
    var s, e := Matching(Enumerate(m.records), q), Entry(i, m.records[i]);
    assert Enumerate(m.records)[i] == e;
    MatchingHolds(Enumerate(m.records), q);
    SortSorts(s);
    assert e in SortNewest(s);
    k :| 0 <= k < |SortNewest(s)| && SortNewest(s)[k] == e;
    RankInSorted(SortNewest(s), k);
    SortAhead(s, e);
  }

  /** The page holds just the records on it. */
  lemma {:induction false} PageIff(m: Memory, q: Query)
    ensures var found := MemorySearch(m, q);
      (exists k :: 0 <= k < |found| && Altered(found[k])) <==> exists i :: OnPage(m, q, i) && Altered(m.records[i])
  {
    hide Altered, Matching, SortNewest, Ahead, Matches, Enumerate;
    var found := MemorySearch(m, q);
    if k :| 0 <= k < |found| && Altered(found[k]) {
      var i := EntryAt(m, q, q.offset + k);
      assert OnPage(m, q, i) && found[k] == m.records[i];
    }
    if i :| OnPage(m, q, i) && Altered(m.records[i]) {
      var k := PlaceOf(m, q, i);
      assert found[k - q.offset] == m.records[i];
    }
  }

  /** One call on both stores: the states agree again, and the answers are equal exactly if the call is not
      one of those on which the stores differ. */
  lemma StepAgrees(m: Memory, t: Table, op: Operation, t': Table, a: Answer)
    requires Agree(m, t) && TableStep(t, op, t', a)
    ensures Agree(MemoryStep(m, op).0, t')
    ensures a == MemoryStep(m, op).1 <==> !Differs(m, op)
  {
    hide Matching, KeptRows, KeptRecords, SelectResult, SortNewest, Altered, Stored;
    match op
    case Close =>
    case Search(q) => SearchStep(m, t, q, a);
    case Count(q) =>
      RowsAgree(m, t);
      MatchingAgrees(Enumerate(m.records), t.rows, q);
    case Append(r) =>
      AppendAgrees(m, t, r);
    case Purge(cutoff) =>
      PurgeStep(m, t, cutoff);
  }

  lemma SearchStep(m: Memory, t: Table, q: Query, a: Answer)
    requires Agree(m, t) && TableStep(t, Operation.Search(q), t, a)
    ensures a == MemoryStep(m, Operation.Search(q)).1 <==> !Differs(m, Operation.Search(q))
  {
    hide Matching, SelectResult, SortNewest, Agree, Altered, Page, OnPage;
    assert m.closed == t.closed by { AgreeParts(m, t); }
    var found := MemorySearch(m, q);
    if q.limit == 0 {
      NoPage(Records(SortNewest(Matching(Enumerate(m.records), q))), q.offset);
    } else if !t.closed && q.offset < INTEGER_LIMIT {
      SearchAgrees(m, t, q, a.records);
      StoredAllIff(found);
    }
    PageIff(m, q);
  }

  lemma AgreeParts(m: Memory, t: Table)
    requires Agree(m, t)
    ensures m.closed == t.closed
  {
  }

  lemma NoPage<T>(s: seq<T>, offset: nat)
    ensures Page(s, offset, 0) == []
  {
  }

  lemma PurgeStep(m: Memory, t: Table, cutoff: int)
    requires Agree(m, t)
    ensures var kept := KeptRecords(m.records, cutoff);
      && Agree(m.(records := kept, ids := set i | 0 <= i < |kept| :: kept[i].id), t.(rows := KeptRows(t.rows, cutoff)))
      && |kept| == |KeptRows(t.rows, cutoff)| <= |m.records| == |t.rows|
  {
    PurgeAgrees(m.records, t.rows, cutoff);
    hide KeptRows, KeptRecords;
    var rows := KeptRows(t.rows, cutoff);
    forall i | 0 <= i < |rows| ensures rows[i].number < t.nextSeq {
      assert rows[i] in t.rows;
    }
  }

  lemma AppendAgrees(m: Memory, t: Table, r: Record)
    requires Agree(m, t)
    ensures r.id in m.ids <==> exists i :: 0 <= i < |t.rows| && t.rows[i].record.id == r.id
    ensures !t.closed && r.id !in m.ids ==>
      Agree(Memory(m.records + [r], m.ids + {r.id}, false),
            Table(t.rows + [Entry(t.nextSeq, Stored(r))], t.nextSeq + 1, false))
  {
    hide Stored, MemoryValid, TableValid;
    IdsAgree(m, t, r.id);
    MemoryGrows(m, r);
    TableGrows(t, Stored(r));
    var rows := t.rows + [Entry(t.nextSeq, Stored(r))];
    RowsAgree(m, t);
    assert Records(rows) == StoredAll(m.records + [r]);
  }

  lemma IdsAgree(m: Memory, t: Table, id: string)
    requires Agree(m, t)
    ensures id in m.ids <==> exists i :: 0 <= i < |t.rows| && t.rows[i].record.id == id
  {
    RowsAgree(m, t);
    hide TableValid;
    if id in m.ids {
      var i :| 0 <= i < |m.records| && m.records[i].id == id;
      assert t.rows[i].record.id == id;
    }
    if i :| 0 <= i < |t.rows| && t.rows[i].record.id == id {
      assert m.records[i].id == id;
    }
  }

  lemma MemoryGrows(m: Memory, r: Record)
    requires MemoryValid(m)
    ensures MemoryValid(Memory(m.records + [r], m.ids + {r.id}, false))
  {
    var records := m.records + [r];
    forall id ensures id in m.ids + {r.id} <==> exists i :: 0 <= i < |records| && records[i].id == id {
      if id in m.ids {
        var i :| 0 <= i < |m.records| && m.records[i].id == id;
        assert records[i].id == id;
      }
      assert records[|m.records|].id == r.id;
    }
  }

  lemma TableGrows(t: Table, r: Record)
    requires TableValid(t)
    ensures TableValid(Table(t.rows + [Entry(t.nextSeq, r)], t.nextSeq + 1, false))
  {
  }

  // ---------------------------------------------------------------- whole histories

  ghost function MemoryRun(ops: seq<Operation>): (Memory, seq<Answer>) {
    if ops == [] then (Memory([], {}, false), [])
    else
      var (m, answers) := MemoryRun(ops[..|ops|-1]);
      var (m', a) := MemoryStep(m, ops[|ops|-1]);
      (m', answers + [a])
  }

  /** `states` and `answers` are one possible run of the table from empty. */
  ghost predicate TableRun(ops: seq<Operation>, states: seq<Table>, answers: seq<Answer>) {
    && |states| == |ops| + 1 && |answers| == |ops| && states[0] == Table([], 1, false)
    && forall i :: 0 <= i < |ops| ==> TableStep(states[i], ops[i], states[i+1], answers[i])
  }

  lemma StartAgrees()
    ensures Agree(Memory([], {}, false), Table([], 1, false))
  {
  }

  lemma {:induction false} RunAgrees(ops: seq<Operation>, states: seq<Table>, answers: seq<Answer>)
    requires TableRun(ops, states, answers)
    ensures Agree(MemoryRun(ops).0, states[|ops|]) && |MemoryRun(ops).1| == |ops|
    ensures forall i :: 0 <= i < |ops| ==>
      (answers[i] == MemoryRun(ops).1[i] <==> !Differs(MemoryRun(ops[..i]).0, ops[i]))
  {
    hide TableStep, MemoryStep, Agree, Differs;
    StartAgrees();
    if ops != [] {
      var n := |ops| - 1;
      RunAgrees(ops[..n], states[..n+1], answers[..n]);
      assert TableStep(states[n], ops[n], states[n+1], answers[n]);
      assert forall i :: 0 <= i < n ==> ops[..n][..i] == ops[..i];
      StepAgrees(MemoryRun(ops[..n]).0, states[n], ops[n], states[n+1], answers[n]);
    }
  }

  /** The two stores, empty and open, asked for an offset beyond the engine's integers. */
  lemma HugeOffsetRaises(q: Query, a: Answer, t': Table)
    requires q.limit > 0 && q.offset >= 0x8000_0000_0000_0000
    requires TableStep(Table([], 1, false), Operation.Search(q), t', a)
    ensures a == Overflow && MemoryStep(Memory([], {}, false), Operation.Search(q)).1 == Found([])
  {
    assert Enumerate([]) == [] && Matching([], q) == [];
  }

  /** Closed, and asked for no records. */
  lemma ClosedStoreAnswers(q: Query, a: Answer, t': Table)
    requires q.limit == 0 && TableStep(Table([], 1, true), Operation.Search(q), t', a)
    ensures a == Found([]) && MemoryStep(Memory([], {}, true), Operation.Search(q)).1 == Failed
  {
  }

  /** Holding one record with a duration that is not a number, asked for all. */
  lemma NoNumberComesBackAbsent(r: Record, q: Query, a: Answer, t': Table)
    requires r.durationMs == Some(NotANumber) && Matches(q, r) && q.offset == 0 && q.limit > 0
    requires TableStep(Table([Entry(1, Stored(r))], 2, false), Operation.Search(q), t', a)
    ensures MemoryStep(Memory([r], {r.id}, false), Operation.Search(q)).1 == Found([r])
    ensures a == Found([r.(durationMs := None)])
  {
    hide Matches;
    var m, t := Memory([r], {r.id}, false), Table([Entry(1, Stored(r))], 2, false);
    assert Enumerate([r]) == [Entry(0, r)] && [Entry(0, r)][..0] == [];
    assert Matching(Enumerate([r]), q) == [Entry(0, r)];
    var s := [Entry(0, r)];
    assert s[1..] == [] && SortNewest(s) == s;
    assert Records(s) == [r] && Page([r], 0, q.limit) == [r];
    assert m.records[0].id == r.id && Records(t.rows) == StoredAll(m.records);
    assert Agree(m, t);
    SearchAgrees(m, t, q, a.records);
    assert StoredAll([r]) == [Stored(r)];
  }
}

/** The two stores as classes. */
module AuditStores {
  import opened Wrappers
  import opened AuditQuery
  import opened NewestFirst
  import opened StoreModel

  class MemoryAuditStore {
    var records: seq<Record>
    var ids: set<string>
    var closed: bool

    ghost function View(): Memory
      reads this
    {
      Memory(records, ids, closed)
    }

    constructor ()
      ensures View() == Memory([], {}, false)
    {
      records, ids, closed := [], {}, false;
    }

    method Append(record: Record) returns (a: Answer)
      modifies this
      ensures (View(), a) == MemoryStep(old(View()), Operation.Append(record))
      ensures var added := !old(closed) && record.id !in old(ids);
        && a == (if added then Done else Failed) && closed == old(closed)
        && records == (if added then old(records) + [record] else old(records))
        && ids == (if added then old(ids) + {record.id} else old(ids))
    {
      if closed { return Failed; }
      if record.id in ids { return Failed; }
      ids := ids + {record.id};
      records := records + [record];
      return Done;
    }

    method Search(query: Query) returns (a: Answer)
      ensures (View(), a) == MemoryStep(View(), Operation.Search(query))
      ensures if closed then a == Failed else a.Found? && Answers(records, query, a.records)
    {
      hide Answers;
      if closed { return Failed; }
      PageAnswers(Enumerate(records), query);
      assert Records(Enumerate(records)) == records;
      var matched := Matched(query);
      return Found(Page(Records(matched), query.offset, query.limit));
    }

    method Count(query: Query) returns (a: Answer)
      ensures (View(), a) == MemoryStep(View(), Operation.Count(query))
      ensures a == if closed then Failed else Number(AcceptedCount(records, query))
    {
      if closed { return Failed; }
      CountIsAccepted(Enumerate(records), query);
      assert Records(Enumerate(records)) == records;
      var matched := Matched(query);
      SortLength(Matching(Enumerate(records), query));
      return Number(|matched|);
    }

    /** `_matching`. */
    method Matched(query: Query) returns (matched: seq<Entry>)
      ensures matched == SortNewest(Matching(Enumerate(records), query))
    {
      hide Matches;
      var numbered := Enumerate(records);
      matched := [];
      for i := 0 to |numbered|
        invariant matched == Matching(numbered[..i], query)
      {
        assert numbered[..i+1][..i] == numbered[..i];
        if Matches(query, numbered[i].record) {
          matched := matched + [numbered[i]];
        }
      }
      assert numbered[..|numbered|] == numbered;
      matched := SortNewest(matched);
    }

    method Purge(cutoff: int) returns (a: Answer)
      modifies this
      ensures (View(), a) == MemoryStep(old(View()), Operation.Purge(cutoff))
      ensures old(closed) ==> View() == old(View()) && a == Failed
      ensures !old(closed) ==> records == KeptRecords(old(records), cutoff)
      ensures !old(closed) ==> |records| <= |old(records)| && a == Number(|old(records)| - |records|)
    {
      if closed { return Failed; }
      var kept: seq<Record> := [];
      for i := 0 to |records|
        invariant kept == KeptRecords(records[..i], cutoff) && |kept| <= i
      {
        assert records[..i+1][..i] == records[..i];
        if records[i].timestamp >= cutoff {
          kept := kept + [records[i]];
        }
      }
      assert records[..|records|] == records;
      var removed := |records| - |kept|;
      records := kept;
      ids := set i | 0 <= i < |kept| :: kept[i].id;
      return Number(removed);
    }

    method Close() returns (a: Answer)
      modifies this
      ensures (View(), a) == MemoryStep(old(View()), Operation.Close)
    {
      closed := true;
      return Done;
    }
  }

  class SqliteAuditStore {
    var rows: seq<Entry>
    var nextSeq: nat
    var closed: bool

    ghost function View(): Table
      reads this
    {
      Table(rows, nextSeq, closed)
    }

    constructor ()
      ensures View() == Table([], 1, false)
    {
      rows, nextSeq, closed := [], 1, false;
    }

    method Append(record: Record) returns (a: Answer)
      modifies this
      ensures TableStep(old(View()), Operation.Append(record), View(), a)
      ensures var added := !old(closed) && forall i :: 0 <= i < |old(rows)| ==> old(rows)[i].record.id != record.id;
        if !added then View() == old(View()) && a == Failed
        else
          a == Done && closed == old(closed) && nextSeq == old(nextSeq) + 1
          && |rows| == |old(rows)| + 1 && rows[..|old(rows)|] == old(rows)
          && rows[|old(rows)|].number == old(nextSeq)
          && rows[|old(rows)|].record ==
               (if record.durationMs == Some(NotANumber) then record.(durationMs := None) else record)
    {
      if closed { return Failed; }
      for i := 0 to |rows|
        invariant forall j :: 0 <= j < i ==> rows[j].record.id != record.id
      {
        if rows[i].record.id == record.id { return Failed; }
      }
      rows := rows + [Entry(nextSeq, Stored(record))];
      nextSeq := nextSeq + 1;
      return Done;
    }

    method Search(query: Query) returns (a: Answer)
      requires TableValid(View())
      ensures TableStep(View(), Operation.Search(query), View(), a)
      ensures query.limit > 0 && !closed && query.offset < 0x8000_0000_0000_0000 ==>
        a.Found? && Answers(Records(rows), query, a.records)
    {
      hide Matches, Selects, Matching, Page, Answers;
      PageAnswers(rows, query);
      if query.limit == 0 { return Found([]); }
      if closed { return Failed; }
      if query.offset >= INTEGER_LIMIT { return Overflow; }
      var clauses := Where(query);
      var selected := Scan(clauses, query);
      MatchingHolds(rows, query);
      SortSorts(selected);
      assert SelectResult(View(), query, Page(Records(SortNewest(selected)), query.offset, query.limit));
      return Found(Page(Records(SortNewest(selected)), query.offset, query.limit));
    }

    method Count(query: Query) returns (a: Answer)
      ensures TableStep(View(), Operation.Count(query), View(), a)
      ensures a == if closed then Failed else Number(AcceptedCount(Records(rows), query))
    {
      hide Matches, Selects;
      if closed { return Failed; }
      CountIsAccepted(rows, query);
      var clauses := Where(query);
      var selected := Scan(clauses, query);
      return Number(|selected|);
    }

    /** The rows that pass the `WHERE` clause of `query`. */
    method Scan(clauses: seq<Clause>, ghost query: Query) returns (selected: seq<Entry>)
      requires forall r :: Selects(clauses, r) <==> Matches(query, r)
      ensures selected == Matching(rows, query)
    {
      hide Matches, Selects;
      selected := [];
      for i := 0 to |rows|
        invariant selected == Matching(rows[..i], query)
      {
        assert rows[..i+1][..i] == rows[..i];
        if Selects(clauses, rows[i].record) {
          selected := selected + [rows[i]];
        }
      }
      assert rows[..|rows|] == rows;
    }

    method Purge(cutoff: int) returns (a: Answer)
      modifies this
      ensures TableStep(old(View()), Operation.Purge(cutoff), View(), a)
    {
      if closed { return Failed; }
      var before := |rows|;
      rows := KeptRows(rows, cutoff);
      return Number(before - |rows|);
    }

    method Close() returns (a: Answer)
      modifies this
      ensures TableStep(old(View()), Operation.Close, View(), a)
    {
      closed := true;
      return Done;
    }
  }
}
