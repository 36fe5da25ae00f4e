/** The queue table as a value: its transactions, and what holds over whole runs of them. */
module QueueModel {
  import opened Wrappers

  datatype Status = Ready | Inflight | Dead

  datatype Row = Row(action: string, priority: int, runAt: real, enqueuedAt: real, attempts: nat,
                     status: Status, lastError: Option<string>)

  /** `nextId` is what `AUTOINCREMENT` gives next: identifiers are never used again. */
  datatype Queue = Queue(rows: map<int, Row>, nextId: int)

  /** The transactions of all producers and consumers, in the order they run. */
  datatype Op =
    | Enqueue(action: string, priority: int, runAt: Option<real>, now: real)
    | Dequeue(now: real)
    | Ack(id: int)
    | Nack(id: int, requeue: bool, reason: string, delay: real, now: real)
    | Purge

  const EMPTY := Queue(map[], 1)

  predicate Due(q: Queue, id: int, now: real) {
    id in q.rows && q.rows[id].status.Ready? && q.rows[id].runAt <= now
  }

  /** The first of the due rows with an identifier below `n` by priority descending, then identifier. */
  function FirstBelow(q: Queue, now: real, n: nat): (r: Option<int>)
    ensures r.Some? ==> Due(q, r.value, now)
  {
    if n == 0 then None
    else
      var best := FirstBelow(q, now, n - 1);
      if Due(q, n - 1, now) && (best.None? || q.rows[n-1].priority > q.rows[best.value].priority)
      then Some(n - 1) else best
  }

  /** The `SELECT` of `dequeue`. */
  function Next(q: Queue, now: real): (r: Option<int>)
    ensures r.Some? ==> Due(q, r.value, now)
  {
    if q.nextId <= 0 then None else FirstBelow(q, now, q.nextId)
  }

  function Claimed(row: Row): Row {
    row.(status := Inflight, attempts := row.attempts + 1)
  }

  function Max(x: real, y: real): real {
    if x < y then y else x
  }

  function Nacked(row: Row, requeue: bool, reason: string, delay: real, now: real): Row {
    row.(status := if requeue then Ready else Dead, lastError := if reason == "" then None else Some(reason),
         runAt := now + Max(delay, 0.0))
  }

  function Step(q: Queue, op: Op): Queue {
    match op
    case Enqueue(action, priority, runAt, now) =>
      var due := if runAt.Some? then runAt.value else now;
      Queue(q.rows[q.nextId := Row(action, priority, due, now, 0, Ready, None)], q.nextId + 1)
    case Dequeue(now) =>
      var next := Next(q, now);
      if next.Some? then q.(rows := q.rows[next.value := Claimed(q.rows[next.value])]) else q
    case Ack(id) => q.(rows := q.rows - {id})
    case Nack(id, requeue, reason, delay, now) =>
      if id in q.rows then q.(rows := q.rows[id := Nacked(q.rows[id], requeue, reason, delay, now)]) else q
    case Purge => q.(rows := map[])
  }

  function After(run: seq<Op>): Queue {
    if run == [] then EMPTY else Step(After(run[..|run|-1]), run[|run|-1])
  }

  ghost predicate Sound(q: Queue) {
    q.nextId >= 1 && forall id :: id in q.rows ==> 1 <= id < q.nextId
  }

  /** Identifiers stay below the next one. */
  lemma {:induction false} RunIsSound(run: seq<Op>)
    ensures Sound(After(run))
  {
    if run != [] {
      RunIsSound(run[..|run|-1]);
    }
  }

  // ---------------------------------------------------------------- what a row keeps

  /** When row `id` is due, by the operations that put it in the queue and sent it back. */
  function DueAt(run: seq<Op>, id: int): Option<real> {
    if run == [] then None
    else
      var init, last := run[..|run|-1], run[|run|-1];
      if last.Enqueue? && After(init).nextId == id then Some(if last.runAt.Some? then last.runAt.value else last.now)
      else if last.Nack? && last.id == id then Some(if last.delay > 0.0 then last.now + last.delay else last.now)
      else DueAt(init, id)
  }

  lemma {:induction false} RowIsDueAt(run: seq<Op>, id: int)
    ensures id in After(run).rows ==> DueAt(run, id) == Some(After(run).rows[id].runAt)
  {
    hide FirstBelow;
    if run != [] { RowIsDueAt(run[..|run|-1], id); }
  }

  /** A row is claimed no earlier than it was asked to run or, sent back, than its delay is over. */
  lemma ClaimedWhenDue(run: seq<Op>, i: nat, id: int)
    requires Claims(run, i, id)
    ensures DueAt(run[..i], id).Some? && DueAt(run[..i], id).value <= run[i].now
  {
    hide FirstBelow;
    RowIsDueAt(run[..i], id);
  }

  /** As long as it is there a row keeps what was enqueued: its action, its priority and the time. */
  lemma {:induction false} KeepsWhatWasEnqueued(before: seq<Op>, e: Op, more: seq<Op>)
    requires e.Enqueue?
    ensures var q, id := After(before + [e] + more), After(before).nextId;
      id < q.nextId
      && (id in q.rows ==>
            q.rows[id].action == e.action && q.rows[id].priority == e.priority && q.rows[id].enqueuedAt == e.now)
    decreases |more|
  {
    hide FirstBelow;
    var run := before + [e] + more;
    if more == [] {
      assert run[..|run|-1] == before && run[|run|-1] == e;
    } else {
      KeepsWhatWasEnqueued(before, e, more[..|more|-1]);
      assert run[..|run|-1] == before + [e] + more[..|more|-1];
    }
  }

  // ---------------------------------------------------------------- which row is claimed

  /** `a` goes before `b`. */
  predicate Before(q: Queue, a: int, b: int)
    requires a in q.rows && b in q.rows
  {
    q.rows[a].priority > q.rows[b].priority || (q.rows[a].priority == q.rows[b].priority && a < b)
  }

  lemma {:induction false} FirstBelowIs(q: Queue, now: real, n: nat)
    ensures FirstBelow(q, now, n).None? <==> forall id :: 0 <= id < n ==> !Due(q, id, now)
    ensures var r := FirstBelow(q, now, n);
      r.Some? ==> 0 <= r.value < n && Due(q, r.value, now)
                  && forall id :: 0 <= id < n && Due(q, id, now) && id != r.value ==> Before(q, r.value, id)
  {
    if n > 0 { FirstBelowIs(q, now, n - 1); }
  }

  /** `dequeue` claims a row exactly if it is ready and due and goes before every other such row: by
      higher priority, then by lower identifier. It finds nothing exactly if there is no such row. */
  lemma NextIff(q: Queue, now: real, id: int)
    requires Sound(q)
    ensures Next(q, now) == Some(id) <==>
      Due(q, id, now) && forall x :: Due(q, x, now) && x != id ==> Before(q, id, x)
    ensures Next(q, now) == None <==> forall x :: !Due(q, x, now)
  {
    FirstBelowIs(q, now, q.nextId);
    var r := Next(q, now);
    assert forall x :: Due(q, x, now) ==> 0 <= x < q.nextId;
    assert r.Some? && Due(q, id, now) && r.value != id ==> Before(q, r.value, id) && !Before(q, id, r.value);
  }

  // ---------------------------------------------------------------- claims over a run

  /** Operation `i` of the run claims row `id`. */
  predicate Claims(run: seq<Op>, i: int, id: int) {
    0 <= i < |run| && run[i].Dequeue? && Next(After(run[..i]), run[i].now) == Some(id)
  }

  function ClaimsOf(run: seq<Op>, id: int): nat {
    if run == [] then 0
    else
      var init, last := run[..|run|-1], run[|run|-1];
      ClaimsOf(init, id) + if last.Dequeue? && Next(After(init), last.now) == Some(id) then 1 else 0
  }

  lemma {:induction false} NoClaimsYet(run: seq<Op>, id: int)
    requires id >= After(run).nextId
    ensures ClaimsOf(run, id) == 0
  {
    if run != [] {
      var init := run[..|run|-1];
      NoClaimsYet(init, id);
      RunIsSound(init);
    }
  }

  /** A row's `attempts` is the number of times the row was claimed, over any run. */
  lemma {:induction false} AttemptsAreClaims(run: seq<Op>, id: int)
    requires id in After(run).rows
    ensures After(run).rows[id].attempts == ClaimsOf(run, id)
  {
    if run != [] {
      var init, last := run[..|run|-1], run[|run|-1];
      RunIsSound(init);
      if id in After(init).rows {
        AttemptsAreClaims(init, id);
      } else {
        NoClaimsYet(init, id);
      }
    }
  }

  predicate Requeues(op: Op, id: int) {
    op.Nack? && op.id == id && op.requeue
  }

  /** The row was enqueued, and is not waiting to be claimed. */
  predicate Away(q: Queue, id: int) {
    id < q.nextId && (id in q.rows ==> !q.rows[id].status.Ready?)
  }

  lemma StepKeepsAway(q: Queue, op: Op, id: int)
    requires Sound(q) && Away(q, id) && !Requeues(op, id)
    ensures Away(Step(q, op), id)
  {
  }

  lemma {:induction false} StaysAway(run: seq<Op>, i: nat, j: nat, id: int)
    requires i <= j <= |run| && Away(After(run[..i]), id)
    requires forall k :: i <= k < j ==> !Requeues(run[k], id)
    ensures Away(After(run[..j]), id)
    decreases j
  {
    if i < j {
      StaysAway(run, i, j - 1, id);
      AfterNext(run, j - 1);
      RunIsSound(run[..j-1]);
      StepKeepsAway(After(run[..j-1]), run[j-1], id);
    }
  }

  lemma AfterNext(run: seq<Op>, i: nat)
    requires i < |run|
    ensures After(run[..i+1]) == Step(After(run[..i]), run[i])
  {
    assert run[..i+1][..i] == run[..i];
  }

  /** Between two claims of one row there is a `nack` of it with `requeue`. */
  lemma RequeueBetweenClaims(run: seq<Op>, i: nat, j: nat, id: int)
    requires i < j && Claims(run, i, id) && Claims(run, j, id)
    ensures exists k :: i < k < j && Requeues(run[k], id)
  {
    RunIsSound(run[..i]);
    RunIsSound(run[..j]);
    AfterNext(run, i);
    assert Away(After(run[..i+1]), id);
    if forall k :: i < k < j ==> !Requeues(run[k], id) {
      StaysAway(run, i + 1, j, id);
      assert false;
    }
  }

  predicate NackOf(op: Op, id: int) {
    op.Nack? && op.id == id
  }

  /** A row that is ready now, and was not sent back since, was the same row before. */
  lemma {:induction false} WasReady(run: seq<Op>, i: nat, j: nat, id: int)
    requires i <= j <= |run| && id < After(run[..i]).nextId
    requires id in After(run[..j]).rows && After(run[..j]).rows[id].status.Ready?
    requires forall k :: i <= k < j ==> !NackOf(run[k], id)
    ensures id in After(run[..i]).rows && After(run[..i]).rows[id] == After(run[..j]).rows[id]
    decreases j
  {
    hide After, Step;
    if i < j {
      NextIdGrows(run, i, j - 1);
      AfterNext(run, j - 1);
      StepFromReady(After(run[..j-1]), run[j-1], id);
      WasReady(run, i, j - 1, id);
    }
  }

  lemma StepFromReady(q: Queue, op: Op, id: int)
    requires id < q.nextId && !NackOf(op, id)
    requires id in Step(q, op).rows && Step(q, op).rows[id].status.Ready?
    ensures id in q.rows && q.rows[id] == Step(q, op).rows[id]
  {
  }

  lemma {:induction false} NextIdGrows(run: seq<Op>, i: nat, j: nat)
    requires i <= j <= |run|
    ensures After(run[..i]).nextId <= After(run[..j]).nextId
    decreases j
  {
    if i < j {
      NextIdGrows(run, i, j - 1);
      AfterNext(run, j - 1);
    }
  }

  /** No overtaking: a row that was enqueued first, has no lower priority and was due when a later row
      was claimed is not claimed after it, unless it was sent back. First in, first out is the case of
      equal priorities. */
  lemma NoOvertaking(run: seq<Op>, i: nat, j: nat, later: int, earlier: int)
    requires i < j && Claims(run, i, later) && Claims(run, j, earlier) && earlier < later
    requires forall k :: i <= k < j ==> !NackOf(run[k], earlier)
    ensures earlier in After(run[..j]).rows && later in After(run[..i]).rows
    ensures var row := After(run[..j]).rows[earlier];
      row.runAt > run[i].now || row.priority < After(run[..i]).rows[later].priority
  {
    var q := After(run[..i]);
    RunIsSound(run[..i]);
    RunIsSound(run[..j]);
    NextIff(q, run[i].now, later);
    WasReady(run, i, j, earlier);
    assert Due(q, earlier, run[i].now) ==> Before(q, later, earlier);
  }

  // ---------------------------------------------------------------- conservation

  function Enqueued(run: seq<Op>): nat {
    if run == [] then 0 else Enqueued(run[..|run|-1]) + if run[|run|-1].Enqueue? then 1 else 0
  }

  /** The rows the operation deletes. */
  function Deletes(q: Queue, op: Op): nat {
    match op
    case Ack(id) => if id in q.rows then 1 else 0
    case Purge => |q.rows|
    case _ => 0
  }

  function Deleted(run: seq<Op>): nat {
    if run == [] then 0 else Deleted(run[..|run|-1]) + Deletes(After(run[..|run|-1]), run[|run|-1])
  }

  function Count(q: Queue, status: Status): nat {
    |set id | id in q.rows && q.rows[id].status == status|
  }

  lemma RowsByStatus(q: Queue)
    ensures Count(q, Ready) + Count(q, Inflight) + Count(q, Dead) == |q.rows|
  {
    var a := set id | id in q.rows && q.rows[id].status == Ready;
    var b := set id | id in q.rows && q.rows[id].status == Inflight;
    var c := set id | id in q.rows && q.rows[id].status == Dead;
    assert q.rows.Keys == a + b + c;
    assert |q.rows| == |q.rows.Keys|;
    ThreeParts(a, b, c);
  }

  lemma ThreeParts(a: set<int>, b: set<int>, c: set<int>)
    requires a !! b !! c
    ensures |a + b + c| == |a| + |b| + |c|
  {
  }

  lemma OneMoreKey(m: map<int, Row>, id: int, row: Row)
    ensures |m[id := row]| == |m| + if id in m then 0 else 1
  {
    assert |m| == |m.Keys| && |m[id := row]| == |m[id := row].Keys|;
    assert m[id := row].Keys == m.Keys + {id};
  }

  lemma OneKeyLess(m: map<int, Row>, id: int)
    ensures |m - {id}| == |m| - if id in m then 1 else 0
  {
    assert |m| == |m.Keys| && |m - {id}| == |(m - {id}).Keys|;
    assert (m - {id}).Keys == m.Keys - {id};
  }

  lemma StepCount(q: Queue, op: Op)
    requires Sound(q)
    ensures |Step(q, op).rows| + Deletes(q, op) == |q.rows| + if op.Enqueue? then 1 else 0
  {
    hide Next, Claimed, Nacked;
    match op
    case Enqueue(_, _, _, _) => OneMoreKey(q.rows, q.nextId, Step(q, op).rows[q.nextId]);
    case Dequeue(now) =>
      if Next(q, now).Some? { OneMoreKey(q.rows, Next(q, now).value, Claimed(q.rows[Next(q, now).value])); }
    case Ack(id) => OneKeyLess(q.rows, id);
    case Nack(id, requeue, reason, delay, now) =>
      if id in q.rows { OneMoreKey(q.rows, id, Nacked(q.rows[id], requeue, reason, delay, now)); }
    case Purge =>
  }

  /** Nothing is lost or doubled: the rows enqueued and not deleted are those ready, in flight or dead. */
  lemma {:induction false} RowsConserved(run: seq<Op>)
    ensures var q := After(run);
      Enqueued(run) == Deleted(run) + Count(q, Ready) + Count(q, Inflight) + Count(q, Dead)
  {
    hide Count, Step, Deletes;
    RowsByStatus(After(run));
    if run != [] {
      var init := run[..|run|-1];
      RowsConserved(init);
      RowsByStatus(After(init));
      RunIsSound(init);
      StepCount(After(init), run[|run|-1]);
    } else {
      assert |After(run).rows| == 0;
    }
  }

  /** `nack` documents that it returns a claimed row; it asks for no claim. A consumer that sends a row
      back twice takes it from the one that claimed it in between, and it is claimed a third time. */
  lemma LateNackFreesOthersClaim(now: real)
    ensures var back := Nack(1, true, "", 0.0, now);
      var run := [Enqueue("[]", 0, None, now), Dequeue(now), back, Dequeue(now), back, Dequeue(now)];
      Claims(run, 1, 1) && Claims(run, 3, 1) && Claims(run, 5, 1)
  {
    var back := Nack(1, true, "", 0.0, now);
    var run := [Enqueue("[]", 0, None, now), Dequeue(now), back, Dequeue(now), back, Dequeue(now)];
    assert run[..0] == [];
    AfterNext(run, 0);
    AfterNext(run, 1);
    AfterNext(run, 2);
    AfterNext(run, 3);
    AfterNext(run, 4);
    OnlyRow(After(run[..1]), now);
    OnlyRow(After(run[..3]), now);
    OnlyRow(After(run[..5]), now);
  }

  lemma OnlyRow(q: Queue, now: real)
    requires q.nextId == 2 && q.rows.Keys == {1} && Due(q, 1, now)
    ensures Next(q, now) == Some(1)
  {
    NextIff(q, now, 1);
  }

  /** The operation names the row, or deletes all. */
  predicate Touches(op: Op, id: int) {
    op.Purge? || op == Ack(id) || NackOf(op, id)
  }

  /** The row is in flight by its `n`th claim. */
  predicate HeldBy(q: Queue, id: int, n: nat) {
    id in q.rows && q.rows[id].status.Inflight? && q.rows[id].attempts == n
  }

  /** The `n`th claim of the row is over. */
  predicate Over(q: Queue, id: int, n: nat) {
    id < q.nextId && (id in q.rows ==> q.rows[id].attempts >= n && !HeldBy(q, id, n))
  }

  lemma StepOver(q: Queue, op: Op, id: int, n: nat)
    requires Sound(q)
    ensures Over(q, id, n) ==> Over(Step(q, op), id, n)
    ensures HeldBy(q, id, n) ==> if Touches(op, id) then Over(Step(q, op), id, n) else HeldBy(Step(q, op), id, n)
  {
  }

  /** `nack` and `ack` are documented for claimed rows and ask for no claim. So a claim lasts exactly
      until somebody names the row or purges the queue, whoever that is: later, the row is in flight by
      that claim exactly if no operation in between did. */
  lemma {:induction false} ClaimLastsIff(run: seq<Op>, i: nat, j: nat, id: int)
    requires i < j <= |run| && Claims(run, i, id)
    ensures HeldBy(After(run[..j]), id, ClaimsOf(run[..i+1], id)) <==> forall k :: i < k < j ==> !Touches(run[k], id)
    ensures HeldBy(After(run[..j]), id, ClaimsOf(run[..i+1], id)) || Over(After(run[..j]), id, ClaimsOf(run[..i+1], id))
    decreases j
  {
    hide After, Step, Next, ClaimsOf, Over, HeldBy, Touches, Claims;
    var n := ClaimsOf(run[..i+1], id);
    ClaimStarts(run, i, id);
    NotBoth(After(run[..j]), id, n);
    if j > i + 1 {
      ClaimLastsIff(run, i, j - 1, id);
      RunIsSound(run[..j-1]);
      AfterNext(run, j - 1);
      StepOver(After(run[..j-1]), run[j-1], id, n);
      NotBoth(After(run[..j-1]), id, n);
    }
  }

  lemma {:induction false} ClaimStarts(run: seq<Op>, i: nat, id: int)
    requires Claims(run, i, id)
    ensures HeldBy(After(run[..i+1]), id, ClaimsOf(run[..i+1], id))
  {
    hide ClaimsOf;
    AfterNext(run, i);
    AttemptsAreClaims(run[..i+1], id);
  }

  lemma NotBoth(q: Queue, id: int, n: nat)
    ensures !(HeldBy(q, id, n) && Over(q, id, n))
  {
  }
}

/** `ActionQueue`. */
module ActionQueues {
  import opened Wrappers
  import opened QueueModel

  /** What `enqueue` is given: JSON text of a list or a dict, or a value that is neither. */
  datatype Action = ListOrDict(text: string) | Other

  /** What `dequeue` ends in; `Corrupt` is its `QueueException` about a row that holds no JSON. */
  datatype Claim = Empty | Item(item: QueueItem) | Corrupt(id: int)

  datatype QueueItem = QueueItem(id: int, action: string, attempts: nat, enqueuedAt: real)

  class ActionQueue {
    var rows: map<int, Row>
    var nextId: int

    function Value(): Queue
      reads this
    {
      Queue(rows, nextId)
    }

    constructor ()
      ensures Value() == EMPTY
    {
      rows := map[];
      nextId := 1;
    }

    /** `enqueue`; `None` is its `QueueException`. */
    method Enqueue(action: Action, priority: int, runAt: Option<real>, now: real) returns (id: Option<int>)
      modifies this
      ensures action.Other? ==> id == None && Value() == old(Value())
      ensures action.ListOrDict? ==> id == Some(old(nextId))
      ensures action.ListOrDict? ==> Value() == Step(old(Value()), Op.Enqueue(action.text, priority, runAt, now))
      ensures action.ListOrDict? ==>
        nextId == old(nextId) + 1 && rows.Keys == old(rows).Keys + {old(nextId)}
        && (forall x :: x in old(rows) && x != old(nextId) ==> rows[x] == old(rows)[x])
        && var row := rows[old(nextId)];
        && row.action == action.text && row.priority == priority && row.enqueuedAt == now
        && row.runAt == (if runAt.Some? then runAt.value else now)
        && row.status == Ready && row.attempts == 0 && row.lastError == None
    {
      if action.Other? {
        return None;
      }
      var due := if runAt.Some? then runAt.value else now;
      rows := rows[nextId := Row(action.text, priority, due, now, 0, Ready, None)];
      nextId := nextId + 1;
      return Some(nextId - 1);
    }

    /** `dequeue`; `readable` tells which texts are JSON. A row that is none is claimed all the same. */
    method Dequeue(now: real, readable: string -> bool) returns (r: Claim)
      requires Sound(Value())
      modifies `rows
      ensures Sound(Value()) && Value() == Step(old(Value()), Op.Dequeue(now))
      ensures r.Empty? <==> forall id :: !Due(old(Value()), id, now)
      ensures r.Corrupt? ==> Next(old(Value()), now) == Some(r.id) && r.id in rows && !readable(rows[r.id].action)
      ensures r.Item? ==>
        var item := r.item;
        Next(old(Value()), now) == Some(item.id) && item.id in rows && readable(item.action)
        && item == QueueItem(item.id, rows[item.id].action, rows[item.id].attempts, rows[item.id].enqueuedAt)
      ensures rows.Keys == old(rows).Keys && nextId == old(nextId)
      ensures forall x :: x in rows ==>
        var was := old(rows)[x];
        rows[x] ==
        if (r.Item? && x == r.item.id) || (r.Corrupt? && x == r.id)
        then Row(was.action, was.priority, was.runAt, was.enqueuedAt, was.attempts + 1, Inflight, was.lastError)
        else was
    {
      var next := Next(Value(), now);
      NextIff(Value(), now, 0);
      if next.None? {
        return Empty;
      }
      var id := next.value;
      var row := rows[id];
      rows := rows[id := row.(status := Inflight, attempts := row.attempts + 1)];
      if !readable(row.action) {
        return Corrupt(id);
      }
      return Item(QueueItem(id, row.action, row.attempts + 1, row.enqueuedAt));
    }

    /** `ack`. */
    method Ack(id: int)
      modifies `rows
      ensures Value() == Step(old(Value()), Op.Ack(id))
      ensures rows.Keys == old(rows).Keys - {id} && forall x :: x in rows ==> rows[x] == old(rows)[x]
    {
      rows := rows - {id};
    }

    /** `nack`. */
    method Nack(id: int, requeue: bool, reason: string, delay: real, now: real)
      modifies `rows
      ensures Value() == Step(old(Value()), Op.Nack(id, requeue, reason, delay, now))
      ensures rows.Keys == old(rows).Keys && forall x :: x in rows && x != id ==> rows[x] == old(rows)[x]
      ensures id in old(rows) ==>
        var was, row := old(rows)[id], rows[id];
        && row.action == was.action && row.priority == was.priority && row.enqueuedAt == was.enqueuedAt
        && row.attempts == was.attempts && row.status == (if requeue then Ready else Dead)
        && row.lastError == (if reason == "" then None else Some(reason))
        && row.runAt == (if delay <= 0.0 then now else now + delay)
    {
      var status := if requeue then Ready else Dead;
      var runAt := now + if delay < 0.0 then 0.0 else delay;
      if id in rows {
        var lastError := if reason == "" then None else Some(reason);
        rows := rows[id := rows[id].(status := status, lastError := lastError, runAt := runAt)];
      }
    }

    /** `size`. */
    method Size(status: Status) returns (n: nat)
      ensures n == Count(Value(), status)
    {
      n := |set id | id in rows && rows[id].status == status|;
    }

    /** `purge`. */
    method Purge() returns (n: nat)
      modifies `rows
      ensures Value() == Step(old(Value()), Op.Purge) && n == Deletes(old(Value()), Op.Purge)
      ensures rows == map[] && nextId == old(nextId) && n == |old(rows)|
    {
      n := |rows|;
      rows := map[];
    }

    /** `dead_letters`, in no order: the dead rows that can be read. */
    method DeadLetters(readable: string -> bool) returns (r: set<QueueItem>)
      ensures forall item :: item in r <==>
        item.id in rows && rows[item.id].status.Dead? && readable(rows[item.id].action)
        && item == QueueItem(item.id, rows[item.id].action, rows[item.id].attempts, rows[item.id].enqueuedAt)
    {
      r := set id | id in rows && rows[id].status.Dead? && readable(rows[id].action) ::
        QueueItem(id, rows[id].action, rows[id].attempts, rows[id].enqueuedAt);
    }
  }
}
