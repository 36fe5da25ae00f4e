/** An editable draft as a value: what every edit makes of it, and what every edit keeps. */
module DraftModel {
  import opened Collections
  import opened Graphs
  import opened GraphEdits
  import opened Wrappers
  import opened DraftReferences

  datatype Task = Task(action: string, arguments: Value, dependsOn: seq<string>, x: real, y: real)

  /** The tasks by id, their ids in the order they were added, and the change counter. */
  datatype Draft = Draft(order: seq<string>, tasks: map<string, Task>, revision: nat)

  datatype Refusal =
    | NoTask(id: string)
    | InvalidId(id: string)
    | IdTaken(id: string)
    | BadArguments
    | SelfDependency(id: string)
    | WouldCycle(upstream: string, downstream: string)

  function Graph(d: Draft): Deps {
    map id | id in d.tasks :: d.tasks[id].dependsOn
  }

  ghost predicate Valid(d: Draft) {
    Distinct(d.order) && forall id :: id in d.order <==> id in d.tasks
  }

  /** What a draft grown by edits is: acyclic, closed, without a repeated dependency or a bad id. */
  ghost predicate Good(d: Draft) {
    && Valid(d) && Closed(Graph(d)) && Acyclic(Graph(d))
    && forall id :: id in d.tasks ==> IsName(id) && Distinct(d.tasks[id].dependsOn)
  }

  const Empty := Draft([], map[], 0)

  const COLUMN_WIDTH := 240.0
  const ROW_HEIGHT := 110.0
  const MARGIN := 40.0

  function WithDependencies(d: Draft, id: string, deps: seq<string>): Draft
    requires id in d.tasks
  {
    d.(tasks := d.tasks[id := d.tasks[id].(dependsOn := deps)], revision := d.revision + 1)
  }

  /** `list.remove`: without the first occurrence. */
  function RemoveFirst(s: seq<string>, x: string): (r: seq<string>)
    ensures forall y :: y in r ==> y in s
    ensures forall y :: y in s && y != x ==> y in r
    ensures Distinct(s) ==> Distinct(r) && x !in r
    ensures x !in s ==> r == s
  {
    if s == [] then []
    else if s[|s|-1] == x && x !in s[..|s|-1] then s[..|s|-1]
    else
      var init := s[..|s|-1];
      assert s == init + [s[|s|-1]];
      assert Distinct(s) ==> Distinct(init) && s[|s|-1] !in init;
      RemoveFirst(init, x) + [s[|s|-1]]
  }

  // ---------------------------------------------------------------- edits

  /** The largest `y` of the tasks. */
  function Lowest(order: seq<string>, tasks: map<string, Task>): real {
    if order == [] || order[|order|-1] !in tasks then 0.0
    else
      var y := tasks[order[|order|-1]].y;
      if |order| == 1 || y > Lowest(order[..|order|-1], tasks) then y else Lowest(order[..|order|-1], tasks)
  }

  /** `_free_position`. */
  function FreePosition(d: Draft): (real, real) {
    (MARGIN, if d.order == [] then MARGIN else Lowest(d.order, d.tasks) + ROW_HEIGHT)
  }

  /** `_checked_arguments` takes a mapping, a list or nothing. */
  predicate Arguments(v: Value) {
    v.Mapping? || v.Listing? || v.Nothing?
  }

  ghost function AddTask(d: Draft, id: string, action: string, arguments: Value, position: Option<(real, real)>)
    : (Draft, Option<Refusal>)
  {
    var (x, y) := if position.Some? then position.value else FreePosition(d);
    if !IsName(id) then (d, Some(InvalidId(id)))
    else if id in d.tasks then (d, Some(IdTaken(id)))
    else if !Arguments(arguments) then (d, Some(BadArguments))
    else (Draft(d.order + [id], d.tasks[id := Task(action, arguments, [], x, y)], d.revision + 1), None)
  }

  ghost function RemoveTask(d: Draft, id: string): (Draft, Option<Refusal>) {
    if id !in d.tasks then (d, Some(NoTask(id)))
    else (Draft(RemoveFirst(d.order, id),
                map t | t in d.tasks && t != id ::
                  d.tasks[t].(dependsOn := RemoveFirst(d.tasks[t].dependsOn, id)),
                d.revision + 1), None)
  }

  function Renamed(s: seq<string>, id: string, newId: string): (r: seq<string>)
    ensures |r| == |s| && forall i :: 0 <= i < |s| ==> r[i] == if s[i] == id then newId else s[i]
  {
    seq(|s|, i requires 0 <= i < |s| => if s[i] == id then newId else s[i])
  }

  function RenamedTask(task: Task, id: string, newId: string): Task {
    task.(dependsOn := Renamed(task.dependsOn, id, newId),
          arguments := RenamedReferences(task.arguments, id, newId))
  }

  function RenamedTasks(tasks: map<string, Task>, id: string, newId: string): map<string, Task>
    requires id in tasks
  {
    map t | t in tasks.Keys - {id} + {newId} ::
      RenamedTask(if t == newId then tasks[id] else tasks[t], id, newId)
  }

  ghost function RenameTask(d: Draft, id: string, newId: string): (Draft, Option<Refusal>) {
    if id !in d.tasks then (d, Some(NoTask(id)))
    else if newId == id then (d, None)
    else if !IsName(newId) then (d, Some(InvalidId(newId)))
    else if newId in d.tasks then (d, Some(IdTaken(newId)))
    else (Draft(Renamed(d.order, id, newId), RenamedTasks(d.tasks, id, newId), d.revision + 1), None)
  }

  ghost function Connect(d: Draft, up: string, down: string): (Draft, Result<bool, Refusal>) {
    if up !in d.tasks then (d, Failure(NoTask(up)))
    else if down !in d.tasks then (d, Failure(NoTask(down)))
    else if up == down then (d, Failure(SelfDependency(up)))
    else if up in d.tasks[down].dependsOn then (d, Success(false))
    else if Depends(Graph(d), up, down) then (d, Failure(WouldCycle(up, down)))
    else (WithDependencies(d, down, d.tasks[down].dependsOn + [up]), Success(true))
  }

  ghost function Disconnect(d: Draft, up: string, down: string): (Draft, Result<bool, Refusal>) {
    if down !in d.tasks then (d, Failure(NoTask(down)))
    else if up !in d.tasks[down].dependsOn then (d, Success(false))
    else (WithDependencies(d, down, RemoveFirst(d.tasks[down].dependsOn, up)), Success(true))
  }

  /** `dict.fromkeys`: every element once, at its first place. */
  function Dedup(s: seq<string>): (r: seq<string>)
    ensures Distinct(r) && forall x :: x in r <==> x in s
  {
    if s == [] then []
    else
      var rest := Dedup(s[..|s|-1]);
      assert s == s[..|s|-1] + [s[|s|-1]];
      if s[|s|-1] in rest then rest else rest + [s[|s|-1]]
  }

  /** Element `k` is the first of its kind. */
  ghost predicate IsFirst(s: seq<string>, k: int) {
    0 <= k < |s| && s[k] !in s[..k]
  }

  /** What is left are the first ones, in their order. */
  lemma {:induction false} DedupKeepsFirst(s: seq<string>, i: nat, j: nat)
    requires i < j < |Dedup(s)|
    ensures exists p, q :: p < q && IsFirst(s, p) && IsFirst(s, q) && s[p] == Dedup(s)[i] && s[q] == Dedup(s)[j]
  {
    var init, last := s[..|s|-1], s[|s|-1];
    assert s == init + [last];
    if j < |Dedup(init)| {
      DedupKeepsFirst(init, i, j);
      var p, q :| p < q && IsFirst(init, p) && IsFirst(init, q) && init[p] == Dedup(s)[i] && init[q] == Dedup(s)[j];
      assert s[..p] == init[..p] && s[..q] == init[..q];
      assert IsFirst(s, p) && IsFirst(s, q);
    } else {
      var p := FirstOf(init, Dedup(init)[i]);
      assert s[..p] == init[..p] && IsFirst(s, p) && IsFirst(s, |s| - 1);
    }
  }

  lemma {:induction false} FirstOf(s: seq<string>, x: string) returns (k: nat)
    requires x in s
    ensures IsFirst(s, k) && s[k] == x
  {
    var init, last := s[..|s|-1], s[|s|-1];
    assert s == init + [last];
    if x in init {
      k := FirstOf(init, x);
      assert s[..k] == init[..k];
    } else {
      k := |s| - 1;
    }
  }

  /** The elements of `s` that are (or are not) in `t`, in order. */
  function Keep(s: seq<string>, t: seq<string>, present: bool): (r: seq<string>)
    ensures forall x :: x in r <==> x in s && (x in t <==> present)
    ensures Distinct(s) ==> Distinct(r)
  {
    if s == [] then []
    else
      assert s == s[..|s|-1] + [s[|s|-1]];
      var rest := Keep(s[..|s|-1], t, present);
      if (s[|s|-1] in t) == present then rest + [s[|s|-1]] else rest
  }

  lemma {:induction false} KeepParts(a: seq<string>, b: seq<string>, x: string, t: seq<string>, present: bool)
    ensures Keep(a + b, t, present) == Keep(a, t, present) + Keep(b, t, present)
    ensures Keep([x], t, present) == if (x in t) == present then [x] else []
    decreases |b|
  {
    assert [x][..0] == [];
    if b == [] {
      assert a + b == a;
    } else {
      assert (a + b)[..|a+b|-1] == a + b[..|b|-1];
      KeepParts(a, b[..|b|-1], x, t, present);
    }
  }

  ghost function DisconnectAll(d: Draft, ups: seq<string>, down: string): Draft {
    if ups == [] then d
    else Disconnect(DisconnectAll(d, ups[..|ups|-1], down), ups[|ups|-1], down).0
  }

  /** The edges are added one by one until one is refused; those added before it stay. */
  ghost function ConnectAll(d: Draft, ups: seq<string>, down: string): (Draft, Option<Refusal>) {
    if ups == [] then (d, None)
    else
      var (before, refusal) := ConnectAll(d, ups[..|ups|-1], down);
      if refusal.Some? then (before, refusal)
      else
        var (after, r) := Connect(before, ups[|ups|-1], down);
        (after, if r.Failure? then Some(r.error) else None)
  }

  ghost function SetDependencies(d: Draft, id: string, dependsOn: seq<string>): (Draft, Option<Refusal>) {
    if id !in d.tasks then (d, Some(NoTask(id)))
    else
      var wanted := Dedup(dependsOn);
      var dropped := Keep(d.tasks[id].dependsOn, wanted, false);
      ConnectAll(DisconnectAll(d, dropped, id), wanted, id)
  }

  // ---------------------------------------------------------------- every edit keeps a good draft good

  /** A task added without a position lies a row below the lowest of all tasks. */
  lemma FreePositionIsBelow(d: Draft)
    requires Valid(d) && d.order != []
    ensures forall t :: t in d.tasks ==> FreePosition(d).1 >= d.tasks[t].y + ROW_HEIGHT
    ensures exists t :: t in d.tasks && FreePosition(d).1 == d.tasks[t].y + ROW_HEIGHT
  {
    var lowest := LowestIsMost(d.order, d.tasks);
    assert forall t :: t in d.tasks ==> t in d.order;
  }

  lemma {:induction false} LowestIsMost(order: seq<string>, tasks: map<string, Task>) returns (lowest: string)
    requires order != [] && forall t :: t in order ==> t in tasks
    ensures lowest in order && tasks[lowest].y == Lowest(order, tasks)
    ensures forall t :: t in order ==> tasks[t].y <= tasks[lowest].y
  {
    var init, last := order[..|order|-1], order[|order|-1];
    assert order == init + [last];
    lowest := last;
    if init != [] {
      var other := LowestIsMost(init, tasks);
      if tasks[last].y <= tasks[other].y { lowest := other; }
    }
  }

  lemma AddKeepsGood(d: Draft, id: string, action: string, arguments: Value, position: Option<(real, real)>)
    requires Good(d)
    ensures Good(AddTask(d, id, action, arguments, position).0)
  {
    var d' := AddTask(d, id, action, arguments, position).0;
    forall a, b ensures Edge(Graph(d'), a, b) <==> Edge(Graph(d), a, b) {}
    SubgraphIsAcyclic(Graph(d), Graph(d'));
  }

  lemma RemoveKeepsGood(d: Draft, id: string)
    requires Good(d)
    ensures Good(RemoveTask(d, id).0)
  {
    var d' := RemoveTask(d, id).0;
    forall a, b ensures Edge(Graph(d'), a, b) ==> Edge(Graph(d), a, b) && (d' != d ==> b != id) {}
    SubgraphIsAcyclic(Graph(d), Graph(d'));
  }

  /** Read back, an edge of the renamed draft is one of the draft before. */
  lemma RenamedEdge(d: Draft, d': Draft, id: string, newId: string, a: string, b: string)
    requires Closed(Graph(d)) && id in d.tasks && newId !in d.tasks
    requires d'.tasks == RenamedTasks(d.tasks, id, newId) && Edge(Graph(d'), a, b)
    ensures Edge(Graph(d), if a == newId then id else a, if b == newId then id else b)
    ensures b in d'.tasks
  {
    var before := if a == newId then id else a;
    var i :| 0 <= i < |d'.tasks[a].dependsOn| && d'.tasks[a].dependsOn[i] == b;
    assert Edge(Graph(d), before, d.tasks[before].dependsOn[i]);
  }

  lemma RenameKeepsGood(d: Draft, id: string, newId: string)
    requires Good(d)
    ensures Good(RenameTask(d, id, newId).0)
  {
    var d' := RenameTask(d, id, newId).0;
    if d' != d {
      var back := (x: string) => if x == newId then id else x;
      forall a, b | Edge(Graph(d'), a, b)
        ensures Edge(Graph(d), back(a), back(b)) && b in d'.tasks
      {
        RenamedEdge(d, d', id, newId, a, b);
      }
      ImageIsAcyclic(Graph(d), Graph(d'), back);
      forall t | t in d'.tasks ensures IsName(t) && Distinct(d'.tasks[t].dependsOn) {
        var deps := d.tasks[back(t)].dependsOn;
        assert newId in deps ==> Edge(Graph(d), back(t), newId);
        RenamedKeepsUnique(deps, id, newId);
      }
      RenamedOrder(d, d', id, newId);
    }
  }

  lemma RenamedOrder(d: Draft, d': Draft, id: string, newId: string)
    requires Valid(d) && id in d.tasks && newId !in d.tasks
    requires d'.tasks == RenamedTasks(d.tasks, id, newId) && d'.order == Renamed(d.order, id, newId)
    ensures Valid(d')
  {
    RenamedKeepsUnique(d.order, id, newId);
    forall t | t in d'.tasks ensures t in d'.order {
      var before := if t == newId then id else t;
      var i :| 0 <= i < |d.order| && d.order[i] == before;
      assert d'.order[i] == t;
    }
    forall i | 0 <= i < |d'.order| ensures d'.order[i] in d'.tasks {
      assert d.order[i] in d.tasks;
    }
  }

  lemma RenamedKeepsUnique(s: seq<string>, id: string, newId: string)
    requires Distinct(s) && newId !in s
    ensures Distinct(Renamed(s, id, newId))
  {
  }

  /** Renaming a task and then back undoes itself exactly if nothing names the new id before, neither as a
      dependency nor in a placeholder: a draft may have such placeholders without having the task. */
  lemma {:induction false} RenameBackIff(d: Draft, id: string, newId: string)
    requires Valid(d) && id in d.tasks && IsName(id) && IsName(newId) && newId !in d.tasks
    ensures var back := RenameTask(RenameTask(d, id, newId).0, newId, id).0;
      back.(revision := d.revision) == d <==>
      forall t :: t in d.tasks ==> newId !in d.tasks[t].dependsOn && !Mentions(d.tasks[t].arguments, newId)
  {
    hide Renamed, RenamedReferences, Mentions, IsName;
    var there := RenameTask(d, id, newId).0;
    var back := RenameTask(there, newId, id).0;
    RenamedBackIff(d.order, id, newId);
    assert back.order == d.order && back.tasks.Keys == d.tasks.Keys;
    forall t | t in d.tasks
      ensures back.tasks[t] == d.tasks[t] <==>
        newId !in d.tasks[t].dependsOn && !Mentions(d.tasks[t].arguments, newId)
    {
      assert back.tasks[t] == RenamedTask(RenamedTask(d.tasks[t], id, newId), newId, id);
      RenamedBackIff(d.tasks[t].dependsOn, id, newId);
      ArgumentsBackIff(d.tasks[t].arguments, id, newId);
    }
    assert back.tasks == d.tasks <==> forall t :: t in d.tasks ==> back.tasks[t] == d.tasks[t];
  }

  /** For instance, the only task of a draft refers to a task `b` that is gone. Renamed to `b` and back, it
      refers to itself. */
  lemma DanglingReferenceIsTaken(a: string, b: string)
    requires IsName(a) && IsName(b) && a != b
    ensures var d := Draft([a], map[a := Task("", Listing([Words("${tasks." + b + ".result}")]), [], 0.0, 0.0)], 0);
      var back := RenameTask(RenameTask(d, a, b).0, b, a).0;
      a in back.tasks && back.tasks[a].arguments == Listing([Words("${tasks." + a + ".result}")])
  {
    ReferenceReads(a);
    ReferenceReads(b);
    hide IsName, RenamedReferences, Reference;
    var v := Listing([Words(Reference(b))]);
    var d := Draft([a], map[a := Task("", v, [], 0.0, 0.0)], 0);
    OtherReferenceStays(b, a);
    OwnReferenceFollows(b, a);
    var there := RenameTask(d, a, b).0;
    assert there.tasks[b] == RenamedTask(d.tasks[a], a, b);
    assert RenameTask(there, b, a).0.tasks[a] == RenamedTask(there.tasks[b], b, a);
  }

  lemma {:induction false} RenamedBackIff(s: seq<string>, id: string, newId: string)
    requires newId != id
    ensures Renamed(Renamed(s, id, newId), newId, id) == s <==> newId !in s
  {
    var back := Renamed(Renamed(s, id, newId), newId, id);
    assert forall i :: 0 <= i < |s| ==> back[i] == if s[i] == newId then id else s[i];
  }

  lemma ConnectKeepsGood(d: Draft, up: string, down: string)
    requires Good(d)
    ensures Good(Connect(d, up, down).0)
  {
    var (d', r) := Connect(d, up, down);
    if r == Success(true) {
      var g, g' := Graph(d), Graph(d');
      forall x, y ensures Edge(g', x, y) <==> Edge(g, x, y) || (x == down && y == up) {}
      NewEdgeAcyclic(g, g', up, down);
    }
  }

  /** Apart from a repeat, a connection is refused exactly when it names an unknown task or the new
      edge would close a cycle. */
  lemma ConnectRefusedIff(d: Draft, up: string, down: string)
    requires Good(d) && up in d.tasks && down in d.tasks && !Edge(Graph(d), down, up)
    ensures Connect(d, up, down).1.Failure? <==>
      !Acyclic(Graph(WithDependencies(d, down, d.tasks[down].dependsOn + [up])))
  {
    var g, g' := Graph(d), Graph(WithDependencies(d, down, d.tasks[down].dependsOn + [up]));
    forall x, y ensures Edge(g', x, y) <==> Edge(g, x, y) || (x == down && y == up) {}
    NewEdgeAcyclic(g, g', up, down);
  }

  lemma DisconnectKeepsGood(d: Draft, up: string, down: string)
    requires Good(d)
    ensures Good(Disconnect(d, up, down).0)
  {
    var d' := Disconnect(d, up, down).0;
    forall a, b ensures Edge(Graph(d'), a, b) ==> Edge(Graph(d), a, b) {}
    SubgraphIsAcyclic(Graph(d), Graph(d'));
  }

  lemma {:induction false} DisconnectAllKeepsGood(d: Draft, ups: seq<string>, down: string)
    requires Good(d)
    ensures Good(DisconnectAll(d, ups, down))
  {
    if ups != [] {
      DisconnectAllKeepsGood(d, ups[..|ups|-1], down);
      DisconnectKeepsGood(DisconnectAll(d, ups[..|ups|-1], down), ups[|ups|-1], down);
    }
  }

  lemma {:induction false} ConnectAllKeepsGood(d: Draft, ups: seq<string>, down: string)
    requires Good(d)
    ensures Good(ConnectAll(d, ups, down).0)
  {
    if ups != [] {
      ConnectAllKeepsGood(d, ups[..|ups|-1], down);
      ConnectKeepsGood(ConnectAll(d, ups[..|ups|-1], down).0, ups[|ups|-1], down);
    }
  }

  lemma SetDependenciesKeepsGood(d: Draft, id: string, dependsOn: seq<string>)
    requires Good(d)
    ensures Good(SetDependencies(d, id, dependsOn).0)
  {
    if id in d.tasks {
      var dropped := Keep(d.tasks[id].dependsOn, Dedup(dependsOn), false);
      DisconnectAllKeepsGood(d, dropped, id);
      ConnectAllKeepsGood(DisconnectAll(d, dropped, id), Dedup(dependsOn), id);
    }
  }

  // ---------------------------------------------------------------- set_dependencies

  /** Why `up` cannot become a dependency of `down`, decided on the draft before any edit. */
  ghost predicate Refused(d: Draft, up: string, down: string) {
    up !in d.tasks || up == down || Depends(Graph(d), up, down)
  }

  /** `d'` is `d` but for the dependencies of `id`, which are `deps`, and the change counter. */
  ghost predicate OnlyDependencies(d: Draft, d': Draft, id: string, deps: seq<string>) {
    && id in d.tasks && d'.order == d.order
    && d'.tasks == d.tasks[id := d.tasks[id].(dependsOn := deps)]
  }

  lemma SameRefusals(d: Draft, d': Draft, id: string, deps: seq<string>, up: string)
    requires OnlyDependencies(d, d', id, deps)
    ensures Refused(d, up, id) <==> Refused(d', up, id)
  {
    if up != id {
      forall x, y | x != id ensures Edge(Graph(d), x, y) <==> Edge(Graph(d'), x, y) {}
      DependsOnTarget(Graph(d), Graph(d'), id, up);
    }
  }

  lemma {:induction false} DisconnectAllEffect(d: Draft, ups: seq<string>, id: string)
    requires Valid(d) && id in d.tasks && Distinct(d.tasks[id].dependsOn)
    ensures OnlyDependencies(d, DisconnectAll(d, ups, id), id, Keep(d.tasks[id].dependsOn, ups, false))
  {
    hide Keep, RemoveFirst, Graph, Distinct;
    if ups == [] {
      KeepAll(d.tasks[id].dependsOn);
    } else {
      var rest, up := ups[..|ups|-1], ups[|ups|-1];
      assert ups == rest + [up];
      DisconnectAllEffect(d, rest, id);
      KeepOneLess(d.tasks[id].dependsOn, rest, up);
    }
  }

  lemma {:induction false} KeepAll(s: seq<string>)
    ensures Keep(s, [], false) == s
  {
    if s != [] {
      assert s == s[..|s|-1] + [s[|s|-1]];
      KeepAll(s[..|s|-1]);
    }
  }

  lemma {:induction false} KeepOneLess(s: seq<string>, t: seq<string>, x: string)
    requires Distinct(s)
    ensures Keep(s, t + [x], false) == RemoveFirst(Keep(s, t, false), x)
  {
    if s != [] {
      var init, last := s[..|s|-1], s[|s|-1];
      KeepOneLess(init, t, x);
      assert last !in init;
      var k := Keep(s, t, false);
      if last !in t { assert k[..|k|-1] == Keep(init, t, false); }
    }
  }

  /** Up to the first refused dependency everything wanted is added; that one and the rest are not. */
  lemma {:induction false} ConnectAllEffect(d: Draft, ups: seq<string>, id: string)
    requires Good(d) && id in d.tasks && Distinct(ups)
    ensures ConnectAll(d, ups, id).1.None? <==> Accepted(d, ups, id) == |ups|
    ensures var k := Accepted(d, ups, id);
      OnlyDependencies(d, ConnectAll(d, ups, id).0, id,
                       d.tasks[id].dependsOn + Keep(ups[..k], d.tasks[id].dependsOn, false))
  {
    var old_ := d.tasks[id].dependsOn;
    if ups == [] {
      assert old_ + Keep(ups[..0], old_, false) == old_;
      assert d.tasks[id := d.tasks[id].(dependsOn := old_)] == d.tasks;
    } else {
      var rest, up := ups[..|ups|-1], ups[|ups|-1];
      assert ups == rest + [up];
      ConnectAllEffect(d, rest, id);
      AcceptedOneMore(d, rest, up, id);
      var (before, refusal) := ConnectAll(d, rest, id);
      hide Refused, Good, Keep, Connect, Accepted, Graph;
      var k := Accepted(d, rest, id);
      if refusal.None? {
        assert rest[..|rest|] == rest && ups[..|rest|] == rest && ups[..|ups|] == ups;
        ConnectOneMore(d, before, rest, up, id);
      } else {
        assert ups[..k] == rest[..k];
      }
    }
  }

  lemma ConnectOneMore(d: Draft, before: Draft, rest: seq<string>, up: string, id: string)
    requires Good(d) && id in d.tasks && up !in rest
    requires OnlyDependencies(d, before, id, d.tasks[id].dependsOn + Keep(rest, d.tasks[id].dependsOn, false))
    ensures Connect(before, up, id).1.Failure? <==> Refused(d, up, id)
    ensures OnlyDependencies(d, Connect(before, up, id).0, id,
      d.tasks[id].dependsOn + Keep(if Refused(d, up, id) then rest else rest + [up], d.tasks[id].dependsOn, false))
  {
    var old_ := d.tasks[id].dependsOn;
    var deps := old_ + Keep(rest, old_, false);
    SameRefusals(d, before, id, deps, up);
    if up in old_ { EdgeNotRefused(d, up, id); }
    assert (rest + [up])[..|rest|] == rest;
    assert deps + [up] == old_ + (Keep(rest, old_, false) + [up]);
  }

  lemma FirstRefused(d: Draft, ups: seq<string>, id: string, k: nat)
    requires k <= |ups| && forall i :: 0 <= i < k ==> !Refused(d, ups[i], id)
    requires k < |ups| ==> Refused(d, ups[k], id)
    ensures Accepted(d, ups, id) == k
  {
    hide Refused;
  }

  lemma AcceptedOneMore(d: Draft, rest: seq<string>, up: string, id: string)
    ensures Accepted(d, rest + [up], id) ==
      if Accepted(d, rest, id) < |rest| then Accepted(d, rest, id)
      else if Refused(d, up, id) then |rest| else |rest| + 1
  {
    var ups := rest + [up];
    var j := Accepted(d, rest, id);
    assert forall i :: 0 <= i < |rest| ==> ups[i] == rest[i];
    FirstRefused(d, ups, id, if j < |rest| then j else if Refused(d, up, id) then |rest| else |rest| + 1);
  }

  lemma EdgeNotRefused(d: Draft, up: string, id: string)
    requires Good(d) && Edge(Graph(d), id, up)
    ensures !Refused(d, up, id)
  {
    EdgeDepends(Graph(d), id, up);
    if Depends(Graph(d), up, id) { DependsTransitive(Graph(d), id, up, id); }
  }

  /** How many of `ups` come before the first refused one. */
  ghost function Accepted(d: Draft, ups: seq<string>, id: string): (k: nat)
    ensures k <= |ups|
    ensures forall i :: 0 <= i < k ==> !Refused(d, ups[i], id)
    ensures k < |ups| ==> Refused(d, ups[k], id)
  {
    if ups == [] || Refused(d, ups[0], id) then 0 else 1 + Accepted(d, ups[1..], id)
  }

  /** `set_dependencies` succeeds exactly if no wanted dependency is unknown, is the task itself or
      depends on it, and then the list holds exactly what is wanted: what stays keeps its order and
      the new ones follow. A refused call is not undone: what was dropped is gone, and what comes
      before the refused dependency has been added. */
  lemma SetDependenciesEffect(d: Draft, id: string, dependsOn: seq<string>)
    requires Good(d) && id in d.tasks
    ensures SetDependencies(d, id, dependsOn).1.None? <==> forall up :: up in dependsOn ==> !Refused(d, up, id)
    ensures OnlyDependencies(d, SetDependencies(d, id, dependsOn).0, id, NewDependencies(d, id, dependsOn))
    ensures SetDependencies(d, id, dependsOn).1.None? ==>
      forall up :: up in NewDependencies(d, id, dependsOn) <==> up in dependsOn
  {
    hide Refused, Good, Keep, Connect, Accepted, Graph, Dedup, DisconnectAll, ConnectAll;
    var wanted, current := Dedup(dependsOn), d.tasks[id].dependsOn;
    var dropped := Keep(current, wanted, false);
    var kept := Keep(current, wanted, true);
    var mid := DisconnectAll(d, dropped, id);
    GoodParts(d, id);
    DisconnectAllEffect(d, dropped, id);
    DisconnectAllKeepsGood(d, dropped, id);
    KeepComplement(current, wanted);
    forall up ensures Refused(d, up, id) <==> Refused(mid, up, id) {
      SameRefusals(d, mid, id, kept, up);
    }
    ConnectAllEffect(mid, wanted, id);
    AcceptedAgrees(d, mid, wanted, id);
    var k := Accepted(d, wanted, id);
    KeepOthers(wanted[..k], current, wanted);
    if k < |wanted| { assert wanted[k] in wanted; } else { assert wanted[..k] == wanted; }
  }

  ghost function NewDependencies(d: Draft, id: string, dependsOn: seq<string>): seq<string>
    requires id in d.tasks
  {
    var wanted, current := Dedup(dependsOn), d.tasks[id].dependsOn;
    Keep(current, wanted, true) + Keep(wanted[..Accepted(d, wanted, id)], current, false)
  }

  lemma GoodParts(d: Draft, id: string)
    requires Good(d) && id in d.tasks
    ensures Valid(d) && Distinct(d.tasks[id].dependsOn)
  {
  }

  lemma AcceptedAgrees(d: Draft, d': Draft, ups: seq<string>, id: string)
    requires forall up :: Refused(d, up, id) <==> Refused(d', up, id)
    ensures Accepted(d, ups, id) == Accepted(d', ups, id)
  {
    FirstRefused(d, ups, id, Accepted(d', ups, id));
  }

  /** Dropping what is not wanted keeps what is. */
  lemma {:induction false} KeepComplement(s: seq<string>, t: seq<string>)
    requires Distinct(s)
    ensures Keep(s, Keep(s, t, false), false) == Keep(s, t, true)
  {
    KeepAgrees(s, Keep(s, t, false), t);
  }

  lemma {:induction false} KeepAgrees(s: seq<string>, a: seq<string>, t: seq<string>)
    requires forall x :: x in s ==> (x in a <==> x !in t)
    ensures Keep(s, a, false) == Keep(s, t, true)
  {
    if s != [] { KeepAgrees(s[..|s|-1], a, t); }
  }

  /** For what is wanted, being new means the same before and after the unwanted are dropped. */
  lemma {:induction false} KeepOthers(s: seq<string>, current: seq<string>, wanted: seq<string>)
    requires forall x :: x in s ==> x in wanted
    ensures Keep(s, Keep(current, wanted, true), false) == Keep(s, current, false)
  {
    if s != [] { KeepOthers(s[..|s|-1], current, wanted); }
  }

  /** A refused call leaves the tasks as they were exactly if nothing had to be dropped and nothing
      new comes before the refused dependency. */
  lemma {:induction false} RefusedSetIsCleanIff(d: Draft, id: string, dependsOn: seq<string>)
    requires Good(d) && id in d.tasks && SetDependencies(d, id, dependsOn).1.Some?
    ensures SetDependencies(d, id, dependsOn).0.tasks == d.tasks <==>
      var wanted, current := Dedup(dependsOn), d.tasks[id].dependsOn;
      && (forall x :: x in current ==> x in wanted)
      && (forall x :: x in wanted[..Accepted(d, wanted, id)] ==> x in current)
  {
    hide Refused, Good, Keep, Accepted, Graph, Dedup, SetDependencies;
    var wanted, current := Dedup(dependsOn), d.tasks[id].dependsOn;
    var added := wanted[..Accepted(d, wanted, id)];
    var d' := SetDependencies(d, id, dependsOn).0;
    SetDependenciesEffect(d, id, dependsOn);
    var kept, extra := Keep(current, wanted, true), Keep(added, current, false);
    assert d'.tasks[id].dependsOn == kept + extra;
    assert forall x :: x in kept + extra <==> x in kept || x in extra;
    if (forall x :: x in current ==> x in wanted) && (forall x :: x in added ==> x in current) {
      KeepWhole(current, wanted);
      KeepNothing(added, current);
      assert kept + extra == current;
      assert d.tasks[id := d.tasks[id].(dependsOn := current)] == d.tasks;
    }
  }

  lemma {:induction false} KeepWhole(s: seq<string>, t: seq<string>)
    requires forall x :: x in s ==> x in t
    ensures Keep(s, t, true) == s
  {
    if s != [] {
      assert s == s[..|s|-1] + [s[|s|-1]];
      KeepWhole(s[..|s|-1], t);
    }
  }

  lemma {:induction false} KeepNothing(s: seq<string>, t: seq<string>)
    requires forall x :: x in s ==> x in t
    ensures Keep(s, t, false) == []
  {
    if s != [] { KeepNothing(s[..|s|-1], t); }
  }

  /** For instance, asking that a task depend on itself is refused, and drops all it depended on. */
  lemma RefusedSetCanDrop(d: Draft, id: string)
    requires Good(d) && id in d.tasks
    ensures SetDependencies(d, id, [id]).1.Some?
    ensures SetDependencies(d, id, [id]).0.tasks == d.tasks[id := d.tasks[id].(dependsOn := [])]
  {
    SetDependenciesEffect(d, id, [id]);
    assert Refused(d, id, id) && id in [id];
    var current := d.tasks[id].dependsOn;
    assert id !in current by { if id in current { EdgeNotRefused(d, id, id); } }
    assert [id][..0] == [] && Dedup([id]) == [id];
    FirstRefused(d, [id], id, 0);
    KeepDisjoint(current, [id]);
    assert NewDependencies(d, id, [id]) == [];
  }

  lemma {:induction false} KeepDisjoint(s: seq<string>, t: seq<string>)
    requires forall x :: x in s ==> x !in t
    ensures Keep(s, t, true) == []
  {
    if s != [] { KeepDisjoint(s[..|s|-1], t); }
  }

  // ---------------------------------------------------------------- whole editing sessions

  datatype Edit =
    | Add(id: string, action: string, arguments: Value, position: Option<(real, real)>)
    | Remove(id: string)
    | Rename(id: string, newId: string)
    | ConnectEdit(up: string, down: string)
    | DisconnectEdit(up: string, down: string)
    | SetEdit(id: string, dependsOn: seq<string>)

  ghost function Apply(d: Draft, e: Edit): Draft {
    match e
    case Add(id, action, arguments, position) => AddTask(d, id, action, arguments, position).0
    case Remove(id) => RemoveTask(d, id).0
    case Rename(id, newId) => RenameTask(d, id, newId).0
    case ConnectEdit(up, down) => Connect(d, up, down).0
    case DisconnectEdit(up, down) => Disconnect(d, up, down).0
    case SetEdit(id, dependsOn) => SetDependencies(d, id, dependsOn).0
  }

  ghost function Session(edits: seq<Edit>): Draft {
    if edits == [] then Empty else Apply(Session(edits[..|edits|-1]), edits[|edits|-1])
  }

  /** Whatever is edited, refused edits included, a draft grown from an empty one stays good. */
  lemma {:induction false} SessionStaysGood(edits: seq<Edit>)
    ensures Good(Session(edits))
  {
    if edits == [] {
      forall a ensures !Depends(Graph(Empty), a, a) {
        if Depends(Graph(Empty), a, a) { var b := DependsFirst(Graph(Empty), a, a); }
      }
    } else {
      var d, e := Session(edits[..|edits|-1]), edits[|edits|-1];
      SessionStaysGood(edits[..|edits|-1]);
      match e
      case Add(id, action, arguments, position) => AddKeepsGood(d, id, action, arguments, position);
      case Remove(id) => RemoveKeepsGood(d, id);
      case Rename(id, newId) => RenameKeepsGood(d, id, newId);
      case ConnectEdit(up, down) => ConnectKeepsGood(d, up, down);
      case DisconnectEdit(up, down) => DisconnectKeepsGood(d, up, down);
      case SetEdit(id, dependsOn) => SetDependenciesKeepsGood(d, id, dependsOn);
    }
  }
}
