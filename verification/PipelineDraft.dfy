/** The canvas: where `auto_layout` puts the tasks. */
module DraftLayout {
  import opened Collections
  import opened Graphs
  import opened DraftModel
  import opened DraftLevels

  /** How many of the first `i` tasks are on `level`. */
  function Row(order: seq<string>, levels: map<string, int>, level: int, i: nat): nat
    requires i <= |order|
  {
    if i == 0 then 0
    else
      var before := Row(order, levels, level, i - 1);
      if order[i-1] in levels && levels[order[i-1]] == level then before + 1 else before
  }

  /** The `i`-th task moves to the column of its level, below the tasks already there. */
  function Place(order: seq<string>, levels: map<string, int>, task: Task, i: nat): Task
    requires i < |order| && order[i] in levels
  {
    var level := levels[order[i]];
    task.(x := MARGIN + level as real * COLUMN_WIDTH,
          y := MARGIN + Row(order, levels, level, i) as real * ROW_HEIGHT)
  }

  /** The task is what it was, in the column of its level, as many rows down as tasks of that level come before
      it: columns are 240 wide, rows 110 high, and both start at 40. */
  ghost predicate LaidOut(order: seq<string>, g: Deps, before: Task, after: Task, i: nat)
    requires i < |order| && forall j :: 0 <= j <= i ==> order[j] in g
  {
    && after.action == before.action && after.arguments == before.arguments && after.dependsOn == before.dependsOn
    && after.x == 40.0 + 240.0 * Level(g, order[i]) as real
    && after.y == 40.0 + 110.0 * |set j | 0 <= j < i && Level(g, order[j]) == Level(g, order[i])| as real
  }

  lemma {:induction false} RowIsCount(order: seq<string>, g: Deps, level: int, i: nat)
    requires i <= |order| && forall j :: 0 <= j < i ==> order[j] in g
    ensures Row(order, LevelMap(g), level, i) == |set j | 0 <= j < i && Level(g, order[j]) == level|
  {
    hide Level;
    if i > 0 {
      RowIsCount(order, g, level, i - 1);
      OneMorePlace(order, g, level, i);
    }
  }

  lemma OneMorePlace(order: seq<string>, g: Deps, level: int, i: nat)
    requires 0 < i <= |order| && forall j :: 0 <= j < i ==> order[j] in g
    ensures |set j | 0 <= j < i && Level(g, order[j]) == level|
         == |set j | 0 <= j < i - 1 && Level(g, order[j]) == level| + if Level(g, order[i-1]) == level then 1 else 0
  {
    hide Level;
    var before := set j | 0 <= j < i - 1 && Level(g, order[j]) == level;
    var now := set j | 0 <= j < i && Level(g, order[j]) == level;
    assert now == if Level(g, order[i-1]) == level then before + {i - 1} else before;
  }

  lemma PlaceIsLaidOut(order: seq<string>, g: Deps, task: Task, i: nat)
    requires i < |order| && forall j :: 0 <= j <= i ==> order[j] in g
    ensures LaidOut(order, g, task, Place(order, LevelMap(g), task, i), i)
  {
    hide Level, Row;
    RowIsCount(order, g, Level(g, order[i]), i);
  }

  lemma RowStart(order: seq<string>, levels: map<string, int>)
    ensures forall l :: Row(order, levels, l, 0) == 0
  {
  }

  lemma RowNext(order: seq<string>, levels: map<string, int>, i: nat)
    requires i < |order| && order[i] in levels
    ensures forall l ::
      Row(order, levels, l, i + 1) == Row(order, levels, l, i) + (if levels[order[i]] == l then 1 else 0)
  {
  }

  lemma OnlyHere(order: seq<string>, i: nat)
    requires i < |order| && Distinct(order)
    ensures forall j :: 0 <= j < |order| && j != i ==> order[j] != order[i]
  {
  }

  lemma PlaceIs(order: seq<string>, levels: map<string, int>, task: Task, i: nat, row: nat)
    requires i < |order| && order[i] in levels && row == Row(order, levels, levels[order[i]], i)
    ensures Place(order, levels, task, i) ==
      task.(x := MARGIN + levels[order[i]] as real * COLUMN_WIDTH, y := MARGIN + row as real * ROW_HEIGHT)
  {
  }

  ghost function LevelMap(g: Deps): map<string, int> {
    map t | t in g :: Level(g, t)
  }

  lemma {:induction false} RowGrows(order: seq<string>, levels: map<string, int>, i: nat, j: nat)
    requires i < j <= |order| && order[i] in levels
    ensures Row(order, levels, levels[order[i]], i) < Row(order, levels, levels[order[i]], j)
  {
    if j > i + 1 { RowGrows(order, levels, i, j - 1); }
  }

  /** No two tasks are put in one place. */
  lemma NoTwoInOnePlace(order: seq<string>, levels: map<string, int>, i: nat, j: nat, a: Task, b: Task)
    requires i < j < |order| && order[i] in levels && order[j] in levels
    ensures var a', b' := Place(order, levels, a, i), Place(order, levels, b, j);
      (a'.x, a'.y) != (b'.x, b'.y)
  {
    if levels[order[i]] == levels[order[j]] {
      RowGrows(order, levels, i, j);
    }
  }

  /** On an acyclic graph a task is put to the right of everything it depends on. */
  lemma DependenciesToTheLeft(g: Deps, order: seq<string>, i: nat, j: nat, a: Task, b: Task)
    requires i < |order| && j < |order| && order[i] in g && order[j] in g
    requires Acyclic(g) && Edge(g, order[i], order[j])
    ensures Place(order, LevelMap(g), b, j).x + COLUMN_WIDTH <= Place(order, LevelMap(g), a, i).x
  {
    EdgeRaisesLevel(g, order[i], order[j]);
  }
}

/** The editor's draft: a class whose methods change it in place. */
module PipelineDraft {
  import opened Collections
  import opened Graphs
  import opened Wrappers
  import opened Text
  import opened DraftReferences
  import opened DraftModel
  import opened DraftEffects
  import opened DraftLevels
  import opened DraftLayout

  class PipelineDraft {
    var order: seq<string>
    var tasks: map<string, Task>
    var revision: nat

    ghost function View(): Draft
      reads this
    {
      Draft(order, tasks, revision)
    }

    constructor ()
      ensures View() == Empty
    {
      order, tasks, revision := [], map[], 0;
    }

    /** `_reaches`: whether `start` is `goal` or depends on it. */
    method Reaches(start: string, goal: string) returns (reached: bool)
      ensures reached <==> Graphs.Reaches(Graph(View()), start, goal)
    {
      ghost var g := Graph(View());
      var seen: set<string> := {};
      var stack := [start];
      ghost var dead: set<string> := {};
      while stack != []
        invariant seen <= g.Keys && dead !! g.Keys
        invariant goal !in seen && goal !in dead
        invariant forall x :: x in stack ==> Graphs.Reaches(g, start, x)
        invariant forall x :: x in seen ==> Graphs.Reaches(g, start, x)
        invariant start in stack || start in seen || start in dead
        invariant forall x, y :: x in seen && Edge(g, x, y) ==> y in stack || y in seen || y in dead
        decreases g.Keys - seen, |stack|
      {
        var current := stack[|stack|-1];
        ghost var before := stack;
        stack := stack[..|stack|-1];
        assert before == stack + [current];
        assert current in before && Graphs.Reaches(g, start, current);
        if current == goal {
          return true;
        }
        if current in seen || current !in tasks {
          dead := if current in tasks then dead else dead + {current};
          continue;
        }
        seen := seen + {current};
        stack := stack + tasks[current].dependsOn;
        forall y | y in tasks[current].dependsOn ensures Graphs.Reaches(g, start, y) {
          EdgeDepends(g, current, y);
          if start != current { DependsTransitive(g, start, current, y); }
        }
      }
      if Graphs.Reaches(g, start, goal) {
        ClosedSetKeepsDependencies(g, seen + dead, start, goal);
        assert false;
      }
      return false;
    }

    /** `connect`. */
    method Connect(upstream: string, downstream: string) returns (r: Result<bool, Refusal>)
      modifies this
      ensures (View(), r) == DraftModel.Connect(old(View()), upstream, downstream)
      ensures Connects(old(View()), View(), r, upstream, downstream)
    {
      hide Connects;
      ConnectEffect(View(), upstream, downstream);
      if upstream !in tasks { return Failure(NoTask(upstream)); }
      if downstream !in tasks { return Failure(NoTask(downstream)); }
      if upstream == downstream { return Failure(SelfDependency(upstream)); }
      if upstream in tasks[downstream].dependsOn { return Success(false); }
      var closes := Reaches(upstream, downstream);
      if closes { return Failure(WouldCycle(upstream, downstream)); }
      var target := tasks[downstream];
      tasks := tasks[downstream := target.(dependsOn := target.dependsOn + [upstream])];
      revision := revision + 1;
      return Success(true);
    }

    /** `disconnect`. */
    method Disconnect(upstream: string, downstream: string) returns (r: Result<bool, Refusal>)
      modifies this
      ensures (View(), r) == DraftModel.Disconnect(old(View()), upstream, downstream)
      ensures Disconnects(old(View()), View(), r, upstream, downstream)
    {
      hide Disconnects;
      DisconnectEffect(View(), upstream, downstream);
      if downstream !in tasks { return Failure(NoTask(downstream)); }
      var target := tasks[downstream];
      if upstream !in target.dependsOn { return Success(false); }
      tasks := tasks[downstream := target.(dependsOn := RemoveFirst(target.dependsOn, upstream))];
      revision := revision + 1;
      return Success(true);
    }

    /** `set_dependencies`. */
    method SetDependencies(id: string, dependsOn: seq<string>) returns (refusal: Option<Refusal>)
      modifies this
      ensures (View(), refusal) == DraftModel.SetDependencies(old(View()), id, dependsOn)
    {
      if id !in tasks { return Some(NoTask(id)); }
      hide Dedup, Keep, DisconnectAll, ConnectAll;
      var wanted := Dedup(dependsOn);
      DisconnectEach(Keep(tasks[id].dependsOn, wanted, false), id);
      refusal := ConnectEach(wanted, id);
    }

    /** The first loop of `set_dependencies`. */
    method DisconnectEach(ups: seq<string>, id: string)
      modifies this
      ensures View() == DisconnectAll(old(View()), ups, id)
    {
      for i := 0 to |ups|
        invariant View() == DisconnectAll(old(View()), ups[..i], id)
      {
        hide DraftModel.Disconnect;
        assert ups[..i+1][..i] == ups[..i];
        var _ := Disconnect(ups[i], id);
      }
      assert ups[..|ups|] == ups;
    }

    /** Its second loop, which a refused edge ends. */
    method ConnectEach(ups: seq<string>, id: string) returns (refusal: Option<Refusal>)
      modifies this
      ensures (View(), refusal) == ConnectAll(old(View()), ups, id)
    {
      for i := 0 to |ups|
        invariant (View(), None) == ConnectAll(old(View()), ups[..i], id)
      {
        hide DraftModel.Connect;
        assert ups[..i+1][..i] == ups[..i];
        var r := Connect(ups[i], id);
        if r.Failure? {
          RefusedStays(old(View()), ups, i + 1, id);
          return Some(r.error);
        }
      }
      assert ups[..|ups|] == ups;
      return None;
    }

    /** `remove_task`. */
    method RemoveTask(id: string) returns (refusal: Option<Refusal>)
      requires Valid(View())
      modifies this
      ensures (View(), refusal) == DraftModel.RemoveTask(old(View()), id)
      ensures if id in old(tasks) then refusal == None && Removes(old(View()), View(), id)
              else refusal == Some(NoTask(id)) && View() == old(View())
    {
      hide Removes;
      RemoveEffect(View(), id);
      if id !in tasks { return Some(NoTask(id)); }
      order := RemoveFirst(order, id);
      tasks := WithoutDependency(order, tasks - {id}, id);
      assert tasks == DraftModel.RemoveTask(old(View()), id).0.tasks;
      revision := revision + 1;
      return None;
    }

    /** `rename_task`. */
    method RenameTask(id: string, newId: string) returns (refusal: Option<Refusal>)
      requires Valid(View())
      modifies this
      ensures (View(), refusal) == DraftModel.RenameTask(old(View()), id, newId)
      ensures RenamesOrRefuses(old(View()), View(), refusal, id, newId)
    {
      hide RenamesOrRefuses;
      RenameEffect(View(), id, newId);
      if id !in tasks { return Some(NoTask(id)); }
      if newId == id { return None; }
      if !IsName(newId) { return Some(InvalidId(newId)); }
      if newId in tasks { return Some(IdTaken(newId)); }
      hide Valid, Distinct, RenamedTasks, Renamed, IsName, RenamesOrRefuses;
      var moved := map t | t in tasks.Keys - {id} + {newId} :: if t == newId then tasks[id] else tasks[t];
      MovedThenRenamed(tasks, moved, order, id, newId);
      var renamed := WithRenamedReferences(Renamed(order, id, newId), moved, id, newId);
      assert (Draft(Renamed(order, id, newId), renamed, revision + 1), None)
        == DraftModel.RenameTask(View(), id, newId);
      hide DraftModel.RenameTask;
      order, tasks, revision := Renamed(order, id, newId), renamed, revision + 1;
      return None;
    }

    /** `add_task`: under the id given, or under an unused one. */
    method AddTask(action: string, taskId: Option<string>, arguments: Value, position: Option<(real, real)>)
      returns (r: Result<string, Refusal>)
      requires Valid(View())
      modifies this
      ensures taskId.Some? ==>
        AddsOrRefuses(old(View()), View(), if r.Success? then None else Some(r.error),
                      taskId.value, action, arguments, position)
      ensures taskId.None? && r.Success? ==>
        Adds(old(View()), View(), r.value, action, arguments, position)
        && IsUnusedFor(old(tasks).Keys, action, r.value)
      ensures taskId.Some? && r.Success? ==> r.value == taskId.value
      ensures taskId.Some? ==>
        (View(), if r.Success? then None else Some(r.error))
        == DraftModel.AddTask(old(View()), taskId.value, action, arguments, position)
      ensures taskId.None? && r.Success? ==>
        (View(), None) == DraftModel.AddTask(old(View()), r.value, action, arguments, position)
      ensures taskId.None? && r.Failure? ==> r.error == BadArguments && View() == old(View())
      ensures taskId.None? ==> (r.Success? <==> Arguments(arguments))
    {
      hide AddsOrRefuses, Adds, IsUnusedFor;
      var chosen;
      if taskId.None? {
        chosen := UnusedId(action);
        AddUnused(View(), chosen, action, arguments, position);
      } else {
        chosen := taskId.value;
        AddEffect(View(), chosen, action, arguments, position);
        if !IsName(chosen) { return Failure(InvalidId(chosen)); }
        if chosen in tasks { return Failure(IdTaken(chosen)); }
      }
      var (x, y) := if position.Some? then position.value else FreePosition(Draft(order, tasks, revision));
      if !Arguments(arguments) { return Failure(BadArguments); }
      tasks := tasks[chosen := Task(action, arguments, [], x, y)];
      order := order + [chosen];
      revision := revision + 1;
      return Success(chosen);
    }

    /** `_unused_id`: the name derived from the action, or the least free number after it. */
    method UnusedId(action: string) returns (id: string)
      ensures IsName(id) && id !in tasks
      ensures IsUnusedFor(tasks.Keys, action, id)
    {
      var base := BaseName(action);
      BaseNameIsName(action);
      if base !in tasks { return base; }
      var number := 2;
      ghost var taken: set<string> := {};
      while Numbered(base, number) in tasks
        invariant 2 <= number && taken <= tasks.Keys && |taken| == number - 2
        invariant forall x :: x in taken ==> exists k: nat :: 2 <= k < number && x == Numbered(base, k)
        invariant forall k: nat :: 2 <= k < number ==> Numbered(base, k) in tasks
        decreases tasks.Keys - taken
      {
        if Numbered(base, number) in taken {
          var k: nat :| 2 <= k < number && Numbered(base, number) == Numbered(base, k);
          NumberedInjective(base, number, k);
          assert false;
        }
        taken := taken + {Numbered(base, number)};
        number := number + 1;
      }
      NumberedIsName(base, number);
      assert IsLeastFree(tasks.Keys, base, number);
      return Numbered(base, number);
    }

    /** `auto_layout`. */
    method AutoLayout()
      requires Valid(View())
      modifies this
      ensures order == old(order) && tasks.Keys == old(tasks).Keys && revision == old(revision) + 1
      ensures forall i :: 0 <= i < |order| ==> order[i] in tasks && order[i] in Graph(old(View()))
      ensures forall i :: 0 <= i < |order| ==>
        tasks[order[i]] == Place(order, LevelMap(Graph(old(View()))), old(tasks)[order[i]], i)
      ensures forall i :: 0 <= i < |order| ==>
        LaidOut(order, Graph(old(View())), old(tasks)[order[i]], tasks[order[i]], i)
    {
      hide LaidOut, Place, Level;
      SizeOfOrder(View());
      var graph := map t | t in tasks :: tasks[t].dependsOn;
      assert graph == Graph(View()) && graph.Keys == tasks.Keys && |graph.Keys| == |graph|;
      var levels := Levels(graph, order);
      tasks := PlaceAll(order, tasks, levels);
      revision := revision + 1;
      assert levels == LevelMap(Graph(old(View())));
      AllLaidOut(order, graph, old(tasks));
    }
  }

  lemma AllLaidOut(order: seq<string>, g: Deps, tasks: map<string, Task>)
    requires tasks.Keys == g.Keys && forall i :: 0 <= i < |order| ==> order[i] in g
    ensures forall i :: 0 <= i < |order| ==>
      LaidOut(order, g, tasks[order[i]], Place(order, LevelMap(g), tasks[order[i]], i), i)
  {
    hide Level, Place, LaidOut;
    forall i | 0 <= i < |order|
      ensures LaidOut(order, g, tasks[order[i]], Place(order, LevelMap(g), tasks[order[i]], i), i)
    {
      PlaceIsLaidOut(order, g, tasks[order[i]], i);
    }
  }

  lemma MovedThenRenamed(tasks: map<string, Task>, moved: map<string, Task>, order: seq<string>,
                         id: string, newId: string)
    requires id in tasks && newId !in tasks && Valid(Draft(order, tasks, 0))
    requires moved == map t | t in tasks.Keys - {id} + {newId} :: if t == newId then tasks[id] else tasks[t]
    ensures RenamedTasks(tasks, id, newId) ==
      map t | t in moved :: RenamedTask(moved[t], id, newId)
    ensures Distinct(Renamed(order, id, newId)) && forall t :: t in Renamed(order, id, newId) <==> t in moved
  {
    var renamed := Draft(Renamed(order, id, newId), RenamedTasks(tasks, id, newId), 0);
    RenamedOrder(Draft(order, tasks, 0), renamed, id, newId);
    assert forall t :: t in renamed.order <==> t in renamed.tasks;
  }

  /** Every task loses its dependency on `id`. */
  method WithoutDependency(order: seq<string>, tasks0: map<string, Task>, id: string)
    returns (tasks: map<string, Task>)
    requires Distinct(order) && forall t :: t in order <==> t in tasks0
    ensures tasks == map t | t in tasks0 :: tasks0[t].(dependsOn := RemoveFirst(tasks0[t].dependsOn, id))
  {
    hide Distinct, RemoveFirst;
    tasks := tasks0;
    for i := 0 to |order|
      invariant tasks.Keys == tasks0.Keys
      invariant forall j :: 0 <= j < i ==>
        tasks[order[j]] == tasks0[order[j]].(dependsOn := RemoveFirst(tasks0[order[j]].dependsOn, id))
      invariant forall j :: i <= j < |order| ==> tasks[order[j]] == tasks0[order[j]]
    {
      OnlyHere(order, i);
      var other := tasks[order[i]];
      if id in other.dependsOn {
        tasks := tasks[order[i] := other.(dependsOn := RemoveFirst(other.dependsOn, id))];
      }
    }
    forall t | t in tasks ensures tasks[t] == tasks0[t].(dependsOn := RemoveFirst(tasks0[t].dependsOn, id)) {
      var j :| 0 <= j < |order| && order[j] == t;
    }
  }

  /** Every task depends on `newId` and refers to it where it was `id` before. */
  method WithRenamedReferences(order: seq<string>, tasks0: map<string, Task>, id: string, newId: string)
    returns (tasks: map<string, Task>)
    requires Distinct(order) && forall t :: t in order <==> t in tasks0
    ensures tasks == map t | t in tasks0 :: RenamedTask(tasks0[t], id, newId)
  {
    hide Distinct, Renamed, RenamedReferences;
    tasks := tasks0;
    for i := 0 to |order|
      invariant tasks.Keys == tasks0.Keys
      invariant forall j :: 0 <= j < i ==> tasks[order[j]] == RenamedTask(tasks0[order[j]], id, newId)
      invariant forall j :: i <= j < |order| ==> tasks[order[j]] == tasks0[order[j]]
    {
      OnlyHere(order, i);
      var other := tasks[order[i]];
      other := other.(dependsOn := Renamed(other.dependsOn, id, newId));
      other := other.(arguments := RenamedReferences(other.arguments, id, newId));
      tasks := tasks[order[i] := other];
    }
    forall t | t in tasks ensures tasks[t] == RenamedTask(tasks0[t], id, newId) {
      var j :| 0 <= j < |order| && order[j] == t;
    }
  }

  /** The loop of `auto_layout`: a column for every level, a row for every task of a level. */
  method PlaceAll(order: seq<string>, tasks0: map<string, Task>, levels: map<string, int>)
    returns (tasks: map<string, Task>)
    requires Distinct(order) && (forall t :: t in order <==> t in tasks0) && levels.Keys == tasks0.Keys
    ensures tasks.Keys == tasks0.Keys
    ensures forall j :: 0 <= j < |order| ==> tasks[order[j]] == Place(order, levels, tasks0[order[j]], j)
  {
    hide Place, Row, Distinct;
    RowStart(order, levels);
    tasks := tasks0;
    var rows: map<int, nat> := map[];
    for i := 0 to |order|
      invariant tasks.Keys == tasks0.Keys
      invariant forall l :: (if l in rows then rows[l] else 0) == Row(order, levels, l, i)
      invariant forall j :: 0 <= j < i ==> tasks[order[j]] == Place(order, levels, tasks0[order[j]], j)
      invariant forall j :: i <= j < |order| ==> tasks[order[j]] == tasks0[order[j]]
    {
      var id := order[i];
      var level := levels[id];
      var row := if level in rows then rows[level] else 0;
      rows := rows[level := row + 1];
      var placed := tasks[id].(x := MARGIN + level as real * COLUMN_WIDTH,
                               y := MARGIN + row as real * ROW_HEIGHT);
      PlaceIs(order, levels, tasks[id], i, row);
      RowNext(order, levels, i);
      OnlyHere(order, i);
      tasks := tasks[id := placed];
    }
  }

  lemma {:induction false} RefusedStays(d: Draft, ups: seq<string>, i: nat, down: string)
    requires i <= |ups| && ConnectAll(d, ups[..i], down).1.Some?
    ensures ConnectAll(d, ups, down) == ConnectAll(d, ups[..i], down)
    decreases |ups| - i
  {
    if i < |ups| {
      assert ups[..i+1][..i] == ups[..i];
      RefusedStays(d, ups, i + 1, down);
    } else {
      assert ups[..i] == ups;
    }
  }

  lemma {:induction false} SizeOfOrder(d: Draft)
    requires Valid(d)
    ensures |d.order| == |d.tasks|
  {
    SizeOfUnique(d.order, d.tasks.Keys);
    assert |d.tasks.Keys| == |d.tasks|;
  }

  lemma {:induction false} SizeOfUnique(s: seq<string>, all: set<string>)
    requires Distinct(s) && forall x :: x in all <==> x in s
    ensures |s| == |all|
  {
    if s == [] {
      assert all == {};
    } else {
      var rest, last := s[..|s|-1], s[|s|-1];
      assert s == rest + [last];
      SizeOfUnique(rest, all - {last});
    }
  }

  // ---------------------------------------------------------------- unused ids

  function StripStart(s: string): (r: string)
    ensures |r| <= |s|
  {
    if s != "" && IsSpace(s[0]) then StripStart(s[1..]) else s
  }

  function StripEnd(s: string): string {
    if s != "" && IsSpace(s[|s|-1]) then StripEnd(s[..|s|-1]) else s
  }

  const ACTION_PREFIX := "FA_"

  /** The action's name without its prefix, or `task` when that is no name. */
  function BaseName(action: string): string {
    var stripped := StripEnd(StripStart(action));
    var base := if ACTION_PREFIX <= stripped then stripped[|ACTION_PREFIX|..] else stripped;
    if IsName(base) then base else "task"
  }

  function Numbered(base: string, n: nat): string {
    base + "_" + Decimal(n)
  }

  /** The id for the action: the base name if that is free, else the least free of its numbered ones. */
  ghost predicate IsUnusedFor(ids: set<string>, action: string, id: string) {
    var base := BaseName(action);
    && id !in ids
    && (id == base || (base in ids && exists n :: IsLeastFree(ids, base, n) && id == base + "_" + Decimal(n)))
  }

  lemma AddUnused(d: Draft, id: string, action: string, arguments: Value, position: Option<(real, real)>)
    requires Valid(d) && IsName(id) && id !in d.tasks
    ensures Arguments(arguments) ==>
      Adds(d, DraftModel.AddTask(d, id, action, arguments, position).0, id, action, arguments, position)
  {
    hide Adds, IsName;
    AddEffect(d, id, action, arguments, position);
    BadIdIff(id);
  }

  // ---------------------------------------------------------------- what the base name is

  ghost predicate AllSpace(s: string) {
    forall i :: 0 <= i < |s| ==> IsSpace(s[i])
  }

  /** Nothing to strip. */
  ghost predicate IsBare(s: string) {
    s == "" || (!IsSpace(s[0]) && !IsSpace(s[|s|-1]))
  }

  lemma {:induction false} StripStartOf(pre: string, core: string)
    requires AllSpace(pre) && (core == "" || !IsSpace(core[0]))
    ensures StripStart(pre + core) == core
  {
    if pre == "" {
      assert pre + core == core;
    } else {
      StripStartOf(pre[1..], core);
      assert (pre + core)[1..] == pre[1..] + core;
    }
  }

  lemma {:induction false} StripEndOf(core: string, post: string)
    requires AllSpace(post) && (core == "" || !IsSpace(core[|core|-1]))
    ensures StripEnd(core + post) == core
    decreases |post|
  {
    if post == "" {
      assert core + post == core;
    } else {
      StripEndOf(core, post[..|post|-1]);
      assert (core + post)[..|core|+|post|-1] == core + post[..|post|-1];
    }
  }

  /** Whatever white space is around it: an action `FA_x` gives `x`, any other its own name, and `task` where
      that is no name. */
  lemma BaseNameOf(pre: string, core: string, post: string)
    requires AllSpace(pre) && AllSpace(post) && IsBare(core)
    ensures BadId(core) && !("FA_" <= core) ==> BaseName(pre + core + post) == "task"
    ensures !BadId(core) && !("FA_" <= core) ==> BaseName(pre + core + post) == core
    ensures "FA_" <= core ==> BaseName(pre + core + post) == if BadId(core[3..]) then "task" else core[3..]
  {
    hide BadId, IsName, IsSpace;
    if core == "" {
      assert pre + core + post == (pre + post) + "" && AllSpace(pre + post);
      StripStartOf(pre + post, "");
    } else {
      assert pre + core + post == pre + (core + post);
      StripStartOf(pre, core + post);
      StripEndOf(core, post);
    }
    BadIdIff(core);
    if "FA_" <= core { BadIdIff(core[3..]); }
  }

  ghost predicate IsLeastFree(ids: set<string>, base: string, n: nat) {
    n >= 2 && Numbered(base, n) !in ids && forall k: nat :: 2 <= k < n ==> Numbered(base, k) in ids
  }

  lemma BaseNameIsName(action: string)
    ensures IsName(BaseName(action))
  {
    assert IsName("task");
  }

  lemma NumberedInjective(base: string, m: nat, n: nat)
    requires Numbered(base, m) == Numbered(base, n)
    ensures m == n
  {
    var head := base + "_";
    assert Numbered(base, m)[|head|..] == Decimal(m) && Numbered(base, n)[|head|..] == Decimal(n);
    DecimalRoundTrip(m);
    DecimalRoundTrip(n);
  }

  lemma NumberedIsName(base: string, n: nat)
    requires IsName(base)
    ensures IsName(Numbered(base, n))
  {
    var s := Numbered(base, n);
    forall i | 0 <= i < |s| ensures !IsSpace(s[i]) && s[i] !in ".${}" {
      if i < |base| {
        assert s[i] == base[i];
      } else if i > |base| {
        assert s[i] == Decimal(n)[i - |base| - 1] && IsDigit(s[i]);
      }
    }
  }
}
