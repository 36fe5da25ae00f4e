/** What each edit leaves of a draft, field by field. */
module DraftEffects {
  import opened Collections
  import opened Graphs
  import opened Wrappers
  import opened Text
  import opened DraftReferences
  import opened DraftModel

  /** `before` without the first `x` in it. */
  ghost predicate WithoutFirst(after: seq<string>, before: seq<string>, x: string) {
    if x !in before then after == before
    else exists k :: CutsOut(after, before, x, k)
  }

  ghost predicate CutsOut(after: seq<string>, before: seq<string>, x: string, k: int) {
    0 <= k < |before| && before[k] == x && x !in before[..k] && after == before[..k] + before[k+1..]
  }

  /** What a task does and where it lies is what it was. */
  ghost predicate SameSettings(a: Task, b: Task) {
    a.action == b.action && a.arguments == b.arguments && a.x == b.x && a.y == b.y
  }

  /** A text that cannot be the id of a task. */
  ghost predicate BadId(id: string) {
    || id == ""
    || exists i :: 0 <= i < |id|
         && (IsSpace(id[i]) || id[i] == '.' || id[i] == '$' || id[i] == '{' || id[i] == '}')
  }

  lemma BadIdIff(id: string)
    ensures BadId(id) <==> !IsName(id)
  {
    forall i | 0 <= i < |id|
      ensures id[i] in ".${}" <==> id[i] == '.' || id[i] == '$' || id[i] == '{' || id[i] == '}'
    {
      assert ".${}"[0] == '.' && ".${}"[1] == '$' && ".${}"[2] == '{' && ".${}"[3] == '}';
    }
  }

  // ---------------------------------------------------------------- removing

  /** The task is gone, and of every other one only its dependency on the task. */
  ghost predicate Removes(d: Draft, after: Draft, id: string) {
    && WithoutFirst(after.order, d.order, id)
    && after.tasks.Keys == d.tasks.Keys - {id} && after.revision == d.revision + 1
    && forall t :: t in after.tasks ==>
         SameSettings(after.tasks[t], d.tasks[t]) && WithoutFirst(after.tasks[t].dependsOn, d.tasks[t].dependsOn, id)
  }

  lemma {:induction false} RemovesFirst(s: seq<string>, x: string)
    ensures WithoutFirst(RemoveFirst(s, x), s, x)
  {
    if x in s {
      var init, last := s[..|s|-1], s[|s|-1];
      assert s == init + [last];
      if last == x && x !in init {
        assert CutsOut(RemoveFirst(s, x), s, x, |s| - 1);
      } else {
        RemovesFirst(init, x);
        var k :| CutsOut(RemoveFirst(init, x), init, x, k);
        assert s[..k] == init[..k] && init[k+1..] + [last] == s[k+1..];
        assert CutsOut(RemoveFirst(s, x), s, x, k);
      }
    }
  }

  lemma RemoveEffect(d: Draft, id: string)
    requires Valid(d)
    ensures var (after, refusal) := DraftModel.RemoveTask(d, id);
      if id in d.tasks then refusal == None && Removes(d, after, id)
      else refusal == Some(NoTask(id)) && after == d
  {
    hide RemoveFirst, WithoutFirst;
    RemovesFirst(d.order, id);
    forall t | t in d.tasks ensures WithoutFirst(RemoveFirst(d.tasks[t].dependsOn, id), d.tasks[t].dependsOn, id) {
      RemovesFirst(d.tasks[t].dependsOn, id);
    }
  }

  /** So the dependencies left are those between the tasks left. */
  lemma RemovedEdges(d: Draft, after: Draft, id: string, a: string, b: string)
    requires Good(d) && id in d.tasks && Removes(d, after, id)
    ensures Edge(Graph(after), a, b) <==> Edge(Graph(d), a, b) && a != id && b != id
  {
    if a in after.tasks {
      OthersLeft(after.tasks[a].dependsOn, d.tasks[a].dependsOn, id);
    }
  }

  lemma OthersLeft(after: seq<string>, before: seq<string>, x: string)
    requires Distinct(before) && WithoutFirst(after, before, x)
    ensures forall y :: y in after <==> y in before && y != x
  {
    if x in before {
      var k :| CutsOut(after, before, x, k);
      assert before == before[..k] + [x] + before[k+1..];
      assert x !in before[k+1..];
    }
  }

  // ---------------------------------------------------------------- adding

  /** Where a task without a given place goes. */
  ghost predicate IsFree(d: Draft, x: real, y: real) {
    && x == 40.0
    && (d.tasks.Keys == {} ==> y == 40.0)
    && (forall t :: t in d.tasks ==> y >= d.tasks[t].y + 110.0)
    && (d.tasks.Keys != {} ==> exists t :: t in d.tasks && y == d.tasks[t].y + 110.0)
  }

  /** The task comes last, as it was asked for, with no dependencies; all others are what they were. */
  ghost predicate Adds(d: Draft, after: Draft, id: string, action: string, arguments: Value,
                       position: Option<(real, real)>) {
    && after.order == d.order + [id] && after.revision == d.revision + 1
    && after.tasks.Keys == d.tasks.Keys + {id}
    && (forall t :: t in d.tasks && t != id ==> after.tasks[t] == d.tasks[t])
    && var task := after.tasks[id];
    && task.action == action && task.arguments == arguments && task.dependsOn == []
    && if position.Some? then (task.x, task.y) == position.value else IsFree(d, task.x, task.y)
  }

  /** Adding under a given id, with the first of its errors. */
  ghost predicate AddsOrRefuses(d: Draft, after: Draft, refusal: Option<Refusal>, id: string, action: string,
                                arguments: Value, position: Option<(real, real)>) {
    if BadId(id) then after == d && refusal == Some(InvalidId(id))
    else if id in d.tasks then after == d && refusal == Some(IdTaken(id))
    else if arguments.Words? || arguments.Scalar? then after == d && refusal == Some(BadArguments)
    else refusal == None && Adds(d, after, id, action, arguments, position)
  }

  lemma AddEffect(d: Draft, id: string, action: string, arguments: Value, position: Option<(real, real)>)
    requires Valid(d)
    ensures var (after, refusal) := DraftModel.AddTask(d, id, action, arguments, position);
      AddsOrRefuses(d, after, refusal, id, action, arguments, position)
  {
    hide Lowest, BadId, IsName;
    BadIdIff(id);
    if d.order != [] {
      FreePositionIsBelow(d);
      assert d.order[0] in d.tasks;
    } else {
      NoTasks(d);
    }
  }

  lemma NoTasks(d: Draft)
    requires Valid(d) && d.order == []
    ensures d.tasks.Keys == {}
  {
    assert forall t :: t in d.tasks ==> t in d.order;
  }

  // ---------------------------------------------------------------- edges

  /** Only the dependencies of `id` change, to `deps`. */
  ghost predicate OnlyChanges(d: Draft, after: Draft, id: string, deps: seq<string>) {
    && after.order == d.order && after.revision == d.revision + 1 && after.tasks.Keys == d.tasks.Keys
    && (forall t :: t in d.tasks && t != id ==> after.tasks[t] == d.tasks[t])
    && id in d.tasks && SameSettings(after.tasks[id], d.tasks[id]) && after.tasks[id].dependsOn == deps
  }

  /** Connecting, with the first of its errors; the new dependency comes last. */
  ghost predicate Connects(d: Draft, after: Draft, r: Result<bool, Refusal>, up: string, down: string) {
    if up !in d.tasks then after == d && r == Failure(NoTask(up))
    else if down !in d.tasks then after == d && r == Failure(NoTask(down))
    else if up == down then after == d && r == Failure(SelfDependency(up))
    else if Edge(Graph(d), down, up) then after == d && r == Success(false)
    else if Reaches(Graph(d), up, down) then after == d && r == Failure(WouldCycle(up, down))
    else r == Success(true) && OnlyChanges(d, after, down, d.tasks[down].dependsOn + [up])
  }

  lemma ConnectEffect(d: Draft, up: string, down: string)
    ensures var (after, r) := DraftModel.Connect(d, up, down); Connects(d, after, r, up, down)
  {
  }

  /** Disconnecting; the first of equal entries goes. */
  ghost predicate Disconnects(d: Draft, after: Draft, r: Result<bool, Refusal>, up: string, down: string) {
    if down !in d.tasks then after == d && r == Failure(NoTask(down))
    else if !Edge(Graph(d), down, up) then after == d && r == Success(false)
    else
      r == Success(true)
      && exists deps :: WithoutFirst(deps, d.tasks[down].dependsOn, up) && OnlyChanges(d, after, down, deps)
  }

  lemma DisconnectEffect(d: Draft, up: string, down: string)
    ensures var (after, r) := DraftModel.Disconnect(d, up, down); Disconnects(d, after, r, up, down)
  {
    hide RemoveFirst, WithoutFirst;
    if down in d.tasks {
      RemovesFirst(d.tasks[down].dependsOn, up);
      var after := DraftModel.Disconnect(d, up, down).0;
      assert Edge(Graph(d), down, up) ==> OnlyChanges(d, after, down, RemoveFirst(d.tasks[down].dependsOn, up));
    }
  }

  // ---------------------------------------------------------------- renaming

  /** `after` has `newId` wherever `before` has `id`, place by place. */
  ghost predicate Replaces(after: seq<string>, before: seq<string>, id: string, newId: string) {
    |after| == |before|
    && forall i :: 0 <= i < |before| ==> after[i] == if before[i] == id then newId else before[i]
  }

  /** Every task stays in its place and what it was, under `newId` if it was under `id`, and depends on `newId`
      and refers to it in its arguments where it was `id`. */
  ghost predicate Renames(d: Draft, after: Draft, id: string, newId: string) {
    && Replaces(after.order, d.order, id, newId) && after.revision == d.revision + 1
    && after.tasks.Keys == d.tasks.Keys - {id} + {newId}
    && forall t :: t in d.tasks ==>
         var now, before := after.tasks[if t == id then newId else t], d.tasks[t];
         && now.action == before.action && now.x == before.x && now.y == before.y
         && Replaces(now.dependsOn, before.dependsOn, id, newId)
         && now.arguments == RenamedReferences(before.arguments, id, newId)
  }

  ghost predicate RenamesOrRefuses(d: Draft, after: Draft, refusal: Option<Refusal>, id: string, newId: string) {
    if id !in d.tasks then after == d && refusal == Some(NoTask(id))
    else if newId == id then after == d && refusal == None
    else if BadId(newId) then after == d && refusal == Some(InvalidId(newId))
    else if newId in d.tasks then after == d && refusal == Some(IdTaken(newId))
    else refusal == None && Renames(d, after, id, newId)
  }

  lemma RenameEffect(d: Draft, id: string, newId: string)
    ensures var (after, refusal) := DraftModel.RenameTask(d, id, newId);
      RenamesOrRefuses(d, after, refusal, id, newId)
  {
    hide RenamedReferences, IsName, BadId;
    BadIdIff(newId);
  }
}
