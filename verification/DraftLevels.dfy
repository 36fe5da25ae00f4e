/** Dependency depth: the longest chain of dependencies below a task. */
module DraftLevels {
  import opened Graphs

  function Max(a: nat, b: nat): nat { if a < b then b else a }
  function Min(a: int, b: int): int { if a < b then a else b }

  /** The most edges, up to `k`, of a path from `t` that stays in the graph. */
  ghost function Chain(g: Deps, t: string, k: nat): nat
    requires t in g
    decreases k, 1, 0
  {
    if k == 0 then 0 else Above(g, g[t], k - 1)
  }

  /** One more than the longest chain from one of `deps`; 0 when none of them is in the graph. */
  ghost function Above(g: Deps, deps: seq<string>, k: nat): nat
    decreases k, 2, |deps|
  {
    if deps == [] then 0
    else
      var rest, last := deps[..|deps|-1], deps[|deps|-1];
      Max(Above(g, rest, k), if last in g then Chain(g, last, k) + 1 else 0)
  }

  ghost predicate Inside(g: Deps, p: seq<string>) {
    IsPath(g, p) && forall i :: 0 <= i < |p| ==> p[i] in g
  }

  lemma {:induction false} AboveBounds(g: Deps, deps: seq<string>, k: nat, d: string)
    requires d in deps && d in g
    ensures Chain(g, d, k) + 1 <= Above(g, deps, k)
  {
    var rest, last := deps[..|deps|-1], deps[|deps|-1];
    if d in rest { AboveBounds(g, rest, k, d); } else { assert deps == rest + [last]; }
  }

  lemma {:induction false} AboveAttained(g: Deps, deps: seq<string>, k: nat) returns (d: string)
    requires Above(g, deps, k) > 0
    ensures d in deps && d in g && Above(g, deps, k) == Chain(g, d, k) + 1
  {
    var rest, last := deps[..|deps|-1], deps[|deps|-1];
    assert deps == rest + [last];
    if Above(g, deps, k) == Above(g, rest, k) { d := AboveAttained(g, rest, k); } else { d := last; }
  }

  /** Some path has as many edges as `Chain` says. */
  lemma {:induction false} ChainAttained(g: Deps, t: string, k: nat) returns (p: seq<string>)
    requires t in g
    ensures Inside(g, p) && p[0] == t && |p| == Chain(g, t, k) + 1 && Chain(g, t, k) <= k
    decreases k
  {
    if k == 0 || Above(g, g[t], k - 1) == 0 {
      p := [t];
    } else {
      var d := AboveAttained(g, g[t], k - 1);
      var q := ChainAttained(g, d, k - 1);
      p := [t] + q;
      forall i: nat | i + 1 < |p| ensures Step(g, p, i) {
        if i > 0 { assert Step(g, q, i - 1); }
      }
    }
  }

  /** No path of at most `k` edges has more. */
  lemma {:induction false} ChainBounds(g: Deps, p: seq<string>, k: nat)
    requires Inside(g, p) && |p| <= k + 1
    ensures |p| <= Chain(g, p[0], k) + 1
    decreases k
  {
    if |p| > 1 {
      var q := p[1..];
      assert Step(g, p, 0);
      forall i: nat | i + 1 < |q| ensures Step(g, q, i) {
        assert Step(g, p, i + 1);
      }
      ChainBounds(g, q, k - 1);
      AboveBounds(g, g[p[0]], k - 1, p[1]);
    }
  }

  lemma PrefixInside(g: Deps, p: seq<string>, n: nat)
    requires Inside(g, p) && 1 <= n <= |p|
    ensures Inside(g, p[..n])
  {
    forall i: nat | i + 1 < n ensures Step(g, p[..n], i) {
      assert Step(g, p, i);
    }
  }

  lemma ChainMonotone(g: Deps, t: string, k: nat, m: nat)
    requires t in g && k <= m
    ensures Chain(g, t, k) <= Chain(g, t, m)
  {
    var p := ChainAttained(g, t, k);
    ChainBounds(g, p, m);
  }

  /** A chain that did not use up its allowance is as long as any. */
  lemma ChainStable(g: Deps, t: string, k: nat, m: nat)
    requires t in g && k <= m && Chain(g, t, k) < k
    ensures Chain(g, t, m) == Chain(g, t, k)
  {
    ChainMonotone(g, t, k, m);
    var p := ChainAttained(g, t, m);
    if |p| <= k + 1 {
      ChainBounds(g, p, k);
    } else {
      PrefixInside(g, p, k + 1);
      ChainBounds(g, p[..k+1], k);
    }
  }

  // ---------------------------------------------------------------- levels

  /** The level of a task: its depth, held below the number of tasks. */
  ghost function Level(g: Deps, t: string): nat
    requires t in g
  {
    assert t in g.Keys && |g.Keys| == |g|;
    Min(Chain(g, t, |g|), |g| - 1)
  }

  /** Longer chains than the number of tasks do not change the level. */
  lemma LevelOfLonger(g: Deps, t: string, m: nat)
    requires t in g && |g| <= m
    ensures Level(g, t) == Min(Chain(g, t, m), |g| - 1)
  {
    ChainMonotone(g, t, |g|, m);
    if Chain(g, t, |g|) < |g| { ChainStable(g, t, |g|, m); }
  }

  lemma AcyclicChainIsShort(g: Deps, t: string, k: nat)
    requires Acyclic(g) && t in g
    ensures Chain(g, t, k) < |g|
  {
    var p := ChainAttained(g, t, k);
    if |p| > |g| { LongPathIsCyclic(g, p, g.Keys); }
  }

  /** On an acyclic graph the level is the number of edges of the longest path from the task. */
  lemma LevelIsLongestPath(g: Deps, t: string)
    requires Acyclic(g) && t in g
    ensures exists p :: Inside(g, p) && p[0] == t && |p| == Level(g, t) + 1
    ensures forall p :: Inside(g, p) && p[0] == t ==> |p| <= Level(g, t) + 1
    ensures Level(g, t) == Chain(g, t, |g|)
  {
    AcyclicChainIsShort(g, t, |g|);
    var w := ChainAttained(g, t, |g|);
    forall p | Inside(g, p) && p[0] == t ensures |p| <= Level(g, t) + 1 {
      if |p| > |g| { LongPathIsCyclic(g, p, g.Keys); }
      ChainBounds(g, p, |g|);
    }
  }

  /** On an acyclic graph every edge raises the level. */
  lemma EdgeRaisesLevel(g: Deps, t: string, d: string)
    requires Acyclic(g) && Edge(g, t, d) && d in g
    ensures Level(g, d) < Level(g, t)
  {
    AcyclicChainIsShort(g, t, |g|);
    AcyclicChainIsShort(g, d, |g|);
    ChainStable(g, t, |g|, |g| + 1);
    AboveBounds(g, g[t], |g|, d);
  }

  /** On any graph, loaded ones with dangling names included, the clamp takes effect exactly on the
      tasks of a cycle and on those that depend on one. These are put last. */
  lemma ClampedIff(g: Deps, t: string)
    requires t in g
    ensures Chain(g, t, |g|) > |g| - 1 <==> exists c :: Reaches(g, t, c) && Depends(g, c, c)
    ensures Chain(g, t, |g|) > |g| - 1 ==> Level(g, t) == |g| - 1
  {
    if Chain(g, t, |g|) > |g| - 1 {
      var p := ChainAttained(g, t, |g|);
      var i, j := Repeats(p, g.Keys);
      PathDepends(g, p, i, j);
      if i > 0 { PathDepends(g, p, 0, i); }
      assert Reaches(g, t, p[i]) && Depends(g, p[i], p[i]);
    }
    if c :| Reaches(g, t, c) && Depends(g, c, c) {
      var p := LongWalk(g, t, c, |g|);
      PrefixInside(g, p, |g| + 1);
      ChainBounds(g, p[..|g|+1], |g|);
    }
  }

  lemma {:induction false} LongWalk(g: Deps, t: string, c: string, n: nat) returns (p: seq<string>)
    requires t in g && Reaches(g, t, c) && Depends(g, c, c)
    ensures Inside(g, p) && p[0] == t && |p| >= n + 1
    decreases n
  {
    if n == 0 {
      p := [t];
    } else {
      if t != c { DependsTransitive(g, t, c, c); }
      var d := DependsFirst(g, t, c);
      var _ := DependsFirst(g, d, c);
      var q := LongWalk(g, d, c, n - 1);
      p := [t] + q;
      forall i: nat | i + 1 < |p| ensures Step(g, p, i) {
        if i > 0 { assert Step(g, q, i - 1); }
      }
    }
  }

  // ---------------------------------------------------------------- the relaxation

  /** `1 + max(levels of the dependencies that are tasks, default=-1)`. */
  function Raised(levels: map<string, int>, deps: seq<string>): int {
    if deps == [] then 0
    else
      var rest, last := deps[..|deps|-1], deps[|deps|-1];
      var r := Raised(levels, rest);
      if last in levels && levels[last] + 1 > r then levels[last] + 1 else r
  }

  /** Every level is at least that of the chains of `k` edges and at most that of chains of `m`. */
  ghost predicate Between(g: Deps, levels: map<string, int>, t: string, k: nat, m: nat)
    requires t in g && t in levels
  {
    Min(Chain(g, t, k), |g| - 1) <= levels[t] <= Min(Chain(g, t, m), |g| - 1)
  }

  lemma {:induction false} RaisedBetween(g: Deps, levels: map<string, int>, deps: seq<string>, k: nat, m: nat)
    requires levels.Keys == g.Keys && forall t :: t in g ==> Between(g, levels, t, k, m)
    ensures Min(Above(g, deps, k), |g| - 1) <= Min(Raised(levels, deps), |g| - 1)
    ensures 0 <= Raised(levels, deps) <= Above(g, deps, m)
  {
    if deps != [] {
      RaisedBetween(g, levels, deps[..|deps|-1], k, m);
      var last := deps[|deps|-1];
      if last in g { assert Between(g, levels, last, k, m); }
    }
  }

  /** A round that moves nothing has reached the end: the bound holds for chains of any length. */
  lemma {:induction false} FixedPointIsEnough(g: Deps, levels: map<string, int>, k: nat)
    requires levels.Keys == g.Keys && forall t :: t in g ==> levels[t] == Min(Raised(levels, g[t]), |g| - 1)
    requires forall t :: t in g ==> 0 <= levels[t]
    ensures forall t :: t in g ==> Min(Chain(g, t, k), |g| - 1) <= levels[t]
  {
    if k > 0 {
      FixedPointIsEnough(g, levels, k - 1);
      forall t | t in g ensures Min(Chain(g, t, k), |g| - 1) <= levels[t] {
        RaisedCovers(g, levels, g[t], k - 1);
      }
    }
  }

  lemma {:induction false} RaisedCovers(g: Deps, levels: map<string, int>, deps: seq<string>, k: nat)
    requires levels.Keys == g.Keys && forall t :: t in g ==> Min(Chain(g, t, k), |g| - 1) <= levels[t]
    ensures Min(Above(g, deps, k), |g| - 1) <= Min(Raised(levels, deps), |g| - 1) && 0 <= Raised(levels, deps)
  {
    if deps != [] {
      RaisedCovers(g, levels, deps[..|deps|-1], k);
    }
  }

  /** One round of `_levels`: every task in turn, in place. */
  method RelaxRound(g: Deps, order: seq<string>, levels0: map<string, int>, ghost k: nat, ghost m0: nat)
    returns (levels: map<string, int>, moved: bool, ghost m: nat)
    requires (forall t :: t in order <==> t in g) && levels0.Keys == g.Keys
    requires forall t :: t in g ==> Between(g, levels0, t, k, m0)
    ensures levels.Keys == g.Keys && m >= m0
    ensures forall t :: t in g ==> Between(g, levels, t, k + 1, m)
    ensures !moved ==> levels == levels0 && forall t :: t in g ==> levels[t] == Min(Raised(levels, g[t]), |g| - 1)
  {
    hide Chain, Above, Between, Raised, Min;
    levels, moved, m := levels0, false, m0;
    for i := 0 to |order|
      invariant levels.Keys == g.Keys && m >= m0
      invariant forall t :: t in g ==> Between(g, levels, t, k, m)
      invariant forall j :: 0 <= j < i ==> Between(g, levels, order[j], k + 1, m)
      invariant !moved ==> levels == levels0
      invariant !moved ==> forall j :: 0 <= j < i ==> levels[order[j]] == Min(Raised(levels, g[order[j]]), |g| - 1)
    {
      var t := order[i];
      var depth := Min(Raised(levels, g[t]), |g| - 1);
      RelaxOne(g, levels, t, k, m);
      assert levels[t] == depth ==> levels[t := depth] == levels;
      forall j | 0 <= j < i ensures Between(g, levels[t := depth], order[j], k + 1, m + 1) {
        assert order[j] in order && order[j] in g;
        assert Between(g, levels, order[j], k + 1, m);
      }
      if depth != levels[t] {
        levels := levels[t := depth];
        moved := true;
      }
      m := m + 1;
    }
    EveryTask(order, t => t in g && Between(g, levels, t, k + 1, m));
    EveryTask(order, t => !moved && t in g ==> t in levels && levels[t] == Min(Raised(levels, g[t]), |g| - 1));
  }

  /** One task relaxed: it is one round further, and no task is less far. */
  lemma RelaxOne(g: Deps, levels: map<string, int>, t: string, k: nat, m: nat)
    requires levels.Keys == g.Keys && t in g && forall x :: x in g ==> Between(g, levels, x, k, m)
    ensures var after := levels[t := Min(Raised(levels, g[t]), |g| - 1)];
      && after.Keys == g.Keys && Between(g, after, t, k + 1, m + 1)
      && (forall x :: x in g ==> Between(g, after, x, k, m + 1))
      && (forall x :: x in g && Between(g, levels, x, k + 1, m) ==> Between(g, after, x, k + 1, m + 1))
  {
    hide Chain, Above, Raised;
    RaisedIsBetween(g, levels, t, Min(Raised(levels, g[t]), |g| - 1), k, m);
    Loosen(g, levels, k, m);
  }

  lemma EveryTask(order: seq<string>, p: string -> bool)
    requires forall j :: 0 <= j < |order| ==> p(order[j])
    ensures forall t :: t in order ==> p(t)
  {
  }

  lemma RaisedIsBetween(g: Deps, levels: map<string, int>, t: string, depth: int, k: nat, m: nat)
    requires levels.Keys == g.Keys && forall x :: x in g ==> Between(g, levels, x, k, m)
    requires t in g && depth == Min(Raised(levels, g[t]), |g| - 1)
    ensures Min(Chain(g, t, k + 1), |g| - 1) <= depth <= Min(Chain(g, t, m + 1), |g| - 1)
    ensures Min(Chain(g, t, k), |g| - 1) <= depth
  {
    RaisedBetween(g, levels, g[t], k, m);
    ChainMonotone(g, t, k, k + 1);
  }

  lemma Loosen(g: Deps, levels: map<string, int>, k: nat, m: nat)
    requires levels.Keys == g.Keys
    ensures forall t :: t in g && Between(g, levels, t, k, m) ==> Between(g, levels, t, k, m + 1)
    ensures forall t :: t in g && Between(g, levels, t, k + 1, m) ==> Between(g, levels, t, k + 1, m + 1)
  {
    forall t | t in g ensures Chain(g, t, m) <= Chain(g, t, m + 1) {
      ChainMonotone(g, t, m, m + 1);
    }
  }

  /** `_levels`. It ends on any graph, cyclic ones included, with the level of every task. */
  method Levels(g: Deps, order: seq<string>) returns (levels: map<string, int>)
    requires (forall t :: t in order <==> t in g) && |order| == |g|
    ensures levels == map t | t in g :: Level(g, t)
    ensures forall t :: t in g ==> 0 <= levels[t] < |g|
  {
    hide Chain, Above;
    levels := map t | t in g :: 0;
    ghost var m := 0;
    StartBetween(g, levels);
    var i := 0;
    while i < |order|
      invariant 0 <= i <= |order| && levels.Keys == g.Keys
      invariant forall t :: t in g ==> Between(g, levels, t, i, m)
    {
      var moved;
      ghost var m0 := m;
      levels, moved, m := RelaxRound(g, order, levels, i, m);
      i := i + 1;
      if !moved {
        StartBounds(g, levels, i, m);
        FixedPointIsEnough(g, levels, |g|);
        break;
      }
    }
    FinalLevels(g, levels, m);
  }

  lemma StartBetween(g: Deps, levels: map<string, int>)
    requires levels == map t | t in g :: 0
    ensures forall t :: t in g ==> Between(g, levels, t, 0, 0)
  {
    forall t | t in g ensures |g| > 0 { assert t in g.Keys && |g.Keys| == |g|; }
  }

  lemma StartBounds(g: Deps, levels: map<string, int>, k: nat, m: nat)
    requires levels.Keys == g.Keys && forall t :: t in g ==> Between(g, levels, t, k, m)
    ensures forall t :: t in g ==> 0 <= levels[t] < |g|
  {
    forall t | t in g ensures |g| > 0 { assert t in g.Keys && |g.Keys| == |g|; }
  }

  lemma FinalLevels(g: Deps, levels: map<string, int>, m: nat)
    requires levels.Keys == g.Keys
    requires forall t :: t in g ==>
      Min(Chain(g, t, |g|), |g| - 1) <= levels[t] <= Min(Chain(g, t, m), |g| - 1)
    ensures levels == map t | t in g :: Level(g, t)
    ensures forall t :: t in g ==> 0 <= levels[t] < |g|
  {
    forall t | t in g ensures levels[t] == Level(g, t) {
      if |g| <= m { LevelOfLonger(g, t, m); } else { ChainMonotone(g, t, m, |g|); }
    }
  }
}
