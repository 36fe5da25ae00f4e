/** Dependency graphs: what it means to depend on a node, directly or through others.

    A graph maps every node to the list of nodes it depends on. The list may name
    a node twice, and may name one the graph does not hold.
 */
module Graphs {

  type Deps = map<string, seq<string>>

  predicate Edge(g: Deps, a: string, b: string) {
    a in g && b in g[a]
  }

  /** Element `i` of `p` depends directly on the next one. */
  ghost predicate Step(g: Deps, p: seq<string>, i: nat)
    requires i + 1 < |p|
  {
    Edge(g, p[i], p[i+1])
  }

  ghost predicate IsPath(g: Deps, p: seq<string>) {
    |p| >= 1 && forall i: nat :: i + 1 < |p| ==> Step(g, p, i)
  }

  ghost predicate Joins(g: Deps, p: seq<string>, a: string, b: string) {
    IsPath(g, p) && |p| >= 2 && p[0] == a && p[|p|-1] == b
  }

  /** `a` depends on `b` over at least one edge. */
  ghost predicate Depends(g: Deps, a: string, b: string) {
    exists p :: Joins(g, p, a, b)
  }

  ghost predicate Reaches(g: Deps, a: string, b: string) {
    a == b || Depends(g, a, b)
  }

  ghost predicate Acyclic(g: Deps) {
    forall a :: !Depends(g, a, a)
  }

  /** Every dependency is a node of the graph. */
  ghost predicate Closed(g: Deps) {
    forall a, b :: Edge(g, a, b) ==> b in g
  }

  lemma EdgeDepends(g: Deps, a: string, b: string)
    requires Edge(g, a, b)
    ensures Depends(g, a, b)
  {
    var p := [a, b];
    assert Step(g, p, 0);
    assert Joins(g, p, a, b);
  }

  lemma DependsTransitive(g: Deps, a: string, b: string, c: string)
    requires Depends(g, a, b) && Depends(g, b, c)
    ensures Depends(g, a, c)
  {
    var p :| Joins(g, p, a, b);
    var q :| Joins(g, q, b, c);
    var r := p + q[1..];
    forall i: nat | i + 1 < |r| ensures Step(g, r, i) {
      if i + 1 < |p| {
        assert Step(g, p, i);
      } else {
        assert Step(g, q, i + 1 - |p|);
      }
    }
    assert Joins(g, r, a, c);
  }

  lemma PathDepends(g: Deps, p: seq<string>, i: nat, j: nat)
    requires IsPath(g, p) && i < j < |p|
    ensures Depends(g, p[i], p[j])
  {
    var q := p[i..j+1];
    forall k: nat | k + 1 < |q| ensures Step(g, q, k) {
      assert Step(g, p, i + k);
    }
    assert Joins(g, q, p[i], p[j]);
  }

  /** A dependency starts with an edge. */
  lemma DependsFirst(g: Deps, a: string, c: string) returns (b: string)
    requires Depends(g, a, c)
    ensures Edge(g, a, b) && Reaches(g, b, c)
  {
    var p :| Joins(g, p, a, c);
    b := p[1];
    assert Step(g, p, 0);
    if |p| > 2 { PathDepends(g, p, 1, |p| - 1); }
  }

  /** A set of nodes that no edge leaves contains all that its nodes depend on. */
  lemma ClosedSetKeepsDependencies(g: Deps, s: set<string>, a: string, b: string)
    requires forall x, y :: x in s && Edge(g, x, y) ==> y in s
    requires a in s && Depends(g, a, b)
    ensures b in s
  {
    var p :| Joins(g, p, a, b);
    var i := 0;
    while i + 1 < |p|
      invariant 0 <= i < |p| && p[i] in s
    {
      assert Step(g, p, i);
      i := i + 1;
    }
  }

  /** A numbering in which every edge goes down rules out cycles. */
  lemma RankedIsAcyclic(g: Deps, rank: map<string, int>)
    requires g.Keys <= rank.Keys
    requires forall a, b :: Edge(g, a, b) ==> b in rank && rank[b] < rank[a]
    ensures Acyclic(g)
  {
    forall a ensures !Depends(g, a, a) {
      if Depends(g, a, a) {
        var p :| Joins(g, p, a, a);
        var i := 1;
        assert Step(g, p, 0);
        while i + 1 < |p|
          invariant 1 <= i < |p| && p[i] in rank && rank[p[i]] < rank[a]
        {
          assert Step(g, p, i);
          i := i + 1;
        }
        assert false;
      }
    }
  }

  /** Pigeonhole: a sequence longer than the set it draws from repeats an element. */
  lemma Repeats(p: seq<string>, s: set<string>) returns (i: nat, j: nat)
    requires |p| > |s| && forall k :: 0 <= k < |p| ==> p[k] in s
    ensures i < j < |p| && p[i] == p[j]
  {
    var last := p[|p|-1];
    var rest := p[..|p|-1];
    if last in rest {
      i :| 0 <= i < |rest| && rest[i] == last;
      j := |p| - 1;
    } else {
      forall k | 0 <= k < |rest| ensures rest[k] in s - {last} {
        assert rest[k] == p[k];
      }
      i, j := Repeats(rest, s - {last});
    }
  }

  lemma LongPathIsCyclic(g: Deps, p: seq<string>, s: set<string>)
    requires IsPath(g, p) && |p| > |s| && forall k :: 0 <= k < |p| ==> p[k] in s
    ensures !Acyclic(g)
  {
    var i, j := Repeats(p, s);
    PathDepends(g, p, i, j);
  }

  ghost predicate HasEdgeInto(g: Deps, a: string, s: set<string>) {
    exists b :: b in s && Edge(g, a, b)
  }

  /** Every node of `s` waits for a node of `s`. */
  ghost predicate Stuck(g: Deps, s: set<string>) {
    s != {} && forall a {:trigger HasEdgeInto(g, a, s)} :: a in s ==> HasEdgeInto(g, a, s)
  }

  /** A walk of any length inside a set in which every node has a dependency. */
  lemma WalkInside(g: Deps, s: set<string>, n: nat) returns (p: seq<string>)
    requires Stuck(g, s)
    ensures IsPath(g, p) && |p| == n + 1 && forall k :: 0 <= k < |p| ==> p[k] in s
  {
    if n == 0 {
      var a :| a in s;
      p := [a];
    } else {
      var q := WalkInside(g, s, n - 1);
      assert HasEdgeInto(g, q[|q|-1], s);
      var b :| b in s && Edge(g, q[|q|-1], b);
      p := q + [b];
      forall i: nat | i + 1 < |p| ensures Step(g, p, i) {
        if i + 1 < |q| { assert Step(g, q, i); }
      }
    }
  }

  /** Nodes that all wait for each other contain a cycle. */
  lemma StuckNodesAreCyclic(g: Deps, s: set<string>)
    requires Stuck(g, s)
    ensures !Acyclic(g)
  {
    var p := WalkInside(g, s, |s|);
    LongPathIsCyclic(g, p, s);
  }
}
