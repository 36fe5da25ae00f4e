/** What an edit of a graph does to its dependencies. */
module GraphEdits {
  import opened Graphs

  /** A map of nodes that takes edges to edges takes dependencies to dependencies. */
  lemma ImageDepends(g: Deps, g': Deps, h: string -> string, a: string, b: string)
    requires forall x, y :: Edge(g', x, y) ==> Edge(g, h(x), h(y))
    requires Depends(g', a, b)
    ensures Depends(g, h(a), h(b))
  {
    var p :| Joins(g', p, a, b);
    var q := seq(|p|, i requires 0 <= i < |p| => h(p[i]));
    forall i: nat | i + 1 < |q| ensures Step(g, q, i) {
      assert Step(g', p, i);
    }
    assert Joins(g, q, h(a), h(b));
  }

  lemma ImageIsAcyclic(g: Deps, g': Deps, h: string -> string)
    requires Acyclic(g) && forall x, y :: Edge(g', x, y) ==> Edge(g, h(x), h(y))
    ensures Acyclic(g')
  {
    forall a ensures !Depends(g', a, a) {
      if Depends(g', a, a) { ImageDepends(g, g', h, a, a); }
    }
  }

  lemma SubgraphIsAcyclic(g: Deps, g': Deps)
    requires Acyclic(g) && forall x, y :: Edge(g', x, y) ==> Edge(g, x, y)
    ensures Acyclic(g')
  {
    ImageIsAcyclic(g, g', (x: string) => x);
  }

  /** Every edge of `g'` is one of `g`, or leads from `down` to `up`. */
  ghost predicate AddsEdge(g: Deps, g': Deps, up: string, down: string) {
    forall x, y :: Edge(g', x, y) ==> Edge(g, x, y) || (x == down && y == up)
  }

  /** Cut at the new edge, a path leads from its start to `down` and from `up` to its end. */
  lemma {:induction false} PathThroughNewEdge(g: Deps, g': Deps, up: string, down: string, p: seq<string>)
    requires AddsEdge(g, g', up, down) && IsPath(g', p) && |p| >= 2
    ensures Depends(g, p[0], p[|p|-1]) || (Reaches(g, p[0], down) && Reaches(g, up, p[|p|-1]))
    decreases |p|
  {
    assert Step(g', p, 0);
    var a, c, b := p[0], p[1], p[|p|-1];
    if Edge(g, a, c) { EdgeDepends(g, a, c); }
    if |p| > 2 {
      var q := p[1..];
      forall i: nat | i + 1 < |q| ensures Step(g', q, i) {
        assert Step(g', p, i + 1);
      }
      PathThroughNewEdge(g, g', up, down, q);
      if Edge(g, a, c) {
        if Depends(g, c, b) { DependsTransitive(g, a, c, b); }
        if Depends(g, c, down) { DependsTransitive(g, a, c, down); }
      }
    }
  }

  /** An edge from `down` to `up` closes a cycle exactly if `up` already reaches `down`. */
  lemma NewEdgeAcyclic(g: Deps, g': Deps, up: string, down: string)
    requires Acyclic(g) && AddsEdge(g, g', up, down) && Edge(g', down, up)
    requires forall x, y :: Edge(g, x, y) ==> Edge(g', x, y)
    ensures Acyclic(g') <==> !Reaches(g, up, down)
  {
    if !Reaches(g, up, down) {
      forall a ensures !Depends(g', a, a) {
        if Depends(g', a, a) {
          var p :| Joins(g', p, a, a);
          PathThroughNewEdge(g, g', up, down, p);
          if Depends(g, up, a) && Depends(g, a, down) { DependsTransitive(g, up, a, down); }
        }
      }
    } else {
      EdgeDepends(g', down, up);
      if up != down {
        ImageDepends(g', g, (x: string) => x, up, down);
        DependsTransitive(g', down, up, down);
      }
    }
  }

  /** The graphs differ in the dependencies of `id` only. */
  ghost predicate SameBut(g: Deps, g': Deps, id: string) {
    forall x, y :: x != id ==> (Edge(g, x, y) <==> Edge(g', x, y))
  }

  lemma {:induction false} PathToTarget(g: Deps, g': Deps, id: string, p: seq<string>)
    requires SameBut(g, g', id) && IsPath(g, p) && |p| >= 2 && p[0] != id && p[|p|-1] == id
    ensures Depends(g', p[0], id)
    decreases |p|
  {
    assert Step(g, p, 0);
    EdgeDepends(g', p[0], p[1]);
    if p[1] != id {
      var q := p[1..];
      forall i: nat | i + 1 < |q| ensures Step(g, q, i) {
        assert Step(g, p, i + 1);
      }
      PathToTarget(g, g', id, q);
      DependsTransitive(g', p[0], p[1], id);
    }
  }

  /** Whether another node depends on `id` has nothing to do with what `id` depends on. */
  lemma DependsOnTarget(g: Deps, g': Deps, id: string, a: string)
    requires SameBut(g, g', id) && a != id
    ensures Depends(g, a, id) <==> Depends(g', a, id)
  {
    if p :| Joins(g, p, a, id) { PathToTarget(g, g', id, p); }
    if p :| Joins(g', p, a, id) { PathToTarget(g', g, id, p); }
  }
}
