/** Walks along a relation between integers, through points that satisfy a condition. */
module Paths {

  datatype Graph = Graph(point: int -> bool, step: (int, int) -> bool)

  ghost predicate IsPath(g: Graph, p: seq<int>) {
    && p != []
    && (forall k :: 0 <= k < |p| ==> g.point(p[k]))
    && (forall k {:trigger p[k]} :: 0 < k < |p| ==> g.step(p[k - 1], p[k]))
  }

  ghost predicate Reaches(g: Graph, i: int, j: int) {
    exists p :: IsPath(g, p) && p[0] == i && p[|p| - 1] == j
  }

  lemma ReachesSelf(g: Graph, i: int)
    requires g.point(i)
    ensures Reaches(g, i, i)
  {
    assert IsPath(g, [i]);
  }

  lemma ReachesStep(g: Graph, i: int, j: int, k: int)
    requires Reaches(g, i, j) && g.point(k) && g.step(j, k)
    ensures Reaches(g, i, k)
  {
    var p :| IsPath(g, p) && p[0] == i && p[|p| - 1] == j;
    var q := p + [k];
    assert IsPath(g, q) && q[0] == i && q[|q| - 1] == k;
  }

  lemma ReachesTransitive(g: Graph, i: int, j: int, k: int)
    requires Reaches(g, i, j) && Reaches(g, j, k)
    ensures Reaches(g, i, k)
  {
    var p :| IsPath(g, p) && p[0] == i && p[|p| - 1] == j;
    var q :| IsPath(g, q) && q[0] == j && q[|q| - 1] == k;
    var r := p + q[1..];
    forall n | 0 < n < |r| ensures g.step(r[n - 1], r[n]) {
      if n < |p| {
        assert r[n - 1] == p[n - 1] && r[n] == p[n];
      } else {
        assert r[n] == q[n - |p| + 1] && r[n - 1] == q[n - |p|];
      }
    }
    assert IsPath(g, r) && r[0] == i && r[|r| - 1] == k;
  }

  /** Back along the path, from its `k`-th point to the first. */
  lemma {:induction false} BackAlong(g: Graph, p: seq<int>, k: nat)
    requires IsPath(g, p) && k < |p| && forall a, b :: g.step(a, b) ==> g.step(b, a)
    ensures Reaches(g, p[k], p[0])
  {
    ReachesSelf(g, p[k]);
    if k > 0 {
      assert g.step(p[k - 1], p[k]);
      ReachesStep(g, p[k], p[k], p[k - 1]);
      BackAlong(g, p, k - 1);
      ReachesTransitive(g, p[k], p[k - 1], p[0]);
    }
  }

  lemma ReachesSymmetric(g: Graph, i: int, j: int)
    requires Reaches(g, i, j) && forall a, b :: g.step(a, b) ==> g.step(b, a)
    ensures Reaches(g, j, i)
  {
    var p :| IsPath(g, p) && p[0] == i && p[|p| - 1] == j;
    BackAlong(g, p, |p| - 1);
  }

  /** No step leads from a point of the set to a point outside it. */
  ghost predicate Closed(g: Graph, s: set<int>) {
    forall i, j {:trigger g.step(i, j)} :: i in s && g.point(i) && g.point(j) && g.step(i, j) ==> j in s
  }

  lemma ClosedKeepsReachable(g: Graph, s: set<int>, i: int, j: int)
    requires Closed(g, s) && i in s && Reaches(g, i, j)
    ensures j in s
  {
    var p :| IsPath(g, p) && p[0] == i && p[|p| - 1] == j;
    StaysInside(g, s, p, |p| - 1);
  }

  lemma {:induction false} StaysInside(g: Graph, s: set<int>, p: seq<int>, k: nat)
    requires Closed(g, s) && IsPath(g, p) && p[0] in s && k < |p|
    ensures p[k] in s
  {
    if k > 0 {
      StaysInside(g, s, p, k - 1);
      var here, there := p[k - 1], p[k];
      assert g.step(here, there) && g.point(here) && g.point(there);
    }
  }

  lemma ReachedIsPoint(g: Graph, i: int, j: int)
    requires Reaches(g, i, j)
    ensures g.point(i) && g.point(j)
  {
  }
}
