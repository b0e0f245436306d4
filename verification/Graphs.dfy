/** Paths and cycles of a directed graph given by its edge relation. */
module Graphs {

  type Graph<!T> = (T, T) -> bool

  /** A walk that follows edges; a single node is a walk. */
  ghost predicate IsPath<T(!new)>(g: Graph<T>, p: seq<T>) {
    |p| > 0 && forall i :: 0 <= i < |p| - 1 ==> g(p[i], p[i + 1])
  }

  ghost predicate Connects<T(!new)>(g: Graph<T>, p: seq<T>, u: T, v: T) {
    IsPath(g, p) && p[0] == u && p[|p| - 1] == v
  }

  ghost predicate Reaches<T(!new)>(g: Graph<T>, u: T, v: T) {
    exists p :: Connects(g, p, u, v)
  }

  /** `u` lies on a cycle: some edge out of `u` leads to a node that reaches `u` again. */
  ghost predicate OnCycle<T(!new)>(g: Graph<T>, u: T) {
    exists v :: g(u, v) && Reaches(g, v, u)
  }

  ghost predicate Acyclic<T(!new)>(g: Graph<T>) {
    forall u :: !OnCycle(g, u)
  }

  ghost predicate NoDuplicates<T>(s: seq<T>) {
    forall i, j :: 0 <= i < j < |s| ==> s[i] != s[j]
  }

  function Elements<T(==)>(s: seq<T>): set<T> {
    set x | x in s
  }

  lemma ElementsSnoc<T>(s: seq<T>, x: T)
    ensures Elements(s + [x]) == Elements(s) + {x}
  {
  }

  lemma ReachesSelf<T(!new)>(g: Graph<T>, u: T)
    ensures Reaches(g, u, u)
  {
    assert Connects(g, [u], u, u);
  }

  lemma ReachesStep<T(!new)>(g: Graph<T>, u: T, v: T, w: T)
    requires Reaches(g, u, v) && g(v, w)
    ensures Reaches(g, u, w)
  {
    var p :| Connects(g, p, u, v);
    assert Connects(g, p + [w], u, w);
  }

  /** Any two positions of a walk are connected in the walk's direction. */
  lemma PathReaches<T(!new)>(g: Graph<T>, p: seq<T>, i: nat, j: nat)
    requires IsPath(g, p) && i <= j < |p|
    ensures Reaches(g, p[i], p[j])
  {
    var q := p[i..j + 1];
    assert forall k :: 0 <= k < |q| ==> q[k] == p[i + k];
    assert Connects(g, q, p[i], p[j]);
  }

  /** A node met twice on a walk lies on a cycle. */
  lemma RepeatIsOnCycle<T(!new)>(g: Graph<T>, p: seq<T>, i: nat, j: nat)
    requires IsPath(g, p) && i < j < |p| && p[i] == p[j]
    ensures OnCycle(g, p[i])
  {
    PathReaches(g, p, i + 1, j);
  }

  /** On an acyclic graph every walk visits distinct nodes. */
  lemma AcyclicPathsAreSimple<T(!new)>(g: Graph<T>, p: seq<T>)
    requires Acyclic(g) && IsPath(g, p)
    ensures NoDuplicates(p)
  {
    forall i, j | 0 <= i < j < |p|
      ensures p[i] != p[j]
    {
      if p[i] == p[j] {
        RepeatIsOnCycle(g, p, i, j);
      }
    }
  }
}
