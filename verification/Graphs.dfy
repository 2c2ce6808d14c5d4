// Directed graphs over string ids: walks, reachability and cycles.
// Both cycle detectors (CycleRule and DagLayout) are specified with these notions.
module Graphs {
  type Id = string
  type Edges = set<(Id, Id)>

  datatype Edge = Edge(from: Id, to: Id)

  function EdgeSet(edges: seq<Edge>): Edges {
    set e | e in edges :: (e.from, e.to)
  }

  function Elements<T>(s: seq<T>): set<T> {
    set x | x in s
  }

  lemma ElementsStep<T>(s: seq<T>, i: nat)
    requires i < |s|
    ensures Elements(s[..i + 1]) == Elements(s[..i]) + {s[i]}
  {
    assert s[..i + 1] == s[..i] + [s[i]];
  }

  ghost predicate NoDup<T>(s: seq<T>) {
    forall i, j :: 0 <= i < j < |s| ==> s[i] != s[j]
  }

  ghost predicate IsWalk(E: Edges, p: seq<Id>, x: Id, y: Id) {
    && |p| > 0 && p[0] == x
    && if |p| == 1 then x == y else (x, p[1]) in E && IsWalk(E, p[1..], p[1], y)
  }

  ghost predicate Reach(E: Edges, x: Id, y: Id) {
    exists p :: IsWalk(E, p, x, y)
  }

  ghost predicate Mutual(E: Edges, x: Id, y: Id) {
    Reach(E, x, y) && Reach(E, y, x)
  }

  // x lies on a closed walk of at least one edge; a self-edge is enough.
  ghost predicate OnCycle(E: Edges, x: Id) {
    exists z :: (x, z) in E && Reach(E, z, x)
  }

  ghost predicate Acyclic(E: Edges) {
    forall x :: !OnCycle(E, x)
  }

  ghost predicate Closed(E: Edges, S: set<Id>) {
    forall e :: e in E && e.0 in S ==> e.1 in S
  }

  lemma ReachRefl(E: Edges, x: Id)
    ensures Reach(E, x, x)
  {
    assert IsWalk(E, [x], x, x);
  }

  lemma ReachEdge(E: Edges, x: Id, y: Id)
    requires (x, y) in E
    ensures Reach(E, x, y)
  {
    assert IsWalk(E, [x, y], x, y);
  }

  lemma {:induction false} WalkTrans(E: Edges, p: seq<Id>, x: Id, y: Id, z: Id)
    requires IsWalk(E, p, x, y) && Reach(E, y, z)
    ensures Reach(E, x, z)
    decreases |p|
  {
    if |p| > 1 {
      WalkTrans(E, p[1..], p[1], y, z);
      var q :| IsWalk(E, q, p[1], z);
      assert ([x] + q)[1..] == q;
      assert IsWalk(E, [x] + q, x, z);
    }
  }

  lemma ReachTrans(E: Edges, x: Id, y: Id, z: Id)
    requires Reach(E, x, y) && Reach(E, y, z)
    ensures Reach(E, x, z)
  {
    var p :| IsWalk(E, p, x, y);
    WalkTrans(E, p, x, y, z);
  }

  lemma ReachStep(E: Edges, x: Id, y: Id, z: Id)
    requires Reach(E, x, y) && (y, z) in E
    ensures Reach(E, x, z)
  {
    ReachEdge(E, y, z);
    ReachTrans(E, x, y, z);
  }

  lemma ReachFirst(E: Edges, x: Id, y: Id) returns (z: Id)
    requires Reach(E, x, y) && x != y
    ensures (x, z) in E && Reach(E, z, y)
  {
    var p :| IsWalk(E, p, x, y);
    z := p[1];
    assert IsWalk(E, p[1..], z, y);
  }

  lemma {:induction false} WalkMono(E: Edges, F: Edges, p: seq<Id>, x: Id, y: Id)
    requires E <= F && IsWalk(E, p, x, y)
    ensures IsWalk(F, p, x, y)
    decreases |p|
  {
    if |p| > 1 {
      WalkMono(E, F, p[1..], p[1], y);
    }
  }

  lemma ReachMono(E: Edges, F: Edges, x: Id, y: Id)
    requires E <= F && Reach(E, x, y)
    ensures Reach(F, x, y)
  {
    var p :| IsWalk(E, p, x, y);
    WalkMono(E, F, p, x, y);
  }

  lemma {:induction false} ClosedWalk(E: Edges, S: set<Id>, p: seq<Id>, x: Id, y: Id)
    requires Closed(E, S) && x in S && IsWalk(E, p, x, y)
    ensures y in S
    decreases |p|
  {
    if |p| > 1 {
      ClosedWalk(E, S, p[1..], p[1], y);
    }
  }

  // A set closed under edges cannot be left by walking.
  lemma ClosedReach(E: Edges, S: set<Id>, x: Id, y: Id)
    requires Closed(E, S) && x in S && Reach(E, x, y)
    ensures y in S
  {
    var p :| IsWalk(E, p, x, y);
    ClosedWalk(E, S, p, x, y);
  }

  // A numbering that every edge decreases excludes cycles.
  lemma {:induction false} DecreasingWalk(E: Edges, f: map<Id, int>, p: seq<Id>, x: Id, y: Id)
    requires forall e :: e in E ==> e.0 in f && e.1 in f && f[e.1] < f[e.0]
    requires IsWalk(E, p, x, y) && x in f
    ensures y in f && f[y] <= f[x]
    decreases |p|
  {
    if |p| > 1 {
      DecreasingWalk(E, f, p[1..], p[1], y);
    }
  }

  lemma DecreasingIsAcyclic(E: Edges, f: map<Id, int>)
    requires forall e :: e in E ==> e.0 in f && e.1 in f && f[e.1] < f[e.0]
    ensures Acyclic(E)
  {
    forall x ensures !OnCycle(E, x) {
      if OnCycle(E, x) {
        var z :| (x, z) in E && Reach(E, z, x);
        var p :| IsWalk(E, p, z, x);
        DecreasingWalk(E, f, p, z, x);
        assert false;
      }
    }
  }

  ghost function Ancestors(E: Edges, U: set<Id>, u: Id): set<Id> {
    set w | w in U && w != u && Reach(E, w, u)
  }

  // In an acyclic graph every non-empty finite set has a member without a predecessor in it.
  lemma {:induction false} AcyclicHasSource(E: Edges, U: set<Id>, u: Id) returns (s: Id)
    requires Acyclic(E) && u in U
    ensures s in U && forall p :: p in U ==> (p, s) !in E
    decreases |Ancestors(E, U, u)|
  {
    if p :| p in U && (p, u) in E {
      ReachEdge(E, p, u);
      ReachRefl(E, u);
      assert !OnCycle(E, p) && !OnCycle(E, u);
      assert p != u;
      forall w | w in Ancestors(E, U, p) ensures w in Ancestors(E, U, u) {
        ReachTrans(E, w, p, u);
        assert !(w == u && (p, u) in E && Reach(E, u, p));
      }
      assert Ancestors(E, U, p) + {p} <= Ancestors(E, U, u);
      assert p !in Ancestors(E, U, p);
      SubsetSize(Ancestors(E, U, p) + {p}, Ancestors(E, U, u));
      s := AcyclicHasSource(E, U, p);
    } else {
      s := u;
    }
  }

  lemma {:induction false} SubsetSize<T>(A: set<T>, B: set<T>)
    requires A <= B
    ensures |A| <= |B|
    decreases A
  {
    if A != {} {
      var x :| x in A;
      SubsetSize(A - {x}, B - {x});
    }
  }
}
