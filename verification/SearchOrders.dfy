// How the order of ids and edges decides which edges the search of the layout takes for back edges.
module SearchOrders {
  import opened Graphs
  import opened BackEdges

  // ---- What one call of visit adds ----

  // New back edges start at newly visited ids, and no open id is newly visited.
  lemma {:induction false} VisitFrame(outgoing: map<Id, seq<Edge>>, visiting: set<Id>, r: Run, id: Id)
    requires Listed(outgoing) && id in outgoing && id !in visiting && id !in r.visited
    ensures var s := VisitFrom(outgoing, visiting, r, id);
            && (forall e :: e in s.back && e !in r.back ==> e.0 in s.visited && e.0 !in r.visited && e.0 !in visiting)
            && forall x :: x in s.visited && x !in r.visited ==> x !in visiting
    decreases outgoing.Keys - visiting - r.visited, 0, 0
  {
    assert id in outgoing.Keys - visiting - r.visited;
    SeeAllFrame(outgoing, visiting + {id}, r, outgoing[id], id);
  }

  lemma {:induction false} SeeAllFrame(outgoing: map<Id, seq<Edge>>, visiting: set<Id>, r: Run, todo: seq<Edge>, id: Id)
    requires Listed(outgoing) && id in visiting && forall e :: e in todo ==> e.from == id && e.to in outgoing
    ensures var s := SeeAll(outgoing, visiting, r, todo);
            && (forall e :: e in s.back && e !in r.back ==>
                  e.0 == id || (e.0 in s.visited && e.0 !in r.visited && e.0 !in visiting))
            && forall x :: x in s.visited && x !in r.visited ==> x !in visiting
    decreases outgoing.Keys - visiting - r.visited, 2, |todo|
  {
    if todo != [] {
      var e := todo[0];
      if e.to !in visiting && e.to !in r.visited {
        VisitFrame(outgoing, visiting, r, e.to);
      }
      SeeAllFrame(outgoing, visiting, See(outgoing, visiting, r, e), todo[1..], id);
    }
  }

  // Among the edges of the open id itself, those to open ids.
  lemma {:induction false} SeeAllOwn(outgoing: map<Id, seq<Edge>>, visiting: set<Id>, r: Run, todo: seq<Edge>, id: Id, y: Id)
    requires Listed(outgoing) && id in visiting && forall e :: e in todo ==> e.from == id && e.to in outgoing
    ensures (id, y) in SeeAll(outgoing, visiting, r, todo).back
       <==> (id, y) in r.back || (y in visiting && Edge(id, y) in todo)
    decreases |todo|
  {
    if todo != [] {
      var e := todo[0];
      if e.to !in visiting && e.to !in r.visited {
        VisitFrame(outgoing, visiting, r, e.to);
      }
      SeeAllOwn(outgoing, visiting, See(outgoing, visiting, r, e), todo[1..], id, y);
      assert todo == [e] + todo[1..];
    }
  }

  lemma VisitOwn(outgoing: map<Id, seq<Edge>>, visiting: set<Id>, r: Run, id: Id, y: Id)
    requires Listed(outgoing) && id in outgoing && id !in visiting && id !in r.visited
    requires Edge(id, y) in outgoing[id] && (id, y) !in r.back
    ensures (id, y) in VisitFrom(outgoing, visiting, r, id).back <==> y in visiting + {id}
  {
    SeeAllOwn(outgoing, visiting + {id}, r, outgoing[id], id, y);
  }

  // Edges from newly visited ids to open ids are back edges.
  lemma {:induction false} VisitInto(outgoing: map<Id, seq<Edge>>, visiting: set<Id>, r: Run, id: Id, x: Id, y: Id)
    requires Listed(outgoing) && id in outgoing && id !in visiting && id !in r.visited
    requires x in VisitFrom(outgoing, visiting, r, id).visited && x !in r.visited
    requires x in outgoing && Edge(x, y) in outgoing[x] && y in visiting + {id}
    ensures (x, y) in VisitFrom(outgoing, visiting, r, id).back
    decreases outgoing.Keys - visiting - r.visited, 0, 0
  {
    assert id in outgoing.Keys - visiting - r.visited;
    if x == id {
      SeeAllOwn(outgoing, visiting + {id}, r, outgoing[id], id, y);
    } else {
      SeeAllInto(outgoing, visiting + {id}, r, outgoing[id], x, y);
    }
  }

  lemma {:induction false} SeeAllInto(outgoing: map<Id, seq<Edge>>, visiting: set<Id>, r: Run, todo: seq<Edge>, x: Id, y: Id)
    requires Listed(outgoing) && forall e :: e in todo ==> e.to in outgoing
    requires x in SeeAll(outgoing, visiting, r, todo).visited && x !in r.visited
    requires x in outgoing && Edge(x, y) in outgoing[x] && y in visiting
    ensures (x, y) in SeeAll(outgoing, visiting, r, todo).back
    decreases outgoing.Keys - visiting - r.visited, 2, |todo|
  {
    var e := todo[0];
    var s := See(outgoing, visiting, r, e);
    if x !in s.visited {
      SeeAllInto(outgoing, visiting, s, todo[1..], x, y);
    } else {
      VisitInto(outgoing, visiting, r, e.to, x, y);
    }
  }

  // Only ids that can be reached are visited.
  lemma {:induction false} VisitReaches(outgoing: map<Id, seq<Edge>>, E: Edges, visiting: set<Id>, r: Run, id: Id, x: Id)
    requires Represents(outgoing, E) && id in outgoing && id !in visiting && id !in r.visited
    requires x in VisitFrom(outgoing, visiting, r, id).visited && x !in r.visited
    ensures Reach(E, id, x)
    decreases outgoing.Keys - visiting - r.visited, 0, 0
  {
    assert id in outgoing.Keys - visiting - r.visited;
    if x == id {
      ReachRefl(E, id);
    } else {
      SeeAllReaches(outgoing, E, visiting + {id}, r, outgoing[id], id, x);
    }
  }

  lemma {:induction false} SeeAllReaches(outgoing: map<Id, seq<Edge>>, E: Edges, visiting: set<Id>, r: Run, todo: seq<Edge>,
                                         id: Id, x: Id)
    requires Represents(outgoing, E) && forall e :: e in todo ==> e.to in outgoing && (id, e.to) in E
    requires x in SeeAll(outgoing, visiting, r, todo).visited && x !in r.visited
    ensures Reach(E, id, x)
    decreases outgoing.Keys - visiting - r.visited, 2, |todo|
  {
    var e := todo[0];
    var s := See(outgoing, visiting, r, e);
    if x !in s.visited {
      SeeAllReaches(outgoing, E, visiting, s, todo[1..], id, x);
    } else {
      VisitReaches(outgoing, E, visiting, r, e.to, x);
      ReachEdge(E, id, e.to);
      ReachTrans(E, id, e.to, x);
    }
  }

  // The first root call visits all ids its root reaches.
  lemma FirstRootVisits(outgoing: map<Id, seq<Edge>>, E: Edges, id: Id, x: Id)
    requires Represents(outgoing, E) && id in outgoing && Reach(E, id, x)
    ensures x in VisitFrom(outgoing, {}, Run({}, {}), id).visited
  {
    var b := VisitKeeps(outgoing, E, Dfs({}, {}, {}, {}, map[]), id);
    assert Closed(E, b.visited);
    ClosedReach(E, b.visited, id, x);
  }

  // Later root calls do not look at edges of visited ids again.
  lemma {:induction false} RunAllFrame(outgoing: map<Id, seq<Edge>>, r: Run, nodeIds: seq<Id>)
    requires Listed(outgoing) && forall id :: id in nodeIds ==> id in outgoing
    ensures forall e :: e in RunAll(outgoing, r, nodeIds).back && e !in r.back ==> e.0 !in r.visited
    decreases |nodeIds|
  {
    if nodeIds != [] {
      var id := nodeIds[0];
      if id !in r.visited {
        VisitFrame(outgoing, {}, r, id);
        RunAllFrame(outgoing, VisitFrom(outgoing, {}, r, id), nodeIds[1..]);
      } else {
        RunAllFrame(outgoing, r, nodeIds[1..]);
      }
    }
  }

  // ---- A path the search follows first ----

  // The first edge of each id leads to the next.
  ghost predicate Spine(outgoing: map<Id, seq<Edge>>, p: seq<Id>) {
    && p != [] && NoDup(p) && (forall x :: x in p ==> x in outgoing)
    && forall i :: 0 <= i < |p| - 1 ==> outgoing[p[i]] != [] && outgoing[p[i]][0].to == p[i + 1]
  }

  lemma SpineTail(outgoing: map<Id, seq<Edge>>, p: seq<Id>)
    requires Spine(outgoing, p) && |p| > 1
    ensures Spine(outgoing, p[1..]) && p[0] !in p[1..]
    ensures outgoing[p[0]] == [outgoing[p[0]][0]] + outgoing[p[0]][1..] && outgoing[p[0]][0].to == p[1]
  {
    var q := p[1..];
    forall i | 0 <= i < |q| - 1 ensures outgoing[q[i]] != [] && outgoing[q[i]][0].to == q[i + 1] {
      assert q[i] == p[i + 1];
    }
  }

  // The first step down the spine.
  lemma SpineStep(outgoing: map<Id, seq<Edge>>, visiting: set<Id>, r: Run, p: seq<Id>)
    requires Listed(outgoing) && Spine(outgoing, p) && |p| > 1
    requires forall x :: x in p ==> x !in visiting && x !in r.visited
    ensures var r1 := VisitFrom(outgoing, visiting + {p[0]}, r, p[1]);
            var s := VisitFrom(outgoing, visiting, r, p[0]);
            && r1.visited <= s.visited && r1.back <= s.back
            && forall e :: e in s.back && e !in r1.back ==> e.0 == p[0] || e.0 !in r1.visited
  {
    SpineTail(outgoing, p);
    var todo := outgoing[p[0]];
    assert p[1] in p && p[1] != p[0];
    var r1 := VisitFrom(outgoing, visiting + {p[0]}, r, p[1]);
    assert See(outgoing, visiting + {p[0]}, r, todo[0]) == r1;
    SeeAllFrame(outgoing, visiting + {p[0]}, r1, todo[1..], p[0]);
  }

  lemma {:induction false} SpineVisited(outgoing: map<Id, seq<Edge>>, visiting: set<Id>, r: Run, p: seq<Id>)
    requires Listed(outgoing) && Spine(outgoing, p)
    requires forall x :: x in p ==> x !in visiting && x !in r.visited
    ensures forall x :: x in p ==> x in VisitFrom(outgoing, visiting, r, p[0]).visited
    decreases |p|
  {
    if |p| > 1 {
      SpineTail(outgoing, p);
      SpineVisited(outgoing, visiting + {p[0]}, r, p[1..]);
      SpineStep(outgoing, visiting, r, p);
      assert p == [p[0]] + p[1..];
    }
  }

  // An edge from an id of the spine is a back edge exactly when it leads to an open id or up the spine.
  lemma {:induction false} SpineExact(outgoing: map<Id, seq<Edge>>, visiting: set<Id>, r: Run, p: seq<Id>, i: nat, y: Id)
    requires Listed(outgoing) && Spine(outgoing, p)
    requires forall x :: x in p ==> x !in visiting && x !in r.visited
    requires (forall e :: e in r.back ==> e.0 !in p) && i < |p| && Edge(p[i], y) in outgoing[p[i]]
    ensures (p[i], y) in VisitFrom(outgoing, visiting, r, p[0]).back <==> y in visiting + Elements(p[..i + 1])
    decreases |p|
  {
    if i == 0 {
      VisitOwn(outgoing, visiting, r, p[0], y);
      assert Elements(p[..1]) == {p[0]};
    } else {
      SpineTail(outgoing, p);
      SpineExact(outgoing, visiting + {p[0]}, r, p[1..], i - 1, y);
      SpineVisited(outgoing, visiting + {p[0]}, r, p[1..]);
      SpineStep(outgoing, visiting, r, p);
      assert p[1..][i - 1] == p[i] && p[i] in p[1..];
      assert p[..i + 1] == [p[0]] + p[1..][..i];
    }
  }

  // ---- Orders that follow a path ----

  // An order of ids and edges the search can be given.
  ghost predicate Lists(nodeIds: seq<Id>, edges: seq<Edge>, ids: set<Id>, E: Edges) {
    NoDup(nodeIds) && Elements(nodeIds) == ids && EdgeSet(edges) == E && forall e :: e in E ==> e.0 in ids && e.1 in ids
  }

  lemma ListsEnds(nodeIds: seq<Id>, edges: seq<Edge>, ids: set<Id>, E: Edges)
    requires Lists(nodeIds, edges, ids, E)
    ensures forall e :: e in edges ==> e.from in nodeIds && e.to in nodeIds
  {
    forall e | e in edges ensures e.from in nodeIds && e.to in nodeIds {
      assert (e.from, e.to) in E;
      assert e.from in Elements(nodeIds) && e.to in Elements(nodeIds);
    }
  }

  ghost function ListOf<T(!new)>(s: set<T>): (r: seq<T>)
    ensures NoDup(r) && Elements(r) == s
  {
    if s == {} then []
    else
      var x :| x in s;
      var rest := ListOf(s - {x});
      assert forall y :: y in [x] + rest <==> y == x || y in Elements(rest);
      assert forall i :: 0 <= i < |rest| ==> rest[i] in Elements(rest);
      [x] + rest
  }

  ghost function StepList(p: seq<Id>): (r: seq<Edge>)
    requires p != []
    ensures |r| == |p| - 1 && forall i :: 0 <= i < |r| ==> r[i] == Edge(p[i], p[i + 1])
  {
    seq(|p| - 1, i requires 0 <= i < |p| - 1 => Edge(p[i], p[i + 1]))
  }

  lemma {:induction false} OutFirst(edges: seq<Edge>, k: nat)
    requires k < |edges| && forall j :: 0 <= j < k ==> edges[j].from != edges[k].from
    ensures Out(edges, edges[k].from) != [] && Out(edges, edges[k].from)[0] == edges[k]
    decreases |edges|
  {
    var n := |edges| - 1;
    if k < n {
      OutFirst(edges[..n], k);
    } else {
      NoneOut(edges[..n], edges[n].from);
    }
  }

  lemma {:induction false} NoneOut(edges: seq<Edge>, id: Id)
    requires forall e :: e in edges ==> e.from != id
    ensures Out(edges, id) == []
  {
    if edges != [] {
      NoneOut(edges[..|edges| - 1], id);
    }
  }

  // A simple path in E: its edges listed first, then all others.
  ghost predicate PathIn(E: Edges, p: seq<Id>) {
    p != [] && NoDup(p) && forall i :: 0 <= i < |p| - 1 ==> (p[i], p[i + 1]) in E
  }

  lemma OrderFor(E: Edges, ids: set<Id>, p: seq<Id>, roots: seq<Id>) returns (nodeIds: seq<Id>, edges: seq<Edge>)
    requires (forall e :: e in E ==> e.0 in ids && e.1 in ids) && PathIn(E, p) && Elements(p) <= ids
    requires NoDup(roots) && Elements(roots) <= ids
    ensures Lists(nodeIds, edges, ids, E) && NoDup(edges) && roots <= nodeIds
    ensures Spine(OutgoingOf(nodeIds, edges), p)
  {
    var others := ListOf(ids - Elements(roots));
    nodeIds := roots + others;
    forall i, j | 0 <= i < j < |nodeIds| ensures nodeIds[i] != nodeIds[j] {
      assert j >= |roots| ==> nodeIds[j] == others[j - |roots|] && nodeIds[j] in Elements(others);
      assert i < |roots| ==> nodeIds[i] == roots[i] && nodeIds[i] in Elements(roots);
    }
    assert Elements(nodeIds) == Elements(roots) + Elements(others);
    edges := EdgesAlong(E, p);
    forall i | 0 <= i < |p| - 1 ensures Out(edges, p[i]) != [] && Out(edges, p[i])[0].to == p[i + 1] {
      OutFirst(edges, i);
    }
    forall x | x in p ensures x in nodeIds {
      assert x in Elements(nodeIds);
    }
    assert forall i :: 0 <= i < |p| - 1 ==> p[i] in p;
  }

  lemma EdgesAlong(E: Edges, p: seq<Id>) returns (edges: seq<Edge>)
    requires PathIn(E, p)
    ensures EdgeSet(edges) == E && NoDup(edges) && StepList(p) <= edges
  {
    var steps := StepList(p);
    var others := ListOf(set e | e in E && Edge(e.0, e.1) !in steps :: Edge(e.0, e.1));
    edges := steps + others;
    forall i, j | 0 <= i < j < |edges| ensures edges[i] != edges[j] {
      assert j >= |steps| ==> edges[j] in Elements(others);
      assert i < |steps| ==> edges[i] in steps;
    }
    forall e ensures e in edges <==> (e.from, e.to) in E {
      assert e in edges <==> e in steps || e in Elements(others);
      if e in steps {
        var i :| 0 <= i < |steps| && steps[i] == e;
      }
    }
    forall e | e in E ensures e in EdgeSet(edges) {
      assert Edge(e.0, e.1) in edges;
    }
  }

  // ---- Telling two edges apart ----

  // A search from p[0] along p: which edges from ids of p, and which edges to p[0], are back edges.
  lemma AlongPath(E: Edges, ids: set<Id>, p: seq<Id>) returns (nodeIds: seq<Id>, edges: seq<Edge>)
    requires (forall e :: e in E ==> e.0 in ids && e.1 in ids) && PathIn(E, p) && Elements(p) <= ids
    ensures Lists(nodeIds, edges, ids, E) && NoDup(edges) && forall e :: e in edges ==> e.from in nodeIds && e.to in nodeIds
    ensures forall i, y :: 0 <= i < |p| && (p[i], y) in E ==>
      ((p[i], y) in BackEdgesOf(nodeIds, edges) <==> y in p[..i + 1])
    ensures forall x :: (x, p[0]) in E && Reach(E, p[0], x) ==> (x, p[0]) in BackEdgesOf(nodeIds, edges)
  {
    assert p[0] in Elements(p);
    nodeIds, edges := OrderFor(E, ids, p, [p[0]]);
    ListsEnds(nodeIds, edges, ids, E);
    OutgoingRepresents(nodeIds, edges);
    var outgoing := OutgoingOf(nodeIds, edges);
    var s := VisitFrom(outgoing, {}, Run({}, {}), p[0]);
    assert nodeIds[0] == p[0];
    RunAllFrame(outgoing, s, nodeIds[1..]);
    SpineVisited(outgoing, {}, Run({}, {}), p);
    forall i, y | 0 <= i < |p| && (p[i], y) in E ensures (p[i], y) in BackEdgesOf(nodeIds, edges) <==> y in p[..i + 1] {
      SpineExact(outgoing, {}, Run({}, {}), p, i, y);
      assert p[i] in p;
      assert y in Elements(p[..i + 1]) <==> y in p[..i + 1];
    }
    forall x | (x, p[0]) in E && Reach(E, p[0], x) ensures (x, p[0]) in BackEdgesOf(nodeIds, edges) {
      FirstRootVisits(outgoing, E, p[0], x);
      VisitInto(outgoing, {}, Run({}, {}), p[0], x, p[0]);
    }
  }

  // A search from v and then from an id x that v does not reach: edges to v from where it leads are back
  // edges, edges out of x are not.
  lemma FromTwoRoots(E: Edges, ids: set<Id>, v: Id, x: Id) returns (nodeIds: seq<Id>, edges: seq<Edge>)
    requires (forall e :: e in E ==> e.0 in ids && e.1 in ids) && v in ids && x in ids && !Reach(E, v, x)
    ensures Lists(nodeIds, edges, ids, E) && NoDup(edges) && forall e :: e in edges ==> e.from in nodeIds && e.to in nodeIds
    ensures forall u :: (u, v) in E && Reach(E, v, u) ==> (u, v) in BackEdgesOf(nodeIds, edges)
    ensures forall y :: (x, y) in E && x != y ==> (x, y) !in BackEdgesOf(nodeIds, edges)
  {
    ReachRefl(E, v);
    nodeIds, edges := OrderFor(E, ids, [v], [v, x]);
    ListsEnds(nodeIds, edges, ids, E);
    OutgoingRepresents(nodeIds, edges);
    var outgoing := OutgoingOf(nodeIds, edges);
    var r := VisitFrom(outgoing, {}, Run({}, {}), v);
    assert nodeIds[0] == v && nodeIds[1] == x && nodeIds[1..][1..] == nodeIds[2..];
    if x in r.visited {
      VisitReaches(outgoing, E, {}, Run({}, {}), v, x);
    }
    VisitFrame(outgoing, {}, Run({}, {}), v);
    var s := VisitFrom(outgoing, {}, r, x);
    assert RunAll(outgoing, Run({}, {}), nodeIds) == RunAll(outgoing, s, nodeIds[2..]);
    RunAllFrame(outgoing, s, nodeIds[2..]);
    forall u | (u, v) in E && Reach(E, v, u) ensures (u, v) in BackEdgesOf(nodeIds, edges) {
      FirstRootVisits(outgoing, E, v, u);
      VisitInto(outgoing, {}, Run({}, {}), v, u, v);
    }
    forall y | (x, y) in E && x != y ensures (x, y) !in BackEdgesOf(nodeIds, edges) {
      VisitOwn(outgoing, {}, r, x, y);
    }
  }

  // ---- Simple paths ----

  lemma {:induction false} SimplePath(E: Edges, w: seq<Id>, x: Id, y: Id) returns (p: seq<Id>)
    requires IsWalk(E, w, x, y)
    ensures PathIn(E, p) && p[0] == x && p[|p| - 1] == y
    decreases |w|
  {
    if |w| == 1 {
      p := w;
    } else {
      var rest := SimplePath(E, w[1..], w[1], y);
      if x in rest {
        var k :| 0 <= k < |rest| && rest[k] == x;
        p := rest[k..];
      } else {
        p := [x] + rest;
      }
    }
  }

  lemma {:induction false} PathEnds(E: Edges, ids: set<Id>, p: seq<Id>)
    requires (forall e :: e in E ==> e.0 in ids && e.1 in ids) && PathIn(E, p) && p[0] in ids
    ensures Elements(p) <= ids
    decreases |p|
  {
    if |p| > 1 {
      assert (p[0], p[1]) in E;
      forall i | 0 <= i < |p[1..]| - 1 ensures (p[1..][i], p[1..][i + 1]) in E {
        assert (p[i + 1], p[i + 2]) in E;
      }
      PathEnds(E, ids, p[1..]);
      assert p == [p[0]] + p[1..];
    }
  }

  lemma {:induction false} PathReach(E: Edges, p: seq<Id>, i: nat, j: nat)
    requires PathIn(E, p) && i <= j < |p|
    ensures Reach(E, p[i], p[j])
    decreases j - i
  {
    if i == j {
      ReachRefl(E, p[i]);
    } else {
      PathReach(E, p, i, j - 1);
      ReachStep(E, p[i], p[j - 1], p[j]);
    }
  }

  // The order lists the graph and its search takes exactly one of e and f for a back edge.
  ghost predicate Tells(nodeIds: seq<Id>, edges: seq<Edge>, ids: set<Id>, E: Edges, e: (Id, Id), f: (Id, Id)) {
    && Lists(nodeIds, edges, ids, E) && NoDup(edges) && (forall e :: e in edges ==> e.from in nodeIds && e.to in nodeIds)
    && (e in BackEdgesOf(nodeIds, edges) <==> f !in BackEdgesOf(nodeIds, edges))
  }

  ghost function IndexIn<T>(s: seq<T>, x: T): (i: nat)
    requires x in s
    ensures i < |s| && s[i] == x
  {
    var i :| 0 <= i < |s| && s[i] == x;
    i
  }

  lemma SuffixOf(E: Edges, p: seq<Id>, j: nat)
    requires PathIn(E, p) && j < |p|
    ensures PathIn(E, p[j..]) && p[j..][|p| - 1 - j] == p[|p| - 1] && p[j..][..|p| - j] == p[j..]
    ensures Elements(p[j..]) <= Elements(p) && (p[0] in p[j..] <==> j == 0)
  {
    var q := p[j..];
    forall i | 0 <= i < |q| - 1 ensures (q[i], q[i + 1]) in E {
      assert q[i] == p[j + i] && q[i + 1] == p[j + i + 1];
    }
    if p[0] in q {
      var m := IndexIn(q, p[0]);
      assert p[j + m] == p[0];
    } else {
      assert p[j] == q[0];
    }
  }

  lemma PrefixOf(E: Edges, x: Id, p: seq<Id>, n: nat)
    requires PathIn(E, p) && n < |p| && (x, p[0]) in E && x !in p[..n + 1]
    ensures PathIn(E, [x] + p[..n + 1])
  {
    var q := [x] + p[..n + 1];
    forall i | 0 <= i < |q| - 1 ensures (q[i], q[i + 1]) in E {
      assert i > 0 ==> q[i] == p[i - 1] && q[i + 1] == p[i];
    }
  }

  // Two edges out of one id, the first on a cycle.
  lemma SameSource(E: Edges, ids: set<Id>, u: Id, v: Id, y: Id) returns (nodeIds: seq<Id>, edges: seq<Edge>)
    requires (forall e :: e in E ==> e.0 in ids && e.1 in ids) && (u, v) in E && (u, y) in E && v != y && u != v
    requires Reach(E, v, u)
    ensures Tells(nodeIds, edges, ids, E, (u, v), (u, y))
  {
    var w :| IsWalk(E, w, v, u);
    var p := SimplePath(E, w, v, u);
    var j := if y in p then IndexIn(p, y) else 0;
    PathEnds(E, ids, p);
    SuffixOf(E, p, j);
    nodeIds, edges := AlongPath(E, ids, p[j..]);
    assert (p[j..][|p| - 1 - j], v) in E && (p[j..][|p| - 1 - j], y) in E;
    assert y in p[j..] <==> y in p;
  }

  // Two edges out of different ids, both reached from the target of the first.
  lemma OtherSource(E: Edges, ids: set<Id>, u: Id, v: Id, x: Id, y: Id) returns (nodeIds: seq<Id>, edges: seq<Edge>)
    requires (forall e :: e in E ==> e.0 in ids && e.1 in ids) && (u, v) in E && (x, y) in E && u != v && x != y && x != u
    requires Reach(E, v, u) && Reach(E, v, x)
    ensures Tells(nodeIds, edges, ids, E, (u, v), (x, y))
  {
    hide Lists;
    var w :| IsWalk(E, w, v, x);
    var p := SimplePath(E, w, v, x);
    PathEnds(E, ids, p);
    if y !in p {
      nodeIds, edges := AlongPath(E, ids, p);
      assert (p[|p| - 1], y) in E && p[..|p|] == p;
    } else if u !in p {
      assert p[..|p|] == p;
      PrefixOf(E, u, p, |p| - 1);
      nodeIds, edges := FromSource(E, ids, u, v, x, y, [u] + p);
    } else {
      var i, j := IndexIn(p, u), IndexIn(p, y);
      if i <= j {
        SuffixOf(E, p, i);
        assert y == p[i..][j - i];
        nodeIds, edges := FromSource(E, ids, u, v, x, y, p[i..]);
      } else if j > 0 {
        SuffixOf(E, p, j);
        nodeIds, edges := AlongPath(E, ids, p[j..]);
        assert (p[j..][i - j], v) in E && (p[j..][|p| - 1 - j], y) in E && y == p[j..][0];
      } else {
        assert i < |p| - 1 && y == v && p[..i + 1][i] == u && x !in p[..i + 1];
        PrefixOf(E, x, p, i);
        var q := [x] + p[..i + 1];
        assert q[1] == v && q[|q| - 1] == u;
        nodeIds, edges := FromSource(E, ids, x, y, u, v, q);
      }
    }
  }

  // A path from the source of one edge to that of another, through the target of the other: the search
  // along it takes only the other for a back edge.
  lemma FromSource(E: Edges, ids: set<Id>, u: Id, v: Id, x: Id, y: Id, q: seq<Id>) returns (nodeIds: seq<Id>, edges: seq<Edge>)
    requires (forall e :: e in E ==> e.0 in ids && e.1 in ids) && (u, v) in E && (x, y) in E && u != v
    requires PathIn(E, q) && q[0] == u && q[|q| - 1] == x && y in q
    ensures Tells(nodeIds, edges, ids, E, (u, v), (x, y))
    ensures (x, y) in BackEdgesOf(nodeIds, edges)
  {
    PathEnds(E, ids, q);
    nodeIds, edges := AlongPath(E, ids, q);
    assert (q[0], v) in E && (q[|q| - 1], y) in E && q[..|q|] == q && q[..1] == [u];
  }

  // Of two edges, the first on a cycle, some order makes the search take exactly one for a back edge.
  lemma Separates(E: Edges, ids: set<Id>, e: (Id, Id), f: (Id, Id)) returns (nodeIds: seq<Id>, edges: seq<Edge>)
    requires forall e :: e in E ==> e.0 in ids && e.1 in ids && e.0 != e.1
    requires e in E && f in E && e != f && Reach(E, e.1, e.0)
    ensures Tells(nodeIds, edges, ids, E, e, f)
  {
    if e.0 == f.0 {
      nodeIds, edges := SameSource(E, ids, e.0, e.1, f.1);
    } else if Reach(E, e.1, f.0) {
      nodeIds, edges := OtherSource(E, ids, e.0, e.1, f.0, f.1);
    } else {
      nodeIds, edges := FromTwoRoots(E, ids, e.1, f.0);
      assert (e.0, e.1) in E && (f.0, f.1) in E;
    }
  }
}
