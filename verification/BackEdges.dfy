// detectBackEdges of the DAG layout: a depth-first search that collects the edges closing a cycle.
module BackEdges {
  import opened Graphs

  const NUL: char := '\0'

  // Edges are remembered by a string key.
  function EdgeKey(e: (Id, Id)): string {
    e.0 + [NUL] + e.1
  }

  function KeysOf(B: Edges): set<string> {
    set e | e in B :: EdgeKey(e)
  }

  // The edges whose key is not among the keys.
  function Remaining(E: Edges, keys: set<string>): Edges {
    set e | e in E && EdgeKey(e) !in keys
  }

  // B is a smallest set, by inclusion, whose removal leaves no cycle.
  ghost predicate MinimalFeedback(E: Edges, B: Edges) {
    && B <= E && Acyclic(E - B)
    && forall e :: e in B ==> !Acyclic((E - B) + {e})
  }

  // Each edge of B is closed into a cycle by edges outside B.
  ghost predicate Closing(E: Edges, B: Edges) {
    forall e :: e in B ==> Reach(E - B, e.1, e.0)
  }

  lemma ClosingIsMinimal(E: Edges, B: Edges)
    requires B <= E && Acyclic(E - B) && Closing(E, B)
    ensures MinimalFeedback(E, B)
  {
    forall e | e in B ensures !Acyclic((E - B) + {e}) {
      var F := (E - B) + {e};
      ReachMono(E - B, F, e.1, e.0);
      assert (e.0, e.1) in F;
      assert OnCycle(F, e.0);
    }
  }

  // Minimality settles when there are no back edges at all.
  lemma NoBackEdgesIffAcyclic(E: Edges, B: Edges)
    requires MinimalFeedback(E, B)
    ensures B == {} <==> Acyclic(E)
  {
    if B == {} {
      assert E - B == E;
    } else {
      var e :| e in B;
      if Acyclic(E) {
        SubgraphAcyclic((E - B) + {e}, E);
      }
    }
  }

  lemma RemainingWithin(E: Edges, B: Edges)
    requires B <= E
    ensures Remaining(E, KeysOf(B)) <= E - B
  {
    assert forall e :: e in B ==> EdgeKey(e) in KeysOf(B);
  }

  lemma SubgraphAcyclic(E: Edges, F: Edges)
    requires E <= F && Acyclic(F)
    ensures Acyclic(E)
  {
    forall x ensures !OnCycle(E, x) {
      if OnCycle(E, x) {
        var z :| (x, z) in E && Reach(E, z, x);
        ReachMono(E, F, z, x);
        assert OnCycle(F, x);
      }
    }
  }

  // ---- The search as a function ----

  // The ids visited and the back edges found.
  datatype Run = Run(visited: set<Id>, back: Edges)

  // Outgoing edges start at the id they are listed for and end at listed ids.
  predicate Listed(outgoing: map<Id, seq<Edge>>) {
    forall k, e :: k in outgoing && e in outgoing[k] ==> e.from == k && e.to in outgoing
  }

  // One edge of an open id; `visiting` are the open ids.
  function See(outgoing: map<Id, seq<Edge>>, visiting: set<Id>, r: Run, e: Edge): (s: Run)
    requires Listed(outgoing) && e.to in outgoing
    ensures r.visited <= s.visited && r.back <= s.back
    decreases outgoing.Keys - visiting - r.visited, 1, 0
  {
    if e.to in visiting then r.(back := r.back + {(e.from, e.to)})
    else if e.to in r.visited then r
    else VisitFrom(outgoing, visiting, r, e.to)
  }

  function SeeAll(outgoing: map<Id, seq<Edge>>, visiting: set<Id>, r: Run, todo: seq<Edge>): (s: Run)
    requires Listed(outgoing) && forall e :: e in todo ==> e.to in outgoing
    ensures r.visited <= s.visited && r.back <= s.back
    decreases outgoing.Keys - visiting - r.visited, 2, |todo|
  {
    if todo == [] then r else SeeAll(outgoing, visiting, See(outgoing, visiting, r, todo[0]), todo[1..])
  }

  function VisitFrom(outgoing: map<Id, seq<Edge>>, visiting: set<Id>, r: Run, id: Id): (s: Run)
    requires Listed(outgoing) && id in outgoing && id !in visiting && id !in r.visited
    ensures r.visited + {id} <= s.visited && r.back <= s.back
    decreases outgoing.Keys - visiting - r.visited, 0, 0
  {
    assert id in outgoing.Keys - visiting - r.visited;
    var s := SeeAll(outgoing, visiting + {id}, r, outgoing[id]);
    s.(visited := s.visited + {id})
  }

  function RunAll(outgoing: map<Id, seq<Edge>>, r: Run, nodeIds: seq<Id>): (s: Run)
    requires Listed(outgoing) && forall id :: id in nodeIds ==> id in outgoing
    ensures r.visited <= s.visited && r.back <= s.back
    decreases |nodeIds|
  {
    if nodeIds == [] then r
    else RunAll(outgoing, if nodeIds[0] in r.visited then r else VisitFrom(outgoing, {}, r, nodeIds[0]), nodeIds[1..])
  }

  // The edges out of an id, in order.
  function Out(edges: seq<Edge>, id: Id): (out: seq<Edge>)
    ensures forall e :: e in out <==> e in edges && e.from == id
  {
    if edges == [] then []
    else
      var n := |edges| - 1;
      Out(edges[..n], id) + if edges[n].from == id then [edges[n]] else []
  }

  function OutgoingOf(nodeIds: seq<Id>, edges: seq<Edge>): map<Id, seq<Edge>> {
    map id | id in nodeIds :: Out(edges, id)
  }

  lemma OutgoingStep(nodeIds: seq<Id>, edges: seq<Edge>, i: nat)
    requires i < |edges| && edges[i].from in nodeIds
    ensures var m, e := OutgoingOf(nodeIds, edges[..i]), edges[i];
            OutgoingOf(nodeIds, edges[..i + 1]) == m[e.from := m[e.from] + [e]]
  {
    var m, e := OutgoingOf(nodeIds, edges[..i]), edges[i];
    assert edges[..i + 1][..i] == edges[..i];
    forall id | id in nodeIds ensures Out(edges[..i + 1], id) == m[e.from := m[e.from] + [e]][id] {
    }
  }

  // The back edges of a search that starts at the ids in order and follows the edges in order.
  function BackEdgesOf(nodeIds: seq<Id>, edges: seq<Edge>): Edges
    requires forall e :: e in edges ==> e.from in nodeIds && e.to in nodeIds
  {
    RunAll(OutgoingOf(nodeIds, edges), Run({}, {}), nodeIds).back
  }

  lemma KeysOfAdd(B: Edges, e: (Id, Id))
    ensures KeysOf(B + {e}) == KeysOf(B) + {EdgeKey(e)}
  {
  }

  // ---- The invariant of the search ----

  // `tree` are the edges along which the search advanced, `finish` numbers ids as they are left.
  datatype Dfs = Dfs(visiting: set<Id>, visited: set<Id>, back: Edges, tree: Edges, finish: map<Id, int>)

  ghost predicate Inv(E: Edges, d: Dfs) {
    && d.visiting !! d.visited
    && d.back <= E && d.tree <= E && d.tree !! d.back
    && d.finish.Keys == d.visited
    && (forall x {:trigger d.finish[x]} :: x in d.visited ==> d.finish[x] < |d.visited|)
    && (forall e {:trigger e in d.tree} :: e in d.tree ==> e.0 in d.visiting + d.visited)
    && (forall e {:trigger e in d.back} :: e in d.back ==> e.0 in d.visiting + d.visited && e.1 in d.visiting + d.visited)
    && (forall e {:trigger e in E} :: e in E && e.0 in d.visited ==>
          e in d.back || (e.1 in d.visited && d.finish[e.1] < d.finish[e.0]))
    && forall e {:trigger Reach(d.tree, e.1, e.0)} :: e in d.back ==> Reach(d.tree, e.1, e.0)
  }

  // visit(id) may be entered: every id on the current path leads to id.
  ghost predicate Enterable(E: Edges, d: Dfs, id: Id) {
    && Inv(E, d)
    && id !in d.visiting && id !in d.visited
    && (forall y {:trigger Reach(d.tree, y, id)} :: y in d.visiting ==> Reach(d.tree, y, id))
    && forall e {:trigger e in d.tree} :: e in d.tree ==> e.1 in d.visiting + d.visited + {id}
  }

  // The contract of one call of visit(id), from state a to state b.
  ghost predicate Left(E: Edges, a: Dfs, b: Dfs, id: Id) {
    && Inv(E, b)
    && b.visiting == a.visiting && a.visited + {id} <= b.visited
    && a.tree <= b.tree
    && forall e {:trigger e in b.tree} :: e in b.tree && e !in a.tree ==> e.0 in b.visited && e.1 in b.visited
  }

  // The invariant of the edge loop of visit(id); `seen` are the targets handled so far.
  ghost predicate Looping(E: Edges, a: Dfs, s: Dfs, id: Id, seen: set<Id>) {
    && Inv(E, s)
    && id !in a.visiting && id !in a.visited
    && (forall e {:trigger e in a.tree} :: e in a.tree ==>
          e.0 in a.visiting + a.visited && e.1 in a.visiting + a.visited + {id})
    && s.visiting == a.visiting + {id} && a.visited <= s.visited
    && a.tree <= s.tree
    && (forall e {:trigger e in s.tree} :: e in s.tree && e !in a.tree ==> (e.0 == id || e.0 in s.visited) && e.1 in s.visited)
    && (forall y {:trigger Reach(s.tree, y, id)} :: y in s.visiting ==> Reach(s.tree, y, id))
    && forall t {:trigger t in seen} :: t in seen ==> (id, t) in s.back || t in s.visited
  }

  lemma EnterKeeps(E: Edges, a: Dfs, id: Id)
    requires Enterable(E, a, id)
    ensures Looping(E, a, a.(visiting := a.visiting + {id}), id, {})
  {
    ReachRefl(a.tree, id);
  }

  lemma AddBackEdge(E: Edges, s: Dfs, e: (Id, Id))
    requires Inv(E, s) && e in E && e !in s.tree && e.0 in s.visiting && e.1 in s.visiting
    requires Reach(s.tree, e.1, e.0)
    ensures Inv(E, s.(back := s.back + {e}))
  {
  }

  lemma AddTreeEdge(E: Edges, s: Dfs, e: (Id, Id))
    requires Inv(E, s) && e in E && e !in s.back && e.0 in s.visiting
    ensures Inv(E, s.(tree := s.tree + {e}))
  {
    var t := s.(tree := s.tree + {e});
    forall f | f in t.back ensures Reach(t.tree, f.1, f.0) {
      assert Reach(s.tree, f.1, f.0);
      ReachMono(s.tree, t.tree, f.1, f.0);
    }
  }

  // An edge to an id on the current path was not used to advance.
  lemma NotTree(E: Edges, a: Dfs, s: Dfs, id: Id, seen: set<Id>, v: Id)
    requires Looping(E, a, s, id, seen) && v in s.visiting
    ensures (id, v) !in s.tree && Reach(s.tree, v, id)
  {
    assert (id, v) in a.tree ==> id in a.visiting + a.visited;
  }

  // The target is on the current path.
  lemma SeeVisiting(E: Edges, a: Dfs, s: Dfs, id: Id, seen: set<Id>, v: Id)
    requires Looping(E, a, s, id, seen) && (id, v) in E && v in s.visiting
    ensures Looping(E, a, s.(back := s.back + {(id, v)}), id, seen + {v})
  {
    NotTree(E, a, s, id, seen, v);
    AddBackEdge(E, s, (id, v));
  }

  lemma SeeVisited(E: Edges, a: Dfs, s: Dfs, id: Id, seen: set<Id>, v: Id)
    requires Looping(E, a, s, id, seen) && v in s.visited
    ensures Looping(E, a, s, id, seen + {v})
  {
  }

  // The search may advance along an edge to an id it has not seen.
  lemma AdvanceEnterable(E: Edges, a: Dfs, s: Dfs, id: Id, seen: set<Id>, v: Id)
    requires Looping(E, a, s, id, seen) && (id, v) in E && v !in s.visiting && v !in s.visited
    ensures Enterable(E, s.(tree := s.tree + {(id, v)}), v)
  {
    var t := s.(tree := s.tree + {(id, v)});
    assert (id, v) in s.back ==> v in s.visiting + s.visited;
    AddTreeEdge(E, s, (id, v));
    forall y | y in t.visiting ensures Reach(t.tree, y, v) {
      assert Reach(s.tree, y, id);
      ReachMono(s.tree, t.tree, y, id);
      ReachStep(t.tree, y, id, v);
    }
    TreeTargets(E, a, s, id, seen);
  }

  lemma TreeTargets(E: Edges, a: Dfs, s: Dfs, id: Id, seen: set<Id>)
    requires Looping(E, a, s, id, seen)
    ensures forall e :: e in s.tree ==> e.1 in s.visiting + s.visited
  {
    forall e | e in s.tree ensures e.1 in s.visiting + s.visited {
      if e in a.tree {
        assert e.1 in a.visiting + a.visited + {id};
      }
    }
  }

  // The edges along which the search advanced since a, after one more child.
  lemma ChildTree(a: Dfs, s: Dfs, r: Dfs, id: Id, v: Id)
    requires forall e {:trigger e in s.tree} :: e in s.tree && e !in a.tree ==>
      (e.0 == id || e.0 in s.visited) && e.1 in s.visited
    requires forall e {:trigger e in r.tree} :: e in r.tree && e !in s.tree + {(id, v)} ==>
      e.0 in r.visited && e.1 in r.visited
    requires s.visited + {v} <= r.visited
    ensures forall e {:trigger e in r.tree} :: e in r.tree && e !in a.tree ==>
      (e.0 == id || e.0 in r.visited) && e.1 in r.visited
  {
    forall e | e in r.tree && e !in a.tree ensures (e.0 == id || e.0 in r.visited) && e.1 in r.visited {
      if e in s.tree {
        assert e.1 in s.visited;
      }
    }
  }

  lemma SeeChild(E: Edges, a: Dfs, s: Dfs, r: Dfs, id: Id, seen: set<Id>, v: Id)
    requires Looping(E, a, s, id, seen) && (id, v) in E
    requires s.back <= r.back && Left(E, s.(tree := s.tree + {(id, v)}), r, v)
    ensures Looping(E, a, r, id, seen + {v})
  {
    forall y | y in r.visiting ensures Reach(r.tree, y, id) {
      assert Reach(s.tree, y, id);
      ReachMono(s.tree, r.tree, y, id);
    }
    ChildTree(a, s, r, id, v);
    forall t | t in seen + {v} ensures (id, t) in r.back || t in r.visited {
      assert t in seen ==> (id, t) in s.back || t in s.visited;
    }
  }

  lemma LeaveKeeps(E: Edges, a: Dfs, s: Dfs, id: Id, seen: set<Id>, b: Dfs)
    requires Looping(E, a, s, id, seen)
    requires forall e :: e in E && e.0 == id ==> e.1 in seen
    requires b == Dfs(s.visiting - {id}, s.visited + {id}, s.back, s.tree, s.finish[id := |s.visited|])
    ensures Left(E, a, b, id)
  {
    assert id !in s.visited;
    assert |b.visited| == |s.visited| + 1;
  }

  lemma FinishedIsMinimal(E: Edges, d: Dfs)
    requires Inv(E, d) && forall e :: e in E ==> e.0 in d.visited
    ensures d.back <= E && Acyclic(E - d.back) && Closing(E, d.back) && MinimalFeedback(E, d.back)
  {
    DecreasingIsAcyclic(E - d.back, d.finish);
    forall e | e in d.back ensures Reach(E - d.back, e.1, e.0) {
      ReachMono(d.tree, E - d.back, e.1, e.0);
    }
    ClosingIsMinimal(E, d.back);
  }

  ghost predicate Represents(outgoing: map<Id, seq<Edge>>, E: Edges) {
    && Listed(outgoing)
    && (forall k, e :: k in outgoing && e in outgoing[k] ==> (k, e.to) in E)
    && forall e :: e in E ==> e.0 in outgoing && e.1 in outgoing && Edge(e.0, e.1) in outgoing[e.0]
  }

  ghost function Targets(edges: seq<Edge>): set<Id> {
    set e | e in edges :: e.to
  }

  lemma TargetsFirst(edges: seq<Edge>)
    requires edges != []
    ensures Targets(edges) == {edges[0].to} + Targets(edges[1..])
  {
    assert edges == [edges[0]] + edges[1..];
  }

  // One edge of the loop in visit, as a step of the invariant.
  lemma {:induction false} SeeKeeps(outgoing: map<Id, seq<Edge>>, E: Edges, a: Dfs, s: Dfs, id: Id, e: Edge, seen: set<Id>)
    returns (t: Dfs)
    requires Represents(outgoing, E) && Looping(E, a, s, id, seen) && e.from == id && (id, e.to) in E
    ensures Looping(E, a, t, id, seen + {e.to}) && t.visiting == s.visiting
    ensures Run(t.visited, t.back) == See(outgoing, s.visiting, Run(s.visited, s.back), e)
    decreases outgoing.Keys - s.visiting - s.visited, 1, 0
  {
    if e.to in s.visiting {
      t := s.(back := s.back + {(id, e.to)});
      SeeVisiting(E, a, s, id, seen, e.to);
    } else if e.to in s.visited {
      t := s;
      SeeVisited(E, a, s, id, seen, e.to);
    } else {
      var u := s.(tree := s.tree + {(id, e.to)});
      AdvanceEnterable(E, a, s, id, seen, e.to);
      t := VisitKeeps(outgoing, E, u, e.to);
      SeeChild(E, a, s, t, id, seen, e.to);
    }
  }

  lemma {:induction false} SeeAllKeeps(outgoing: map<Id, seq<Edge>>, E: Edges, a: Dfs, s: Dfs, id: Id, todo: seq<Edge>,
                                       seen: set<Id>) returns (t: Dfs)
    requires Represents(outgoing, E) && Looping(E, a, s, id, seen)
    requires forall e :: e in todo ==> e.from == id && (id, e.to) in E
    ensures Looping(E, a, t, id, seen + Targets(todo)) && t.visiting == s.visiting
    ensures Run(t.visited, t.back) == SeeAll(outgoing, s.visiting, Run(s.visited, s.back), todo)
    decreases outgoing.Keys - s.visiting - s.visited, 2, |todo|
  {
    if todo == [] {
      t := s;
      assert seen + Targets([]) == seen;
    } else {
      hide Looping;
      TargetsFirst(todo);
      assert (seen + {todo[0].to}) + Targets(todo[1..]) == seen + Targets(todo);
      var u := SeeKeeps(outgoing, E, a, s, id, todo[0], seen);
      t := SeeAllKeeps(outgoing, E, a, u, id, todo[1..], seen + {todo[0].to});
    }
  }

  // A call of visit keeps the invariant of the search.
  lemma {:induction false} VisitKeeps(outgoing: map<Id, seq<Edge>>, E: Edges, a: Dfs, id: Id) returns (b: Dfs)
    requires Represents(outgoing, E) && Enterable(E, a, id) && id in outgoing
    ensures Left(E, a, b, id) && a.back <= b.back
    ensures Run(b.visited, b.back) == VisitFrom(outgoing, a.visiting, Run(a.visited, a.back), id)
    decreases outgoing.Keys - a.visiting - a.visited, 0, 0
  {
    EnterKeeps(E, a, id);
    var s := a.(visiting := a.visiting + {id});
    assert id in outgoing.Keys - a.visiting - a.visited;
    var t := SeeAllKeeps(outgoing, E, a, s, id, outgoing[id], {});
    forall e | e in E && e.0 == id ensures e.1 in {} + Targets(outgoing[id]) {
      assert Edge(e.0, e.1) in outgoing[id];
    }
    b := Dfs(t.visiting - {id}, t.visited + {id}, t.back, t.tree, t.finish[id := |t.visited|]);
    LeaveKeeps(E, a, t, id, {} + Targets(outgoing[id]), b);
  }

  // The state between two root calls.
  ghost predicate AtRoot(E: Edges, d: Dfs) {
    Inv(E, d) && d.visiting == {} && forall e :: e in d.tree ==> e.1 in d.visited
  }

  lemma RootKeeps(outgoing: map<Id, seq<Edge>>, E: Edges, d: Dfs, id: Id) returns (b: Dfs)
    requires Represents(outgoing, E) && AtRoot(E, d) && id in outgoing && id !in d.visited
    ensures AtRoot(E, b) && d.visited + {id} <= b.visited
    ensures Run(b.visited, b.back) == VisitFrom(outgoing, {}, Run(d.visited, d.back), id)
  {
    hide Inv;
    b := VisitKeeps(outgoing, E, d, id);
  }

  lemma {:induction false} RunAllKeeps(outgoing: map<Id, seq<Edge>>, E: Edges, d: Dfs, nodeIds: seq<Id>) returns (b: Dfs)
    requires Represents(outgoing, E) && AtRoot(E, d)
    requires forall id :: id in nodeIds ==> id in outgoing
    ensures AtRoot(E, b) && d.visited + Elements(nodeIds) <= b.visited
    ensures Run(b.visited, b.back) == RunAll(outgoing, Run(d.visited, d.back), nodeIds)
    decreases |nodeIds|
  {
    hide AtRoot, Represents;
    if nodeIds == [] {
      b := d;
    } else {
      var t := d;
      if nodeIds[0] !in d.visited {
        t := RootKeeps(outgoing, E, d, nodeIds[0]);
      }
      b := RunAllKeeps(outgoing, E, t, nodeIds[1..]);
      assert nodeIds == [nodeIds[0]] + nodeIds[1..];
    }
  }

  // Whatever the order of ids and edges, the back edges are a minimal feedback set, each of which the
  // edges kept close into a cycle.
  lemma BackEdgesAreMinimal(nodeIds: seq<Id>, edges: seq<Edge>)
    requires forall e :: e in edges ==> e.from in nodeIds && e.to in nodeIds
    ensures var E, back := EdgeSet(edges), BackEdgesOf(nodeIds, edges);
            back <= E && MinimalFeedback(E, back) && Closing(E, back)
  {
    var E, outgoing := EdgeSet(edges), OutgoingOf(nodeIds, edges);
    OutgoingRepresents(nodeIds, edges);
    var b := RunAllKeeps(outgoing, E, Dfs({}, {}, {}, {}, map[]), nodeIds);
    assert forall e :: e in E ==> e.0 in Elements(nodeIds);
    FinishedIsMinimal(E, b);
  }

  lemma OutgoingRepresents(nodeIds: seq<Id>, edges: seq<Edge>)
    requires forall e :: e in edges ==> e.from in nodeIds && e.to in nodeIds
    ensures Represents(OutgoingOf(nodeIds, edges), EdgeSet(edges))
  {
    var outgoing := OutgoingOf(nodeIds, edges);
    forall e | e in EdgeSet(edges) ensures Edge(e.0, e.1) in edges {
    }
  }

  // ---- The program ----

  class Finder {
    const outgoing: map<Id, seq<Edge>>
    var visiting: set<Id>
    var visited: set<Id>
    var backEdges: set<string>
    ghost var back: Edges

    ghost function State(): Run
      reads this
    {
      Run(visited, back)
    }

    ghost predicate Valid()
      reads this
    {
      Listed(outgoing) && backEdges == KeysOf(back)
    }

    constructor (outgoing: map<Id, seq<Edge>>)
      requires Listed(outgoing)
      ensures Valid() && this.outgoing == outgoing && visiting == {} && State() == Run({}, {})
    {
      this.outgoing := outgoing;
      visiting, visited, backEdges, back := {}, {}, {}, {};
    }

    method FlagEdge(edge: Edge)
      requires Valid()
      modifies this`backEdges, this`back
      ensures Valid() && back == old(back) + {(edge.from, edge.to)}
    {
      KeysOfAdd(back, (edge.from, edge.to));
      backEdges := backEdges + {EdgeKey((edge.from, edge.to))};
      back := back + {(edge.from, edge.to)};
    }

    // One iteration of the edge loop of visit.
    method SeeEdge(edge: Edge)
      requires Valid() && edge.to in outgoing
      modifies this
      ensures Valid() && visiting == old(visiting)
      ensures State() == See(outgoing, visiting, old(State()), edge)
      decreases outgoing.Keys - visiting - visited, 1, 0
    {
      if edge.to in visiting {
        FlagEdge(edge);
        return;
      }
      if edge.to !in visited {
        Visit(edge.to);
      }
    }

    method Visit(id: Id)
      requires Valid() && id in outgoing && id !in visiting && id !in visited
      modifies this
      ensures Valid() && visiting == old(visiting)
      ensures State() == VisitFrom(outgoing, old(visiting), old(State()), id)
      decreases outgoing.Keys - visiting - visited, 0, 0
    {
      var edges := outgoing[id];
      ghost var open := visiting + {id};
      assert id in outgoing.Keys - visiting - visited;
      visiting := visiting + {id};
      for i := 0 to |edges|
        invariant Valid() && visiting == open && old(visited) <= visited
        invariant SeeAll(outgoing, open, State(), edges[i..]) == SeeAll(outgoing, open, old(State()), edges)
      {
        assert edges[i] in outgoing[id];
        assert edges[i..][1..] == edges[i + 1..];
        SeeEdge(edges[i]);
      }
      visiting := visiting - {id};
      visited := visited + {id};
    }
  }

  method BuildOutgoing(nodeIds: seq<Id>, edges: seq<Edge>) returns (outgoing: map<Id, seq<Edge>>)
    requires forall e :: e in edges ==> e.from in nodeIds && e.to in nodeIds
    ensures outgoing == OutgoingOf(nodeIds, edges)
  {
    outgoing := map[];
    for i := 0 to |nodeIds|
      invariant outgoing == OutgoingOf(nodeIds[..i], [])
    {
      ElementsStep(nodeIds, i);
      outgoing := outgoing[nodeIds[i] := []];
    }
    assert nodeIds[..|nodeIds|] == nodeIds;
    for i := 0 to |edges|
      invariant outgoing == OutgoingOf(nodeIds, edges[..i])
    {
      var edge := edges[i];
      assert edge in edges;
      OutgoingStep(nodeIds, edges, i);
      outgoing := outgoing[edge.from := outgoing[edge.from] + [edge]];
    }
    assert edges[..|edges|] == edges;
  }

  // The keys of the back edges; `back` are the edges themselves.
  method DetectBackEdges(nodeIds: seq<Id>, edges: seq<Edge>) returns (backEdges: set<string>, ghost back: Edges)
    requires forall e :: e in edges ==> e.from in nodeIds && e.to in nodeIds
    ensures back == BackEdgesOf(nodeIds, edges) && backEdges == KeysOf(back)
    ensures MinimalFeedback(EdgeSet(edges), back) && Closing(EdgeSet(edges), back)
    ensures backEdges == {} <==> Acyclic(EdgeSet(edges))
    ensures Acyclic(Remaining(EdgeSet(edges), backEdges))
  {
    ghost var E := EdgeSet(edges);
    var outgoing := BuildOutgoing(nodeIds, edges);
    var finder := new Finder(outgoing);
    for i := 0 to |nodeIds|
      invariant fresh(finder) && finder.Valid() && finder.outgoing == outgoing && finder.visiting == {}
      invariant RunAll(outgoing, finder.State(), nodeIds[i..]) == RunAll(outgoing, Run({}, {}), nodeIds)
    {
      var id := nodeIds[i];
      assert nodeIds[i..][1..] == nodeIds[i + 1..];
      if id !in finder.visited {
        finder.Visit(id);
      }
    }
    backEdges, back := finder.backEdges, finder.back;
    BackEdgesAreMinimal(nodeIds, edges);
    NoBackEdgesIffAcyclic(E, back);
    assert backEdges == {} <==> back == {} by {
      if e :| e in back {
        assert EdgeKey(e) in KeysOf(back);
      }
    }
    RemainingWithin(E, back);
    SubgraphAcyclic(Remaining(E, backEdges), E - back);
  }
}
