// The two independent cycle detectors of the repository give the same verdict.
module DetectorsAgree {
  import opened Graphs
  import CycleRule
  import BackEdges
  import DagLayout

  // The rule's scope and the layout's nodes are the same ids, with the same edges.
  ghost predicate SameGraph(graph: CycleRule.Graph, matches: string -> bool, o: DagLayout.Options) {
    && CycleRule.ScopeOf(graph.nodes, matches) == Elements(o.nodes)
    && EdgeSet(graph.edges) == EdgeSet(o.edges)
  }

  ghost predicate NoSelfEdge(E: Edges) {
    forall e :: e in E ==> e.0 != e.1
  }

  // What the layout keeps of the edges of the rule.
  ghost function Trimmed(E: Edges): Edges {
    set e | e in E && e.0 != "" && e.1 != "" && e.0 != e.1
  }

  lemma LayoutKeepsTrimmed(graph: CycleRule.Graph, matches: string -> bool, o: DagLayout.Options)
    requires SameGraph(graph, matches, o)
    ensures EdgeSet(DagLayout.LayoutEdges(o))
         == Trimmed(CycleRule.ScopedEdges(graph.edges, CycleRule.ScopeOf(graph.nodes, matches)))
  {
    var scope := CycleRule.ScopeOf(graph.nodes, matches);
    var E := CycleRule.ScopedEdges(graph.edges, scope);
    var edges := DagLayout.LayoutEdges(o);
    forall e | e in Trimmed(E) ensures e in EdgeSet(edges) {
      assert e in EdgeSet(graph.edges);
      assert Edge(e.0, e.1) in o.edges;
      assert e.0 in Elements(o.nodes) && e.1 in Elements(o.nodes);
      assert Edge(e.0, e.1) in edges;
    }
    forall e | e in EdgeSet(edges) ensures e in Trimmed(E) {
      assert Edge(e.0, e.1) in edges;
      assert e in EdgeSet(o.edges);
      assert Edge(e.0, e.1) in graph.edges;
      assert e.0 in Elements(o.nodes) && e.1 in Elements(o.nodes);
    }
  }

  // A closed walk avoids empty ids when no cycle leads to one.
  lemma {:induction false} WalkTrimmed(E: Edges, p: seq<Id>, z: Id, x: Id)
    requires IsWalk(E, p, z, x) && Reach(E, x, z) && OnCycle(E, x)
    requires CycleRule.EmptyIdApart(E) && NoSelfEdge(E)
    ensures IsWalk(Trimmed(E), p, z, x)
    decreases |p|
  {
    if |p| > 1 {
      ReachStep(E, x, z, p[1]);
      assert Reach(E, x, z) ==> z != "";
      assert Reach(E, x, p[1]) ==> p[1] != "";
      WalkTrimmed(E, p[1..], p[1], x);
    }
  }

  lemma TrimmedAcyclic(E: Edges)
    requires CycleRule.EmptyIdApart(E)
    ensures Acyclic(E) <==> Acyclic(Trimmed(E)) && NoSelfEdge(E)
  {
    if Acyclic(E) {
      BackEdges.SubgraphAcyclic(Trimmed(E), E);
      forall e | e in E ensures e.0 != e.1 {
        ReachRefl(E, e.0);
        assert !OnCycle(E, e.0);
      }
    } else if NoSelfEdge(E) {
      var x :| OnCycle(E, x);
      var z :| (x, z) in E && Reach(E, z, x);
      ReachEdge(E, x, z);
      var p :| IsWalk(E, p, z, x);
      WalkTrimmed(E, p, z, x);
      ReachRefl(E, x);
      assert Reach(Trimmed(E), z, x) && (x, z) in Trimmed(E);
      assert OnCycle(Trimmed(E), x);
    }
  }

  // On one graph the cycle rule is silent exactly when the layout flags no edge and there is no
  // self-edge, which the layout drops; this under the condition under which the rule is right.
  lemma ProgramsAgree(graph: CycleRule.Graph, matches: string -> bool, violations: seq<CycleRule.Violation>,
                      o: DagLayout.Options, layout: DagLayout.Layout, rank: map<Id, nat>, back: Edges)
    requires SameGraph(graph, matches, o)
    requires CycleRule.RuleSpec(graph, matches, violations) && DagLayout.LayoutSpec(o, layout, rank, back)
    ensures var E := CycleRule.ScopedEdges(graph.edges, CycleRule.ScopeOf(graph.nodes, matches));
            CycleRule.EmptyIdApart(E) ==>
              (violations == [] <==> (forall e :: e in layout.edges ==> !e.isBackEdge) && NoSelfEdge(E))
  {
    var E := CycleRule.ScopedEdges(graph.edges, CycleRule.ScopeOf(graph.nodes, matches));
    if CycleRule.EmptyIdApart(E) {
      LayoutKeepsTrimmed(graph, matches, o);
      TrimmedAcyclic(E);
      NothingDrawn(layout.edges);
    }
  }

  lemma NothingDrawn(edges: seq<DagLayout.LayoutEdge>)
    ensures DagLayout.Drawn(edges, true) == {} <==> forall e :: e in edges ==> !e.isBackEdge
  {
    forall e | e in edges && e.isBackEdge ensures (e.from, e.to) in DagLayout.Drawn(edges, true) {
    }
  }

  // Both programs on one graph.
  method DetectTwice(graph: CycleRule.Graph, matches: string -> bool, o: DagLayout.Options)
    returns (violations: seq<CycleRule.Violation>, layout: DagLayout.Layout)
    requires SameGraph(graph, matches, o)
    ensures var E := CycleRule.ScopedEdges(graph.edges, CycleRule.ScopeOf(graph.nodes, matches));
            CycleRule.EmptyIdApart(E) && NoSelfEdge(E) ==>
              (violations == [] <==> forall e :: e in layout.edges ==> !e.isBackEdge)
  {
    violations := CycleRule.ExecuteCycleRule(graph, matches);
    layout := DagLayout.ComputeDAGLayout(o);
    ghost var rank, back :| DagLayout.LayoutSpec(o, layout, rank, back);
    ProgramsAgree(graph, matches, violations, o, layout, rank, back);
  }

  // Every back edge of the layout lies inside one of the reported paths.
  lemma BackEdgeIsReported(E: Edges, scope: set<Id>, violations: seq<CycleRule.Violation>, back: Edges, e: (Id, Id))
    returns (i: nat)
    requires CycleRule.VerdictCorrect(E, scope, violations)
    requires BackEdges.MinimalFeedback(E, back) && BackEdges.Closing(E, back) && e in back
    requires forall f :: f in E ==> f.0 in scope && f.1 in scope
    ensures i < |violations| && e.0 in violations[i].path && e.1 in violations[i].path
  {
    ReachMono(E - back, E, e.1, e.0);
    ReachEdge(E, e.0, e.1);
    assert OnCycle(E, e.0);
    i :| 0 <= i < |violations| && e.0 in violations[i].path;
    assert CycleRule.CyclicComponent(E, scope, violations[i]);
    assert Mutual(E, e.0, e.1);
  }

  // The first id of a reported path has an edge back into its own component.
  lemma CyclicStep(E: Edges, scope: set<Id>, v: CycleRule.Violation) returns (z: Id)
    requires CycleRule.CyclicComponent(E, scope, v)
    requires forall f :: f in E ==> f.0 in scope && f.1 in scope
    ensures (v.path[0], z) in E && Reach(E, z, v.path[0]) && z in v.path
  {
    var x := v.path[0];
    if (x, x) in E {
      z := x;
      ReachRefl(E, x);
    } else {
      var y := v.path[1];
      assert x in v.path && y in v.path;
      assert Mutual(E, x, y);
      z := ReachFirst(E, x, y);
      ReachTrans(E, z, y, x);
      ReachEdge(E, x, z);
      assert Mutual(E, x, z);
    }
  }

  // A walk that ends inside a component and starts there never leaves it.
  lemma {:induction false} WalkInside(E: Edges, back: Edges, scope: set<Id>, v: CycleRule.Violation,
                                      p: seq<Id>, z: Id, x: Id)
    requires CycleRule.CyclicComponent(E, scope, v)
    requires forall f :: f in E ==> f.0 in scope && f.1 in scope
    requires forall f :: f in back ==> f.0 !in v.path || f.1 !in v.path
    requires z in v.path && x in v.path && IsWalk(E, p, z, x)
    ensures IsWalk(E - back, p, z, x)
    decreases |p|
  {
    if |p| > 1 {
      var y := p[1];
      assert Mutual(E, x, z);
      ReachStep(E, x, z, y);
      assert IsWalk(E, p[1..], y, x);
      assert Mutual(E, x, y);
      WalkInside(E, back, scope, v, p[1..], y, x);
    }
  }

  // Every reported path holds a back edge: no cyclic component escapes the layout's search.
  lemma ReportedHoldsBackEdge(E: Edges, scope: set<Id>, violations: seq<CycleRule.Violation>, back: Edges, i: nat)
    returns (e: (Id, Id))
    requires CycleRule.VerdictCorrect(E, scope, violations) && i < |violations|
    requires BackEdges.MinimalFeedback(E, back)
    requires forall f :: f in E ==> f.0 in scope && f.1 in scope
    ensures e in back && e.0 in violations[i].path && e.1 in violations[i].path
  {
    var v := violations[i];
    assert v in violations;
    var x := v.path[0];
    var z := CyclicStep(E, scope, v);
    if forall f :: f in back ==> f.0 !in v.path || f.1 !in v.path {
      var p :| IsWalk(E, p, z, x);
      WalkInside(E, back, scope, v, p, z, x);
      assert Reach(E - back, z, x);
      assert (x, z) in E - back;
      assert OnCycle(E - back, x);
    }
    e :| e in back && e.0 in v.path && e.1 in v.path;
  }
}
