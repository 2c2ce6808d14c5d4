// The layout flags back edges by their string keys. When are the flagged edges the back edges?
module EdgeKeys {
  import opened Graphs
  import opened BackEdges
  import opened SearchOrders

  // The edges that carry the key of a back edge.
  function Flagged(E: Edges, back: Edges): Edges {
    E - Remaining(E, KeysOf(back))
  }

  // No edge outside `back` shares its key with an edge of `back`.
  ghost predicate KeysApart(E: Edges, back: Edges) {
    forall e, f :: e in back && f in E - back ==> EdgeKey(e) != EdgeKey(f)
  }

  // No edge on a cycle shares its key with another edge.
  ghost predicate CyclicKeysDistinct(E: Edges) {
    forall e, f :: e in E && f in E && Reach(E, e.1, e.0) && EdgeKey(e) == EdgeKey(f) ==> e == f
  }

  // What the search promises about the back edges it finds.
  ghost predicate Feedback(E: Edges, back: Edges) {
    MinimalFeedback(E, back) && Closing(E, back)
  }

  // The flagged edges are a minimal feedback set exactly when the keys of `back` are its own.
  lemma FlaggedIff(E: Edges, back: Edges)
    requires MinimalFeedback(E, back)
    ensures back <= Flagged(E, back)
    ensures Flagged(E, back) == back <==> KeysApart(E, back)
    ensures MinimalFeedback(E, Flagged(E, back)) <==> KeysApart(E, back)
  {
    RemainingWithin(E, back);
    FlaggedExactly(E, back);
    if f :| f in Flagged(E, back) && f !in back {
      TooMany(E, back, Flagged(E, back), f);
    }
  }

  lemma FlaggedExactly(E: Edges, back: Edges)
    requires back <= E
    ensures Flagged(E, back) <= back <==> KeysApart(E, back)
  {
    if Flagged(E, back) <= back {
      forall e, f | e in back && f in E - back ensures EdgeKey(e) != EdgeKey(f) {
        assert f !in Flagged(E, back);
        assert EdgeKey(e) in KeysOf(back);
      }
    }
    if KeysApart(E, back) {
      forall f | f in Flagged(E, back) ensures f in back {
        assert EdgeKey(f) in KeysOf(back);
        var e :| e in back && EdgeKey(e) == EdgeKey(f);
      }
    }
  }

  // A set with more than a feedback set is not minimal.
  lemma TooMany(E: Edges, back: Edges, flagged: Edges, f: (Id, Id))
    requires MinimalFeedback(E, back) && back <= flagged <= E && f in flagged && f !in back
    ensures !MinimalFeedback(E, flagged)
  {
    SubgraphAcyclic((E - flagged) + {f}, E - back);
  }

  // ---- Separator-free ids ----

  lemma {:induction false} KeyInjective(e: (Id, Id), f: (Id, Id))
    requires NUL !in e.0 && NUL !in f.0 && EdgeKey(e) == EdgeKey(f)
    ensures e == f
    decreases |e.0|
  {
    var k := EdgeKey(e);
    assert if e.0 == "" then k[0] == NUL else k[0] == e.0[0];
    assert if f.0 == "" then k[0] == NUL else k[0] == f.0[0];
    assert e.0 == "" <==> f.0 == "";
    if e.0 == "" {
      assert e.1 == k[1..] == f.1;
    } else {
      assert EdgeKey((e.0[1..], e.1)) == k[1..] == EdgeKey((f.0[1..], f.1));
      KeyInjective((e.0[1..], e.1), (f.0[1..], f.1));
      assert e.0 == [k[0]] + e.0[1..] && f.0 == [k[0]] + f.0[1..];
    }
  }

  // Keys of edges whose sources have no separator are distinct.
  lemma NulFreeKeysDistinct(E: Edges)
    requires forall e :: e in E ==> NUL !in e.0
    ensures CyclicKeysDistinct(E)
  {
    forall e, f | e in E && f in E && EdgeKey(e) == EdgeKey(f) ensures e == f {
      KeyInjective(e, f);
    }
  }

  // ---- All orders ----

  // The flags of the search over these lists are its back edges.
  ghost predicate FlagsExact(nodeIds: seq<Id>, edges: seq<Edge>) {
    && (forall e :: e in edges ==> e.from in nodeIds && e.to in nodeIds)
    && Flagged(EdgeSet(edges), BackEdgesOf(nodeIds, edges)) == BackEdgesOf(nodeIds, edges)
  }

  lemma FlagsExactIffApart(nodeIds: seq<Id>, edges: seq<Edge>)
    requires forall e :: e in edges ==> e.from in nodeIds && e.to in nodeIds
    ensures FlagsExact(nodeIds, edges) <==> KeysApart(EdgeSet(edges), BackEdgesOf(nodeIds, edges))
  {
    BackEdgesAreMinimal(nodeIds, edges);
    FlaggedIff(EdgeSet(edges), BackEdgesOf(nodeIds, edges));
  }

  lemma CyclicKeysSuffice(E: Edges, back: Edges)
    requires Feedback(E, back) && CyclicKeysDistinct(E)
    ensures KeysApart(E, back)
  {
    forall e | e in back ensures Reach(E, e.1, e.0) {
      ReachMono(E - back, E, e.1, e.0);
    }
  }

  // Without self-edges, the flags are exact in whatever order the ids and edges of a graph are listed if
  // and only if no edge on a cycle shares its key with another edge.
  lemma CyclicKeysIff(E: Edges, ids: set<Id>)
    requires forall e :: e in E ==> e.0 in ids && e.1 in ids && e.0 != e.1
    ensures CyclicKeysDistinct(E)
       <==> forall nodeIds, edges :: Lists(nodeIds, edges, ids, E) ==> FlagsExact(nodeIds, edges)
  {
    forall nodeIds, edges | Lists(nodeIds, edges, ids, E) && CyclicKeysDistinct(E) ensures FlagsExact(nodeIds, edges) {
      ListsEnds(nodeIds, edges, ids, E);
      BackEdgesAreMinimal(nodeIds, edges);
      CyclicKeysSuffice(E, BackEdgesOf(nodeIds, edges));
      FlagsExactIffApart(nodeIds, edges);
    }
    if !CyclicKeysDistinct(E) {
      var e, f :| e in E && f in E && Reach(E, e.1, e.0) && EdgeKey(e) == EdgeKey(f) && e != f;
      var nodeIds, edges := Separates(E, ids, e, f);
      FlagsExactIffApart(nodeIds, edges);
      assert !KeysApart(E, BackEdgesOf(nodeIds, edges));
    }
  }
}
