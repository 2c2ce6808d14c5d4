// buildRanks of the DAG layout: Kahn's queue over the edges left after back-edge removal.
module Ranks {
  import opened Graphs
  import opened BackEdges

  // How many edges lead into n from outside P, parallel edges counted apart.
  function InCount(es: seq<Edge>, n: Id, P: set<Id>): nat {
    if es == [] then 0
    else (if es[0].to == n && es[0].from !in P then 1 else 0) + InCount(es[1..], n, P)
  }

  function OutEdges(es: seq<Edge>, id: Id): seq<Edge> {
    if es == [] then []
    else (if es[0].from == id then [es[0]] else []) + OutEdges(es[1..], id)
  }

  lemma {:induction false} CountAppend(es: seq<Edge>, e: Edge, n: Id, P: set<Id>)
    ensures InCount(es + [e], n, P) == InCount(es, n, P) + if e.to == n && e.from !in P then 1 else 0
    ensures OutEdges(es + [e], n) == OutEdges(es, n) + if e.from == n then [e] else []
  {
    if es != [] {
      assert (es + [e])[1..] == es[1..] + [e];
      CountAppend(es[1..], e, n, P);
    }
  }

  lemma {:induction false} CountZero(es: seq<Edge>, n: Id, P: set<Id>)
    ensures InCount(es, n, P) == 0 <==> forall e :: e in es && e.to == n ==> e.from in P
  {
    if es != [] {
      CountZero(es[1..], n, P);
      assert es == [es[0]] + es[1..];
    }
  }

  // Processing id takes its out-edges off every count.
  lemma {:induction false} CountSplit(es: seq<Edge>, n: Id, P: set<Id>, id: Id)
    requires id !in P
    ensures InCount(es, n, P) == InCount(es, n, P + {id}) + InCount(OutEdges(es, id), n, {})
  {
    if es != [] {
      CountSplit(es[1..], n, P, id);
      if es[0].from == id {
        var out := OutEdges(es, id);
        assert out == [es[0]] + OutEdges(es[1..], id);
        assert out[0] == es[0] && out[1..] == OutEdges(es[1..], id);
      } else {
        assert OutEdges(es, id) == OutEdges(es[1..], id);
      }
    }
  }

  lemma {:induction false} OutEdgesMembers(es: seq<Edge>, id: Id)
    ensures forall e :: e in OutEdges(es, id) <==> e in es && e.from == id
  {
    if es != [] {
      OutEdgesMembers(es[1..], id);
      assert es == [es[0]] + es[1..];
    }
  }

  // ---- Ranks ----

  ghost predicate Preceded(E: Edges, rank: map<Id, nat>, x: Id) {
    x in rank && (rank[x] > 0 ==> exists u :: (u, x) in E && u in rank && rank[u] + 1 == rank[x])
  }

  // Every edge raises the rank, and a positive rank is one more than that of some predecessor.
  ghost predicate LocalRank(E: Edges, rank: map<Id, nat>) {
    && (forall e :: e in E ==> e.0 in rank && e.1 in rank && rank[e.0] < rank[e.1])
    && forall x {:trigger Preceded(E, rank, x)} :: x in rank ==> Preceded(E, rank, x)
  }

  // The rank of x is the number of edges of the longest walk that ends at x.
  ghost predicate LongestPathRank(E: Edges, rank: map<Id, nat>) {
    forall x {:trigger LongestWalk(E, x, rank[x])} :: x in rank ==> LongestWalk(E, x, rank[x])
  }

  ghost predicate LongestWalk(E: Edges, x: Id, n: nat) {
    && (exists p, y :: IsWalk(E, p, y, x) && |p| - 1 == n)
    && (forall p, y :: IsWalk(E, p, y, x) ==> |p| - 1 <= n)
  }

  lemma {:induction false} WalkRank(E: Edges, rank: map<Id, nat>, p: seq<Id>, y: Id, x: Id)
    requires LocalRank(E, rank) && IsWalk(E, p, y, x) && y in rank
    ensures x in rank && rank[y] + |p| - 1 <= rank[x]
    decreases |p|
  {
    if |p| > 1 {
      WalkRank(E, rank, p[1..], p[1], x);
    }
  }

  lemma {:induction false} WalkStarts(E: Edges, rank: map<Id, nat>, p: seq<Id>, y: Id, x: Id)
    requires LocalRank(E, rank) && IsWalk(E, p, y, x) && x in rank
    ensures y in rank
  {
    if |p| > 1 {
      assert (y, p[1]) in E;
    }
  }

  lemma {:induction false} WalkSnoc(E: Edges, p: seq<Id>, y: Id, u: Id, x: Id)
    requires IsWalk(E, p, y, u) && (u, x) in E
    ensures IsWalk(E, p + [x], y, x)
    decreases |p|
  {
    if |p| > 1 {
      WalkSnoc(E, p[1..], p[1], u, x);
      assert (p + [x])[1..] == p[1..] + [x];
    } else {
      assert (p + [x])[1..] == [x];
    }
  }

  lemma {:induction false} RankAttained(E: Edges, rank: map<Id, nat>, x: Id) returns (p: seq<Id>, y: Id)
    requires LocalRank(E, rank) && x in rank
    ensures IsWalk(E, p, y, x) && |p| - 1 == rank[x]
    decreases rank[x]
  {
    if rank[x] == 0 {
      p, y := [x], x;
    } else {
      assert Preceded(E, rank, x);
      var u :| (u, x) in E && u in rank && rank[u] + 1 == rank[x];
      p, y := RankAttained(E, rank, u);
      WalkSnoc(E, p, y, u, x);
      p := p + [x];
    }
  }

  lemma LocalIsLongest(E: Edges, rank: map<Id, nat>)
    requires LocalRank(E, rank)
    ensures LongestPathRank(E, rank)
  {
    forall x | x in rank ensures LongestWalk(E, x, rank[x]) {
      var p, y := RankAttained(E, rank, x);
      forall p, y | IsWalk(E, p, y, x) ensures |p| - 1 <= rank[x] {
        WalkStarts(E, rank, p, y, x);
        WalkRank(E, rank, p, y, x);
      }
    }
  }

  // Ranks have no gaps: below a rank in use every smaller number is in use.
  lemma {:induction false} RanksContiguous(E: Edges, rank: map<Id, nat>, x: Id, r: nat) returns (y: Id)
    requires LocalRank(E, rank) && x in rank && r <= rank[x]
    ensures y in rank && rank[y] == r
    decreases rank[x]
  {
    if r == rank[x] {
      y := x;
    } else {
      assert Preceded(E, rank, x);
      var u :| (u, x) in E && u in rank && rank[u] + 1 == rank[x];
      y := RanksContiguous(E, rank, u, r);
    }
  }

  // A longer way round: a walk of at least one edge raises the rank.
  lemma ReachRaisesRank(E: Edges, rank: map<Id, nat>, x: Id, y: Id)
    requires LocalRank(E, rank) && Reach(E, x, y) && x != y && x in rank
    ensures y in rank && rank[x] < rank[y]
  {
    var p :| IsWalk(E, p, x, y);
    WalkRank(E, rank, p, x, y);
  }

  // ---- The queue ----

  // A positive rank comes from a processed predecessor.
  ghost predicate Supported(es: seq<Edge>, done: set<Id>, rank: map<Id, nat>, n: Id) {
    n in rank && (rank[n] > 0 ==>
      exists e :: e in es && e.from in done && e.to == n && e.from in rank && rank[n] == rank[e.from] + 1)
  }

  // `done` are the processed ids; a count that has reached 0 means queued or processed.
  ghost predicate Kahn(es: seq<Edge>, S: set<Id>, done: set<Id>, queue: seq<Id>,
                       count: map<Id, int>, rank: map<Id, nat>) {
    && count.Keys == S && rank.Keys == S
    && NoDup(queue) && Elements(queue) !! done && Elements(queue) + done <= S
    && (forall n :: n in S ==> count[n] == InCount(es, n, done))
    && (forall n :: n in S ==> (n in queue || n in done <==> count[n] == 0))
    && RanksSoFar(es, S, done, rank)
  }

  ghost predicate RanksSoFar(es: seq<Edge>, S: set<Id>, done: set<Id>, rank: map<Id, nat>) {
    && rank.Keys == S && (forall e :: e in es ==> e.from in S && e.to in S)
    && (forall e :: e in es && e.from in done ==> rank[e.from] < rank[e.to])
    && forall n {:trigger Supported(es, done, rank, n)} :: n in S ==> Supported(es, done, rank, n)
  }

  // Half way through the out-edges of id, out[..i] handled.
  ghost predicate DrainingCounts(es: seq<Edge>, S: set<Id>, done: set<Id>, id: Id, rest: seq<Edge>,
                                 queue: seq<Id>, count: map<Id, int>) {
    && id in done && done <= S && count.Keys == S
    && NoDup(queue) && Elements(queue) !! done && Elements(queue) <= S
    && (forall n {:trigger count[n]} :: n in S ==> count[n] == InCount(es, n, done) + InCount(rest, n, {}))
    && forall n {:trigger count[n]} :: n in S ==> (n in queue || n in done <==> count[n] == 0)
  }

  ghost predicate DrainingRanks(es: seq<Edge>, S: set<Id>, done: set<Id>, id: Id, seen: seq<Edge>, rank: map<Id, nat>) {
    && rank.Keys == S && id in done && done <= S
    && (forall e :: e in es ==> e.from in S && e.to in S)
    && (forall e :: e in es && e.from in done && e.from != id ==> rank[e.from] < rank[e.to])
    && (forall e :: e in seen ==> e.to in S && rank[id] < rank[e.to])
    && forall n {:trigger Supported(es, done, rank, n)} :: n in S ==> Supported(es, done, rank, n)
  }

  ghost predicate Draining(es: seq<Edge>, S: set<Id>, done: set<Id>, id: Id, out: seq<Edge>, i: nat,
                           queue: seq<Id>, count: map<Id, int>, rank: map<Id, nat>) {
    && i <= |out| && out == OutEdges(es, id)
    && DrainingCounts(es, S, done, id, out[i..], queue, count)
    && DrainingRanks(es, S, done, id, out[..i], rank)
  }

  lemma StartDraining(es: seq<Edge>, S: set<Id>, done: set<Id>, queue: seq<Id>,
                      count: map<Id, int>, rank: map<Id, nat>, out: seq<Edge>)
    requires Kahn(es, S, done, queue, count, rank) && queue != [] && out == OutEdges(es, queue[0])
    ensures Draining(es, S, done + {queue[0]}, queue[0], out, 0, queue[1..], count, rank)
  {
    var id := queue[0];
    assert id in queue;
    forall n | n in S ensures Supported(es, done + {id}, rank, n) {
      assert Supported(es, done, rank, n);
    }
    forall n | n in S ensures count[n] == InCount(es, n, done + {id}) + InCount(out[0..], n, {}) {
      CountSplit(es, n, done, id);
    }
    assert queue == [id] + queue[1..];
  }

  function Raise(rank: map<Id, nat>, n: Id, r: nat): map<Id, nat>
    requires n in rank
  {
    rank[n := if rank[n] < r then r else rank[n]]
  }

  lemma DrainCounts(es: seq<Edge>, S: set<Id>, done: set<Id>, id: Id, rest: seq<Edge>, queue: seq<Id>, count: map<Id, int>)
    requires DrainingCounts(es, S, done, id, rest, queue, count) && rest != [] && rest[0].to in S
    ensures var v := rest[0].to;
            v !in done &&
            DrainingCounts(es, S, done, id, rest[1..], if count[v] - 1 == 0 then queue + [v] else queue,
                           count[v := count[v] - 1])
  {
    var v := rest[0].to;
    assert count[v] > 0;
    var queue' := if count[v] - 1 == 0 then queue + [v] else queue;
    var count' := count[v := count[v] - 1];
    assert forall n :: n in queue' <==> n in queue || (n == v && count[v] == 1);
    forall n | n in S
      ensures count'[n] == InCount(es, n, done) + InCount(rest[1..], n, {})
      ensures n in queue' || n in done <==> count'[n] == 0
    {
      assert count[n] == InCount(es, n, done) + InCount(rest, n, {});
    }
  }

  lemma DrainRanks(es: seq<Edge>, S: set<Id>, done: set<Id>, id: Id, seen: seq<Edge>, e: Edge, rank: map<Id, nat>)
    requires DrainingRanks(es, S, done, id, seen, rank)
    requires e in es && e.from == id && e.to !in done
    ensures DrainingRanks(es, S, done, id, seen + [e], Raise(rank, e.to, rank[id] + 1))
  {
    var rank' := Raise(rank, e.to, rank[id] + 1);
    forall n | n in S ensures Supported(es, done, rank', n) {
      assert Supported(es, done, rank, n);
      if n == e.to && rank[n] < rank[id] + 1 {
        assert rank'[n] == rank'[e.from] + 1;
      } else if rank[n] > 0 {
        var f :| f in es && f.from in done && f.to == n && rank[n] == rank[f.from] + 1;
        assert rank'[n] == rank'[f.from] + 1;
      }
    }
  }

  lemma DrainStep(es: seq<Edge>, S: set<Id>, done: set<Id>, id: Id, out: seq<Edge>, i: nat,
                  queue: seq<Id>, count: map<Id, int>, rank: map<Id, nat>,
                  queue': seq<Id>, count': map<Id, int>, rank': map<Id, nat>)
    requires Draining(es, S, done, id, out, i, queue, count, rank) && i < |out|
    requires out[i].to in count && out[i].to in rank && id in rank
    requires queue' == if count[out[i].to] - 1 == 0 then queue + [out[i].to] else queue
    requires count' == count[out[i].to := count[out[i].to] - 1]
    requires rank' == Raise(rank, out[i].to, rank[id] + 1)
    ensures Draining(es, S, done, id, out, i + 1, queue', count', rank') && rank'[id] == rank[id]
  {
    OutEdgesMembers(es, id);
    assert out[i] in out;
    DrainCounts(es, S, done, id, out[i..], queue, count);
    DrainRanks(es, S, done, id, out[..i], out[i], rank);
    assert out[i..][1..] == out[i + 1..];
    assert out[..i + 1] == out[..i] + [out[i]];
  }

  lemma DrainTarget(es: seq<Edge>, S: set<Id>, done: set<Id>, id: Id, out: seq<Edge>, i: nat,
                    queue: seq<Id>, count: map<Id, int>, rank: map<Id, nat>)
    requires Draining(es, S, done, id, out, i, queue, count, rank) && i < |out|
    ensures out[i].to in count && out[i].to in rank && id in rank
  {
    OutEdgesMembers(es, id);
    assert out[i] in out;
  }

  lemma EndDraining(es: seq<Edge>, S: set<Id>, done: set<Id>, id: Id, out: seq<Edge>,
                    queue: seq<Id>, count: map<Id, int>, rank: map<Id, nat>)
    requires Draining(es, S, done, id, out, |out|, queue, count, rank)
    ensures Kahn(es, S, done, queue, count, rank)
  {
    OutEdgesMembers(es, id);
    assert out[..|out|] == out;
    forall e | e in es && e.from in done ensures rank[e.from] < rank[e.to] {
      if e.from == id {
        assert e in out;
      }
    }
  }

  // In an acyclic graph an empty queue means that every id has been processed.
  lemma DrainedIsComplete(es: seq<Edge>, S: set<Id>, done: set<Id>, count: map<Id, int>, rank: map<Id, nat>)
    requires Kahn(es, S, done, [], count, rank) && Acyclic(EdgeSet(es))
    ensures done == S && LocalRank(EdgeSet(es), rank)
  {
    if u :| u in S && u !in done {
      var s := AcyclicHasSource(EdgeSet(es), S - done, u);
      CountZero(es, s, done);
      forall e | e in es && e.to == s ensures e.from in done {
        assert (e.from, s) in EdgeSet(es);
      }
      assert false;
    }
    assert done == S;
    forall x | x in rank ensures Preceded(EdgeSet(es), rank, x) {
      assert Supported(es, done, rank, x);
      if rank[x] > 0 {
        var e :| e in es && e.from in done && e.to == x && rank[x] == rank[e.from] + 1;
        assert (e.from, x) in EdgeSet(es);
      }
    }
  }

  // The edges whose key is not among the keys, in order.
  function KeepEdges(edges: seq<Edge>, keys: set<string>): (r: seq<Edge>)
    ensures forall e :: e in r <==> e in edges && EdgeKey((e.from, e.to)) !in keys
  {
    if edges == [] then []
    else
      assert edges == [edges[0]] + edges[1..];
      (if EdgeKey((edges[0].from, edges[0].to)) !in keys then [edges[0]] else []) + KeepEdges(edges[1..], keys)
  }

  lemma KeepEdgesSet(edges: seq<Edge>, keys: set<string>)
    ensures EdgeSet(KeepEdges(edges, keys)) == Remaining(EdgeSet(edges), keys)
  {
    forall e | e in Remaining(EdgeSet(edges), keys) ensures e in EdgeSet(KeepEdges(edges, keys)) {
      assert Edge(e.0, e.1) in KeepEdges(edges, keys);
    }
  }

  ghost predicate Tabulated(S: set<Id>, es: seq<Edge>, count: map<Id, int>, outgoing: map<Id, seq<Edge>>) {
    && count.Keys == outgoing.Keys == S
    && forall n {:trigger n in S} :: n in S ==> count[n] == InCount(es, n, {}) && outgoing[n] == OutEdges(es, n)
  }

  lemma TabulateStep(S: set<Id>, es: seq<Edge>, i: nat, count: map<Id, int>, outgoing: map<Id, seq<Edge>>)
    requires i < |es| && es[i].from in S && es[i].to in S && Tabulated(S, es[..i], count, outgoing)
    ensures Tabulated(S, es[..i + 1], count[es[i].to := count[es[i].to] + 1],
                      outgoing[es[i].from := outgoing[es[i].from] + [es[i]]])
  {
    assert es[..i + 1] == es[..i] + [es[i]];
    forall n | n in S
      ensures InCount(es[..i + 1], n, {}) == InCount(es[..i], n, {}) + if es[i].to == n then 1 else 0
      ensures OutEdges(es[..i + 1], n) == OutEdges(es[..i], n) + if es[i].from == n then [es[i]] else []
    {
      CountAppend(es[..i], es[i], n, {});
    }
  }

  // Incoming counts and outgoing lists.
  method Tabulate(nodeIds: seq<Id>, es: seq<Edge>) returns (count: map<Id, int>, outgoing: map<Id, seq<Edge>>)
    requires forall e :: e in es ==> e.from in nodeIds && e.to in nodeIds
    ensures Tabulated(Elements(nodeIds), es, count, outgoing)
  {
    count := map id | id in nodeIds :: 0;
    outgoing := map id | id in nodeIds :: [];
    for i := 0 to |es|
      invariant Tabulated(Elements(nodeIds), es[..i], count, outgoing)
    {
      var edge := es[i];
      assert edge in es;
      TabulateStep(Elements(nodeIds), es, i, count, outgoing);
      count := count[edge.to := count[edge.to] + 1];
      outgoing := outgoing[edge.from := outgoing[edge.from] + [edge]];
    }
    assert es[..|es|] == es;
  }

  // The ids without incoming edges, in order.
  method Sources(nodeIds: seq<Id>, count: map<Id, int>) returns (queue: seq<Id>)
    requires NoDup(nodeIds) && count.Keys == Elements(nodeIds)
    ensures NoDup(queue) && forall n :: n in queue <==> n in nodeIds && count[n] == 0
  {
    queue := [];
    for i := 0 to |nodeIds|
      invariant NoDup(queue) && forall n :: n in queue <==> n in nodeIds[..i] && count[n] == 0
    {
      assert nodeIds[..i + 1] == nodeIds[..i] + [nodeIds[i]];
      assert nodeIds[i] !in nodeIds[..i];
      if count[nodeIds[i]] == 0 {
        queue := queue + [nodeIds[i]];
      }
    }
    assert nodeIds[..|nodeIds|] == nodeIds;
  }

  // One out-edge of the node being processed.
  method DrainEdge(es: seq<Edge>, ghost S: set<Id>, ghost done: set<Id>, id: Id, out: seq<Edge>, i: nat, sourceRank: nat,
                   queue0: seq<Id>, count0: map<Id, int>, rank0: map<Id, nat>)
    returns (queue: seq<Id>, count: map<Id, int>, rank: map<Id, nat>)
    requires Draining(es, S, done, id, out, i, queue0, count0, rank0) && i < |out|
    requires id in rank0 && rank0[id] == sourceRank
    ensures Draining(es, S, done, id, out, i + 1, queue, count, rank)
    ensures id in rank && rank[id] == sourceRank
  {
    DrainTarget(es, S, done, id, out, i, queue0, count0, rank0);
    var edge := out[i];
    rank := Raise(rank0, edge.to, sourceRank + 1);
    var nextCount := count0[edge.to] - 1;
    count := count0[edge.to := nextCount];
    queue := if nextCount == 0 then queue0 + [edge.to] else queue0;
    DrainStep(es, S, done, id, out, i, queue0, count0, rank0, queue, count, rank);
  }

  // The inner loop: take the out-edges of id off the counts and raise the ranks behind them.
  method DrainNode(es: seq<Edge>, ghost S: set<Id>, ghost done: set<Id>, id: Id, out: seq<Edge>,
                   queue0: seq<Id>, count0: map<Id, int>, rank0: map<Id, nat>)
    returns (queue: seq<Id>, count: map<Id, int>, rank: map<Id, nat>)
    requires Draining(es, S, done, id, out, 0, queue0, count0, rank0)
    ensures Kahn(es, S, done, queue, count, rank)
  {
    queue, count, rank := queue0, count0, rank0;
    var sourceRank := rank[id];
    for i := 0 to |out|
      invariant Draining(es, S, done, id, out, i, queue, count, rank)
      invariant id in rank && rank[id] == sourceRank
    {
      queue, count, rank := DrainEdge(es, S, done, id, out, i, sourceRank, queue, count, rank);
    }
    EndDraining(es, S, done, id, out, queue, count, rank);
  }

  // The outer loop, up to the empty queue.
  method DrainQueue(es: seq<Edge>, ghost S: set<Id>, outgoing: map<Id, seq<Edge>>, queue0: seq<Id>,
                    count0: map<Id, int>, rank0: map<Id, nat>)
    returns (processed: set<Id>, rank: map<Id, nat>)
    requires Kahn(es, S, {}, queue0, count0, rank0)
    requires outgoing.Keys == S && forall n :: n in S ==> outgoing[n] == OutEdges(es, n)
    ensures exists count :: Kahn(es, S, processed, [], count, rank)
  {
    processed := {};
    var queue, incomingCount := queue0, count0;
    rank := rank0;
    while queue != []
      invariant Kahn(es, S, processed, queue, incomingCount, rank)
      decreases S - processed
    {
      var id := queue[0];
      assert id in queue && id in S - processed;
      StartDraining(es, S, processed, queue, incomingCount, rank, outgoing[id]);
      queue := queue[1..];
      processed := processed + {id};
      queue, incomingCount, rank := DrainNode(es, S, processed, id, outgoing[id], queue, incomingCount, rank);
    }
  }

  method BuildRanks(nodeIds: seq<Id>, edges: seq<Edge>, backEdges: set<string>) returns (rank: map<Id, nat>)
    requires NoDup(nodeIds) && forall e :: e in edges ==> e.from in nodeIds && e.to in nodeIds
    ensures rank.Keys == Elements(nodeIds)
    ensures Acyclic(Remaining(EdgeSet(edges), backEdges)) ==>
              LocalRank(Remaining(EdgeSet(edges), backEdges), rank)
              && LongestPathRank(Remaining(EdgeSet(edges), backEdges), rank)
  {
    ghost var S := Elements(nodeIds);
    rank := map id | id in nodeIds :: 0;
    var acyclicEdges := KeepEdges(edges, backEdges);
    KeepEdgesSet(edges, backEdges);
    var incomingCount, outgoing := Tabulate(nodeIds, acyclicEdges);
    var queue := Sources(nodeIds, incomingCount);
    StartKahn(acyclicEdges, S, queue, incomingCount, outgoing, rank);
    var processed;
    processed, rank := DrainQueue(acyclicEdges, S, outgoing, queue, incomingCount, rank);
    ghost var drained := rank;
    if Acyclic(EdgeSet(acyclicEdges)) {
      ghost var count :| Kahn(acyclicEdges, S, processed, [], count, rank);
      DrainedIsComplete(acyclicEdges, S, processed, count, rank);
      LocalIsLongest(EdgeSet(acyclicEdges), rank);
    }
    for i := 0 to |nodeIds|
      invariant rank.Keys == S && (processed == S ==> rank == drained)
    {
      assert nodeIds[i] in S;
      if nodeIds[i] !in processed {
        rank := rank[nodeIds[i] := 0];
      }
    }
  }

  lemma StartKahn(es: seq<Edge>, S: set<Id>, queue: seq<Id>, count: map<Id, int>,
                  outgoing: map<Id, seq<Edge>>, rank: map<Id, nat>)
    requires Tabulated(S, es, count, outgoing) && NoDup(queue)
    requires forall n :: n in queue <==> n in S && count[n] == 0
    requires rank.Keys == S && forall n :: n in S ==> rank[n] == 0
    requires forall e :: e in es ==> e.from in S && e.to in S
    ensures Kahn(es, S, {}, queue, count, rank)
  {
  }
}
