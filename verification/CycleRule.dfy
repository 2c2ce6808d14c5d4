// The cycle rule of the architecture suite: scoped adjacency, Tarjan's search, violations.
module CycleRule {
  import opened Graphs
  import opened Seqs
  import opened Sorting
  import opened TarjanTheory

  datatype Node = Node(id: Id, path: string)
  datatype Graph = Graph(nodes: seq<Node>, edges: seq<Edge>)
  datatype Violation = Cycle(path: seq<Id>, edgeCount: nat)

  function ScopeOf(nodes: seq<Node>, matches: string -> bool): set<Id> {
    set n | n in nodes && matches(n.path) :: n.id
  }

  function ScopedEdges(edges: seq<Edge>, scope: set<Id>): Edges {
    set e | e in edges && e.from in scope && e.to in scope :: (e.from, e.to)
  }

  ghost predicate Represents(adjacency: map<Id, seq<Id>>, E: Edges) {
    && (forall k, t {:trigger (k, t) in E} :: k in adjacency ==> (t in adjacency[k] <==> (k, t) in E))
    && forall e :: e in E ==> e.0 in adjacency && e.1 in adjacency
  }

  // Popping an empty id is read as the end of the stack: it is visited first, its call pops the whole
  // stack, and it stays in onStack for good. From then on the search goes on as if that call had never
  // finished, on the graph without the edges out of the ids visited so far. `base` holds the empty id
  // once it has been popped, `first` the components emitted up to then, `singles` the other ids visited
  // up to then.
  datatype Phase = Phase(base: seq<Id>, first: seq<seq<Id>>, singles: seq<seq<Id>>)

  ghost function Cut(p: Phase): set<Id> {
    Elements(p.base) + Flat(p.singles)
  }

  // The edges the search still follows.
  ghost function View(E: Edges, p: Phase): Edges {
    set e | e in E && e.0 !in Cut(p)
  }

  // The components emitted until the empty id was popped, and the list emitted for it: the ids that
  // reach it and are reached by it, without the empty id itself.
  ghost predicate FirstPhase(E: Edges, p: Phase) {
    && p.first != []
    && var n := |p.first| - 1;
       var rest, last := p.first[..n], p.first[n];
    && Condensed(E, rest)
    && (forall y {:trigger Reach(E, "", y)} :: y in Cut(p) <==> Reach(E, "", y))
    && (forall y {:trigger Reach(E, "", y)} :: y in Flat(rest) <==> Reach(E, "", y) && !Reach(E, y, ""))
    && NoDup(last) && forall y {:trigger Mutual(E, "", y)} :: y in last <==> y != "" && Mutual(E, "", y)
  }

  // The state of a search over `adjacency`.
  ghost predicate Sound(adjacency: map<Id, seq<Id>>, E: Edges, p: Phase, s: Search, onStack: set<Id>) {
    && Represents(adjacency, E)
    && Cut(p) <= s.index.Keys <= adjacency.Keys
    && Inv(View(E, p), s) && onStack == Elements(s.stack) && s.low.Keys <= s.index.Keys
    && ("" in s.index ==> s.stack != [] && s.stack[0] == "" && "" in s.gray)
  }

  // How the variables of the program stand for the state of the search.
  ghost predicate Tracks(adjacency: map<Id, seq<Id>>, E: Edges, components: seq<seq<Id>>, stack: seq<Id>,
                         s: Search, p: Phase) {
    && s.stack == p.base + stack
    && (if p.base == [] then p.first == p.singles == [] else p.base == [""] && "" in adjacency && FirstPhase(E, p))
    && p.singles <= s.comps && components == p.first + s.comps[|p.singles|..]
    && forall c {:trigger c in components} :: c in components ==> "" !in c && SortedBy(c, StringLe)
  }

  ghost predicate Holds(adjacency: map<Id, seq<Id>>, E: Edges, components: seq<seq<Id>>, stack: seq<Id>,
                        onStack: set<Id>, s: Search, p: Phase) {
    Sound(adjacency, E, p, s, onStack) && Tracks(adjacency, E, components, stack, s, p)
  }

  // An empty id is visited before all others.
  ghost predicate EmptyFirst(adjacency: map<Id, seq<Id>>, visited: set<Id>, x: Id) {
    if x == "" then visited == {} else "" in adjacency ==> "" in visited
  }

  // A number missing from the table counts as zero.
  function GetOr0(m: map<Id, nat>, k: Id): nat {
    if k in m then m[k] else 0
  }

  function Min(a: nat, b: nat): nat {
    if a <= b then a else b
  }

  // What the pop loop does when x is at position p of the stack: the ids from x upwards, but not
  // an empty id, are collected.
  ghost predicate PoppedOff(stack: seq<Id>, onStack: set<Id>, p: int, x: Id, stack': seq<Id>, onStack': set<Id>,
                            component: seq<Id>) {
    && 0 <= p < |stack| && stack' == stack[..p]
    && var q := if x == "" then p + 1 else p;
       multiset(component) == multiset(stack[q..]) && onStack' == onStack - Elements(stack[q..])
  }

  // Position p holds x, and no empty id is above it.
  ghost predicate Poppable(stack: seq<Id>, p: int, x: Id) {
    && 0 <= p < |stack| && stack[p] == x && NoDup(stack)
    && forall i :: p < i < |stack| ==> stack[i] != ""
  }

  // The stack down to position n has been popped into the component.
  ghost predicate Popping(all: seq<Id>, onStack0: set<Id>, n: nat, stack: seq<Id>, onStack: set<Id>, component: seq<Id>) {
    && n <= |all| && stack == all[..n]
    && multiset(component) == multiset(all[n..]) && onStack == onStack0 - Elements(all[n..])
  }

  lemma PopNothing(stack: seq<Id>, onStack: set<Id>)
    ensures Popping(stack, onStack, |stack|, stack, onStack, [])
  {
  }

  lemma PopOne(all: seq<Id>, onStack0: set<Id>, n: nat, stack: seq<Id>, onStack: set<Id>, component: seq<Id>)
    requires Popping(all, onStack0, n, stack, onStack, component) && n > 0
    ensures all[n - 1] == stack[n - 1]
    ensures Popping(all, onStack0, n - 1, stack[..n - 1], onStack - {all[n - 1]}, component + [all[n - 1]])
  {
    assert all[n - 1..] == [all[n - 1]] + all[n..];
  }

  // The part of the search's state that is not in the program's variables.
  datatype Shadow = Shadow(stack: seq<Id>, comps: seq<seq<Id>>, gray: set<Id>)

  class Tarjan {
    const adjacency: map<Id, seq<Id>>
    ghost const E: Edges
    var visitIndex: nat
    var indices: map<Id, nat>
    var lowLinks: map<Id, nat>
    var onStack: set<Id>
    var stack: seq<Id>
    var components: seq<seq<Id>>
    ghost var shadow: Shadow
    ghost var phase: Phase

    ghost function State(): Search
      reads this
    {
      Search(visitIndex, indices, lowLinks, shadow.stack, shadow.comps, shadow.gray)
    }

    ghost predicate Valid()
      reads this
    {
      Holds(adjacency, E, components, stack, onStack, State(), phase)
    }

    constructor (adjacency: map<Id, seq<Id>>, ghost E: Edges)
      requires Represents(adjacency, E)
      ensures Valid() && this.adjacency == adjacency && this.E == E
      ensures indices == map[] && shadow.gray == {}
    {
      this.adjacency := adjacency;
      this.E := E;
      visitIndex, indices, lowLinks := 0, map[], map[];
      onStack, stack, components := {}, [], [];
      shadow := Shadow([], [], {});
      phase := Phase([], [], []);
    }

    // The inner loop of strongConnect: pop up to and including nodeId, or up to an empty id. With nodeId on
    // the stack it does not run out.
    method PopComponent(nodeId: Id, ghost p: int) returns (component: seq<Id>)
      requires Poppable(stack, p, nodeId)
      modifies this`stack, this`onStack
      ensures "" !in component
      ensures PoppedOff(old(stack), old(onStack), p, nodeId, stack, onStack, component)
    {
      component := [];
      ghost var all, n := stack, |stack|;
      PopNothing(stack, onStack);
      while true
        invariant "" !in component && p < n && Popping(all, old(onStack), n, stack, onStack, component)
        decreases n
      {
        var memberId := stack[|stack| - 1];
        PopOne(all, old(onStack), n, stack, onStack, component);
        stack := stack[..|stack| - 1];
        if memberId == "" { break; }
        n := n - 1;
        onStack := onStack - {memberId};
        component := component + [memberId];
        if memberId == nodeId { break; }
      }
    }

    method AddComponent(component: seq<Id>, ghost next: Shadow, ghost nextPhase: Phase, ghost t: Search)
      requires t == Search(visitIndex, indices, lowLinks, next.stack, next.comps, next.gray)
      requires Holds(adjacency, E, components + [component], stack, onStack, t, nextPhase)
      modifies this`components, this`shadow, this`phase
      ensures Valid() && State() == t && phase == nextPhase
    {
      components := components + [component];
      shadow, phase := next, nextPhase;
    }

    // The end of strongConnect for the root of a component: emit the stack segment above it.
    method EmitComponent(nodeId: Id, ghost a: Search)
      requires Valid() && nodeId in indices && Finishing(adjacency, E, a, State(), phase, nodeId)
      requires GetOr0(lowLinks, nodeId) == GetOr0(indices, nodeId)
      modifies this`stack, this`onStack, this`components, this`shadow, this`phase
      ensures Valid() && Finished(E, a, State(), old(phase), phase, nodeId)
    {
      hide Finishing, Holds, PoppedOff, Poppable;
      ghost var s, h := State(), phase;
      ghost var onStack0, stack0 := onStack, stack;
      SegmentInStack(adjacency, E, a, s, onStack, h, components, stack, nodeId);
      var component := PopComponent(nodeId, |a.stack| - |h.base|);
      ghost var next, t := ComponentEmitted(adjacency, E, components, stack0, onStack0, a, s, h, stack, onStack, nodeId, component);
      AddComponent(SortStrings(component), Shadow(t.stack, t.comps, t.gray), next, t);
    }

    ghost method Retire(next: Shadow, t: Search)
      requires t == Search(visitIndex, indices, lowLinks, next.stack, next.comps, next.gray)
      requires Holds(adjacency, E, components, stack, onStack, t, phase)
      modifies this`shadow
      ensures Valid() && State() == t && shadow == next
    {
      shadow := next;
    }

    // The tail of strongConnect.
    method Finish(nodeId: Id, ghost a: Search)
      requires Valid() && nodeId in indices && Finishing(adjacency, E, a, State(), phase, nodeId)
      modifies this`stack, this`onStack, this`components, this`shadow, this`phase
      ensures Valid() && Finished(E, a, State(), old(phase), phase, nodeId)
    {
      hide Inv, Looping, Visited, Tracks;
      if GetOr0(lowLinks, nodeId) == GetOr0(indices, nodeId) {
        EmitComponent(nodeId, a);
      } else {
        NodeLeft(adjacency, E, components, stack, onStack, a, State(), phase, nodeId);
        Retire(shadow.(gray := a.gray), Leave(a, State()));
      }
    }

    // A neighbour that has not been visited yet.
    method SeeUnvisited(nodeId: Id, i: nat, ghost a: Search)
      requires Handling(nodeId, i, a) && adjacency[nodeId][i] !in indices
      modifies this
      ensures Valid() && old(indices.Keys) <= indices.Keys && phase == old(phase)
      ensures Looping(View(E, phase), a, State(), nodeId, Elements(adjacency[nodeId][..i]) + {adjacency[nodeId][i]})
      decreases adjacency.Keys - indices.Keys, 1
    {
      hide Inv, Looping, Visited, Tracks;
      var neighbor := adjacency[nodeId][i];
      ghost var s := State();
      StrongConnect(neighbor);
      ghost var r := State();
      ChildSeen(adjacency, E, components, stack, onStack, a, s, r,
                r.(low := r.low[nodeId := Min(GetOr0(r.low, nodeId), GetOr0(r.low, neighbor))]),
                phase, nodeId, Elements(adjacency[nodeId][..i]), neighbor);
      lowLinks := lowLinks[nodeId := Min(GetOr0(lowLinks, nodeId), GetOr0(lowLinks, neighbor))];
    }

    // The i-th neighbour of nodeId is about to be handled, in a call entered in state a.
    ghost predicate Handling(nodeId: Id, i: nat, a: Search)
      reads this
    {
      && Valid() && nodeId in indices && ("" in adjacency ==> "" in indices)
      && nodeId in adjacency && nodeId !in Cut(phase) && i < |adjacency[nodeId]|
      && Looping(View(E, phase), a, State(), nodeId, Elements(adjacency[nodeId][..i])) && a.low.Keys <= a.index.Keys
      && (nodeId, adjacency[nodeId][i]) in View(E, phase)
    }

    // One iteration of the neighbour loop.
    method SeeNeighbor(nodeId: Id, i: nat, ghost a: Search)
      requires Handling(nodeId, i, a)
      modifies this
      ensures Valid() && old(indices.Keys) <= indices.Keys && phase == old(phase)
      ensures Looping(View(E, phase), a, State(), nodeId, Elements(adjacency[nodeId][..i + 1]))
      decreases adjacency.Keys - indices.Keys, 2
    {
      hide Inv, Looping, Tracks;
      var neighbor := adjacency[nodeId][i];
      ghost var seen := Elements(adjacency[nodeId][..i]);
      ElementsStep(adjacency[nodeId], i);
      if neighbor !in indices {
        SeeUnvisited(nodeId, i, a);
      } else if neighbor in onStack {
        ghost var s := State();
        StackSeen(adjacency, E, components, stack, onStack, a, s,
                  s.(low := s.low[nodeId := Min(GetOr0(s.low, nodeId), GetOr0(s.index, neighbor))]),
                  phase, nodeId, seen, neighbor);
        lowLinks := lowLinks[nodeId := Min(GetOr0(lowLinks, nodeId), GetOr0(indices, neighbor))];
      } else {
        SeeDone(View(E, phase), a, State(), nodeId, seen, neighbor);
      }
    }

    // The head of strongConnect: number nodeId and push it.
    method Push(nodeId: Id)
      modifies this`indices, this`lowLinks, this`visitIndex, this`stack, this`onStack, this`shadow
      ensures State() == Enter(old(State()), nodeId)
      ensures stack == old(stack) + [nodeId] && onStack == old(onStack) + {nodeId}
    {
      indices := indices[nodeId := visitIndex];
      lowLinks := lowLinks[nodeId := visitIndex];
      visitIndex := visitIndex + 1;
      stack := stack + [nodeId];
      onStack := onStack + {nodeId};
      shadow := shadow.(stack := shadow.stack + [nodeId], gray := shadow.gray + {nodeId});
    }

    method Open(nodeId: Id)
      requires Valid() && nodeId in adjacency && nodeId !in indices
      requires EmptyFirst(adjacency, indices.Keys, nodeId)
      modifies this`indices, this`lowLinks, this`visitIndex, this`stack, this`onStack, this`shadow
      ensures Valid() && indices.Keys == old(indices.Keys) + {nodeId}
      ensures Looping(View(E, phase), old(State()), State(), nodeId, {})
    {
      hide Inv, Looping, Tracks;
      NodeEntered(adjacency, E, components, stack, onStack, State(), phase, Enter(State(), nodeId), nodeId);
      Push(nodeId);
    }

    // The neighbour loop of strongConnect.
    method SeeNeighbors(nodeId: Id, ghost a: Search)
      requires Valid() && nodeId in indices && nodeId in adjacency && nodeId !in Cut(phase)
      requires "" in adjacency ==> "" in indices
      requires Looping(View(E, phase), a, State(), nodeId, {}) && a.low.Keys <= a.index.Keys
      modifies this
      ensures Valid() && old(indices.Keys) <= indices.Keys && phase == old(phase)
      ensures Looping(View(E, phase), a, State(), nodeId, Elements(adjacency[nodeId]))
      decreases adjacency.Keys - indices.Keys, 3
    {
      hide Inv, Looping, Tracks;
      ghost var all := adjacency[nodeId];
      assert Elements(all[..0]) == {};
      for i := 0 to |adjacency[nodeId]|
        invariant Valid() && old(indices.Keys) <= indices.Keys && phase == old(phase)
        invariant Looping(View(E, phase), a, State(), nodeId, Elements(all[..i]))
      {
        assert (nodeId, all[i]) in View(E, phase);
        SeeNeighbor(nodeId, i, a);
      }
      assert all[..|all|] == all;
    }

    method StrongConnect(nodeId: Id)
      requires Valid() && nodeId in adjacency && nodeId !in indices
      requires EmptyFirst(adjacency, indices.Keys, nodeId)
      modifies this
      ensures Valid() && nodeId in indices
      ensures old(indices.Keys) <= indices.Keys
      ensures Finished(E, old(State()), State(), old(phase), phase, nodeId)
      decreases adjacency.Keys - indices.Keys, 0
    {
      hide Inv, Looping, Visited, Tracks, Exhausted;
      ghost var a := State();
      ghost var onStack0, stack0, components0 := onStack, stack, components;
      assert Holds(adjacency, E, components0, stack0, onStack0, a, phase);
      Open(nodeId);
      SeeNeighbors(nodeId, a);
      ReadyToFinish(adjacency, E, components0, stack0, onStack0, a, phase, components, stack, onStack, State(), nodeId);
      Finish(nodeId, a);
    }
  }

  lemma SortKeepsMembers(s: seq<Id>)
    ensures forall x :: x in SortStrings(s) <==> x in s
    ensures Elements(SortStrings(s)) == Elements(s)
  {
    forall x ensures x in SortStrings(s) <==> x in s {
      SortByMember(s, StringLe, x);
    }
  }

  lemma ChildSeen(adjacency: map<Id, seq<Id>>, E: Edges, components: seq<seq<Id>>, stack: seq<Id>, onStack: set<Id>,
                  a: Search, s: Search, r: Search, t: Search, p: Phase, x: Id, seen: set<Id>, v: Id)
    requires Holds(adjacency, E, components, stack, onStack, r, p) && x in s.index && s.index.Keys <= r.index.Keys
    requires (x, v) in View(E, p) && v !in s.index
    requires Looping(View(E, p), a, s, x, seen) && Visited(View(E, p), s, r, v) && a.low.Keys <= a.index.Keys
    requires t == r.(low := r.low[x := Min(GetOr0(r.low, x), GetOr0(r.low, v))])
    ensures Holds(adjacency, E, components, stack, onStack, t, p)
    ensures Looping(View(E, p), a, t, x, seen + {v})
  {
    LowKeepsTracks(adjacency, E, components, stack, r, t, p);
    LoweredByChild(View(E, p), a, s, r, t, x, seen, v);
  }

  // Low-links are not part of what the program's variables stand for.
  lemma LowKeepsTracks(adjacency: map<Id, seq<Id>>, E: Edges, components: seq<seq<Id>>, stack: seq<Id>, r: Search, t: Search,
                       p: Phase)
    requires Tracks(adjacency, E, components, stack, r, p) && t == r.(low := t.low)
    ensures Tracks(adjacency, E, components, stack, t, p)
  {
  }

  lemma StackSeen(adjacency: map<Id, seq<Id>>, E: Edges, components: seq<seq<Id>>, stack: seq<Id>, onStack: set<Id>,
                  a: Search, s: Search, t: Search, p: Phase, x: Id, seen: set<Id>, v: Id)
    requires Holds(adjacency, E, components, stack, onStack, s, p) && x in s.index
    requires (x, v) in View(E, p) && v in onStack && Looping(View(E, p), a, s, x, seen)
    requires t == s.(low := s.low[x := Min(GetOr0(s.low, x), GetOr0(s.index, v))])
    ensures Holds(adjacency, E, components, stack, onStack, t, p)
    ensures Looping(View(E, p), a, t, x, seen + {v})
  {
    LowKeepsTracks(adjacency, E, components, stack, s, t, p);
    LoweredByStack(View(E, p), a, s, t, x, seen, v);
  }

  lemma NodeEntered(adjacency: map<Id, seq<Id>>, E: Edges, components: seq<seq<Id>>, stack: seq<Id>, onStack: set<Id>,
                    a: Search, p: Phase, t: Search, x: Id)
    requires Holds(adjacency, E, components, stack, onStack, a, p) && x in adjacency && x !in a.index
    requires EmptyFirst(adjacency, a.index.Keys, x) && t == Enter(a, x)
    ensures Holds(adjacency, E, components, stack + [x], onStack + {x}, t, p)
    ensures Looping(View(E, p), a, t, x, {})
  {
    EnteredSound(adjacency, E, a, t, p, onStack, x);
    Associative(p.base, stack, [x]);
  }

  lemma EnteredSound(adjacency: map<Id, seq<Id>>, E: Edges, a: Search, t: Search, p: Phase, onStack: set<Id>, x: Id)
    requires Sound(adjacency, E, p, a, onStack) && x in adjacency && x !in a.index
    requires EmptyFirst(adjacency, a.index.Keys, x) && t == Enter(a, x)
    ensures Sound(adjacency, E, p, t, onStack + {x})
    ensures Looping(View(E, p), a, t, x, {})
  {
    hide Looping, AllAnchored, Condensed, Flat;
    EnterKeeps(View(E, p), a, x);
    if x == "" {
      NothingVisited(a);
    }
  }

  // All neighbours of x have been handled, in a call entered in state a.
  ghost predicate Finishing(adjacency: map<Id, seq<Id>>, E: Edges, a: Search, s: Search, p: Phase, x: Id) {
    && x in adjacency && p.base <= a.stack && (x == "" ==> a.index.Keys == {} && Cut(p) == {})
    && Exhausted(View(E, p), a, s, x, Elements(adjacency[x]))
  }

  lemma ReadyToFinish(adjacency: map<Id, seq<Id>>, E: Edges, components: seq<seq<Id>>, stack: seq<Id>, onStack: set<Id>,
                      a: Search, p: Phase, components': seq<seq<Id>>, stack': seq<Id>, onStack': set<Id>,
                      s: Search, x: Id)
    requires Holds(adjacency, E, components, stack, onStack, a, p)
    requires Holds(adjacency, E, components', stack', onStack', s, p)
    requires x in adjacency && EmptyFirst(adjacency, a.index.Keys, x)
    requires Looping(View(E, p), a, s, x, Elements(adjacency[x]))
    ensures Finishing(adjacency, E, a, s, p, x)
  {
    hide Inv, Looping, FirstPhase;
    forall e | e in View(E, p) && e.0 == x ensures e.1 in Elements(adjacency[x]) {
      assert (x, e.1) in E;
    }
  }

  // The contract of strongConnect(x), from state a to state t. The call for an empty id ends the first phase.
  ghost predicate Finished(E: Edges, a: Search, t: Search, p: Phase, next: Phase, x: Id) {
    if x == "" then next.base == [""] && t.gray == {""}
    else next == p && t.gray == a.gray && Visited(View(E, p), a, t, x)
  }

  lemma SuffixAt<T>(base: seq<T>, stack: seq<T>, k: nat)
    requires |base| <= k <= |base| + |stack|
    ensures (base + stack)[..k] == base + stack[..k - |base|]
    ensures (base + stack)[k..] == stack[k - |base|..]
  {
  }

  lemma StackDistinct(s: Search)
    requires StackOrdered(s)
    ensures NoDup(s.stack)
  {
  }

  lemma TailDistinct<T>(base: seq<T>, stack: seq<T>)
    requires NoDup(base + stack)
    ensures NoDup(stack)
  {
    forall i, j | 0 <= i < j < |stack| ensures stack[i] != stack[j] {
      assert (base + stack)[|base| + i] == stack[i] && (base + stack)[|base| + j] == stack[j];
    }
  }

  // x is at position n of the whole stack, whose only empty id can be the bottom one.
  lemma StackAbove(base: seq<Id>, stack: seq<Id>, n: nat, x: Id)
    requires NoDup(base + stack) && |base| <= n < |base| + |stack| && (base + stack)[n] == x
    requires "" in base + stack ==> (base + stack)[0] == ""
    ensures Poppable(stack, n - |base|, x)
    ensures base + stack[..n - |base|] == (base + stack)[..n] && stack[n - |base|..] == (base + stack)[n..]
  {
    SuffixAt(base, stack, n);
    TailDistinct(base, stack);
    forall i | n - |base| < i < |stack| ensures stack[i] != "" {
      assert (base + stack)[|base| + i] == stack[i] && (base + stack)[0] != (base + stack)[|base| + i];
    }
  }

  lemma EmptyAtBottom(adjacency: map<Id, seq<Id>>, E: Edges, p: Phase, s: Search, onStack: set<Id>)
    requires Sound(adjacency, E, p, s, onStack)
    ensures NoDup(s.stack) && ("" in s.stack ==> s.stack[0] == "")
  {
    StackDistinct(s);
    assert "" in s.stack ==> "" in s.index;
  }

  // The ids above x on the stack are those collected.
  lemma SegmentInStack(adjacency: map<Id, seq<Id>>, E: Edges, a: Search, s: Search, onStack: set<Id>,
                       p: Phase, components: seq<seq<Id>>, stack: seq<Id>, x: Id)
    requires Holds(adjacency, E, components, stack, onStack, s, p) && Finishing(adjacency, E, a, s, p, x)
    ensures Poppable(stack, |a.stack| - |p.base|, x)
    ensures p.base + stack[..|a.stack| - |p.base|] == s.stack[..|a.stack|]
    ensures stack[|a.stack| - |p.base|..] == s.stack[|a.stack|..]
  {
    hide Inv, CrossBound, Grows;
    EmptyAtBottom(adjacency, E, p, s, onStack);
    StackAbove(p.base, stack, |a.stack|, x);
  }

  lemma ComponentTracked(adjacency: map<Id, seq<Id>>, E: Edges, components: seq<seq<Id>>, stack: seq<Id>, s: Search, p: Phase,
                         c: seq<Id>, stack': seq<Id>, t: Search)
    requires Tracks(adjacency, E, components, stack, s, p) && "" !in c && SortedBy(c, StringLe)
    requires t.comps == s.comps + [c] && t.stack == p.base + stack'
    ensures Tracks(adjacency, E, components + [c], stack', t, p)
  {
    var n := |p.singles|;
    assert t.comps[n..] == s.comps[n..] + [c];
    Associative(p.first, s.comps[n..], [c]);
    AddedTo(components, c);
  }

  lemma AddedTo<T>(s: seq<T>, x: T)
    ensures forall y :: y in s + [x] <==> y in s || y == x
  {
  }

  // x stays on the stack: it is not the root of its component.
  lemma NodeLeft(adjacency: map<Id, seq<Id>>, E: Edges, components: seq<seq<Id>>, stack: seq<Id>, onStack: set<Id>,
                 a: Search, s: Search, p: Phase, x: Id)
    requires Holds(adjacency, E, components, stack, onStack, s, p)
    requires Finishing(adjacency, E, a, s, p, x) && GetOr0(s.low, x) != GetOr0(s.index, x)
    ensures x != "" && Holds(adjacency, E, components, stack, onStack, Leave(a, s), p) && Visited(View(E, p), a, Leave(a, s), x)
  {
    LeaveKeeps(View(E, p), a, s, x, Elements(adjacency[x]));
    if x == "" {
      BottomIsRoot(View(E, p), a, s, x);
    }
    if "" in s.index {
      BottomStays(View(E, p), a, s, x);
    }
  }

  // The bottom of the stack is a root.
  lemma BottomIsRoot(E: Edges, a: Search, s: Search, x: Id)
    requires Looping(E, a, s, x, {}) && a.index.Keys == {}
    ensures a.stack == [] && s.low[x] == s.index[x]
  {
    NothingVisited(a);
    var w :| w in s.stack && s.index[w] == s.low[x];
    var i :| 0 <= i < |s.stack| && s.stack[i] == w;
  }

  lemma NothingVisited(a: Search)
    requires StackOrdered(a) && a.index.Keys == {}
    ensures a.stack == []
  {
    HasFirst(a.stack);
    assert forall y :: y in a.stack ==> y in a.index.Keys;
  }

  lemma HasFirst<T>(s: seq<T>)
    ensures s == [] || s[0] in s
  {
  }

  // The empty id at the bottom of the stack, and its unfinished call, are older than x.
  lemma BottomStays(E: Edges, a: Search, s: Search, x: Id)
    requires Looping(E, a, s, x, {}) && x != "" && s.stack[0] == "" && "" in s.gray
    ensures a.stack != [] && a.stack[0] == "" && "" in a.gray
  {
  }

  // The root of a component other than the empty id has emitted the stack segment above it.
  lemma RootEmitted(adjacency: map<Id, seq<Id>>, E: Edges, components: seq<seq<Id>>, stack: seq<Id>, onStack: set<Id>,
                    a: Search, s: Search, stack': seq<Id>, onStack': set<Id>, p: Phase, x: Id, component: seq<Id>)
    requires Holds(adjacency, E, components, stack, onStack, s, p) && x != "" && "" !in component
    requires Finishing(adjacency, E, a, s, p, x) && GetOr0(s.low, x) == GetOr0(s.index, x)
    requires PoppedOff(stack, onStack, |a.stack| - |p.base|, x, stack', onStack', component)
    ensures var t := s.(stack := p.base + stack', comps := s.comps + [SortStrings(component)], gray := a.gray);
            && Holds(adjacency, E, components + [SortStrings(component)], stack', onStack', t, p)
            && Visited(View(E, p), a, t, x)
  {
    SortKeepsMembers(component);
    SortStringsSorted(component);
    var t := s.(stack := p.base + stack', comps := s.comps + [SortStrings(component)], gray := a.gray);
    ComponentTracked(adjacency, E, components, stack, s, p, SortStrings(component), stack', t);
    SegmentInStack(adjacency, E, a, s, onStack, p, components, stack, x);
    PoppedIsEmitted(View(E, p), a, s, t, x, Elements(adjacency[x]), component);
    if "" in s.index {
      BottomStays(View(E, p), a, s, x);
    }
  }

  // The state after the pop loop is the one Emit describes.
  lemma PoppedIsEmitted(E: Edges, a: Search, s: Search, t: Search, x: Id, seen: set<Id>, component: seq<Id>)
    requires Exhausted(E, a, s, x, seen) && s.low[x] == s.index[x]
    requires t == s.(stack := s.stack[..|a.stack|], comps := s.comps + [SortStrings(component)], gray := a.gray)
    requires multiset(component) == multiset(Segment(a, s))
    ensures Inv(E, t) && Visited(E, a, t, x)
    ensures Elements(t.stack) == Elements(s.stack) - Elements(s.stack[|a.stack|..])
  {
    SegmentComponent(a, s, x, component);
    EmitKeeps(E, a, s, x, seen, SortStrings(component));
    EmittedState(a, s, t, SortStrings(component));
    PoppedStack(E, a, s, x);
  }

  lemma EmittedState(a: Search, s: Search, t: Search, component: seq<Id>)
    requires a.stack <= s.stack
    requires t == s.(stack := s.stack[..|a.stack|], comps := s.comps + [component], gray := a.gray)
    ensures t == Emit(a, s, component)
  {
    assert t.stack == a.stack;
  }

  lemma PoppedStack(E: Edges, a: Search, s: Search, x: Id)
    requires Inv(E, a) && Looping(E, a, s, x, {})
    ensures Elements(s.stack[..|a.stack|]) == Elements(s.stack) - Elements(s.stack[|a.stack|..])
  {
    SegmentDisjoint(E, a, s, x);
    assert s.stack[..|a.stack|] == a.stack;
    assert Elements(a.stack) <= a.index.Keys;
  }

  // What the pop loop collects is the segment, in some order.
  lemma SegmentComponent(a: Search, s: Search, x: Id, component: seq<Id>)
    requires StackOrdered(s) && |a.stack| < |s.stack| && s.stack[|a.stack|] == x
    requires multiset(component) == multiset(Segment(a, s))
    ensures Elements(SortStrings(component)) == Elements(Segment(a, s)) && NoDup(SortStrings(component))
  {
    SortKeepsMembers(component);
    forall y ensures y in component <==> y in Segment(a, s) {
      assert y in multiset(component) <==> y in multiset(Segment(a, s));
    }
    PermutationDistinct(Segment(a, s), SortStrings(component));
  }

  // ---- The end of the first phase ----

  // The ids one by one, each as a list of its own.
  ghost function Singles(ids: set<Id>): (r: seq<seq<Id>>)
    ensures Flat(r) == ids
    ensures forall i :: 0 <= i < |r| ==> |r[i]| == 1
    ensures forall i, j :: 0 <= i < j < |r| ==> r[i] != r[j]
  {
    if ids == {} then []
    else
      var x :| x in ids;
      var rest := Singles(ids - {x});
      AppendSingle(rest, x);
      rest + [[x]]
  }

  lemma AppendSingle(rest: seq<seq<Id>>, x: Id)
    requires x !in Flat(rest)
    ensures Flat(rest + [[x]]) == Flat(rest) + {x}
    ensures forall i :: 0 <= i < |rest| ==> rest[i] != [x]
  {
    assert (rest + [[x]])[..|rest|] == rest;
    FlatMembers(rest, x);
  }

  // Lists of one id without edges are components.
  lemma {:induction false} SinglesCondensed(E: Edges, comps: seq<seq<Id>>)
    requires forall i :: 0 <= i < |comps| ==> |comps[i]| == 1
    requires forall i, j :: 0 <= i < j < |comps| ==> comps[i] != comps[j]
    requires forall e :: e in E ==> e.0 !in Flat(comps)
    ensures Condensed(E, comps)
    decreases |comps|
  {
    if comps != [] {
      var rest, last := comps[..|comps| - 1], comps[|comps| - 1];
      SinglesCondensed(E, rest);
      FlatMembers(rest, last[0]);
      ReachRefl(E, last[0]);
    }
  }

  lemma CutSound(E: Edges, s: Search, p: Phase, t: Search)
    requires Cut(p) == s.index.Keys && p.base == [""] && Flat(p.singles) == s.index.Keys - {""}
    requires forall i :: 0 <= i < |p.singles| ==> |p.singles[i]| == 1
    requires forall i, j :: 0 <= i < j < |p.singles| ==> p.singles[i] != p.singles[j]
    requires "" in s.index && StackOrdered(s) && t == s.(stack := [""], comps := p.singles, gray := {""})
    ensures Inv(View(E, p), t)
  {
    SinglesCondensed(View(E, p), p.singles);
    assert StackOrdered(t);
    assert Elements(t.stack) == {""};
  }

  // The ids visited when the call for the empty id ends are those it reaches.
  lemma VisitedIsReached(E: Edges, a: Search, s: Search, x: Id, seen: set<Id>)
    requires Exhausted(E, a, s, x, seen) && a.index.Keys == {}
    ensures forall y {:trigger Reach(E, x, y)} :: y in s.index <==> Reach(E, x, y)
  {
    NothingVisited(a);
    assert a.gray == {};
    forall e | e in E && e.0 in s.index.Keys ensures e.1 in s.index.Keys {
      if e.0 == x {
        assert e.1 in seen;
      }
    }
    forall y ensures y in s.index <==> Reach(E, x, y) {
      if Reach(E, x, y) {
        ClosedReach(E, s.index.Keys, x, y);
      }
    }
  }

  // Those on the stack reach it, those in components do not.
  lemma StackReaches(E: Edges, a: Search, s: Search, x: Id, seen: set<Id>)
    requires Exhausted(E, a, s, x, seen) && a.index.Keys == {}
    ensures a.stack == [] && s.stack[0] == x && s.gray == {x}
    ensures forall y {:trigger Reach(E, y, x)} :: y in s.index ==> (y in s.stack <==> Reach(E, y, x))
  {
    NothingVisited(a);
    assert a.gray == {};
    StackIsReaching(E, s, x);
  }

  lemma OpeningPhase(adjacency: map<Id, seq<Id>>, E: Edges, components: seq<seq<Id>>, stack: seq<Id>, onStack: set<Id>,
                     s: Search, p: Phase)
    requires Holds(adjacency, E, components, stack, onStack, s, p) && Cut(p) == {}
    ensures p.base == [] && View(E, p) == E && components == s.comps && stack == s.stack
  {
    assert "" !in Elements(p.base);
  }

  lemma FirstPhaseEnds(E: Edges, a: Search, s: Search, seen: set<Id>, last: seq<Id>, p: Phase)
    requires Exhausted(E, a, s, "", seen) && a.index.Keys == {}
    requires Cut(p) == s.index.Keys && p.first == s.comps + [last]
    requires NoDup(last) && forall y :: y in last <==> y != "" && y in s.stack
    ensures FirstPhase(E, p)
  {
    hide Looping, AllAnchored, StackOrdered;
    VisitedIsReached(E, a, s, "", seen);
    StackReaches(E, a, s, "", seen);
    assert p.first[..|p.first| - 1] == s.comps;
    forall y ensures y in Flat(s.comps) <==> y in s.index && y !in s.stack {
      assert y in Elements(s.stack) <==> y in s.stack;
    }
  }

  lemma EmptySegment(stack: seq<Id>, component: seq<Id>)
    requires stack != [] && NoDup(stack) && stack[0] == "" && multiset(component) == multiset(stack[1..])
    ensures NoDup(SortStrings(component)) && SortedBy(SortStrings(component), StringLe)
    ensures forall y :: y in SortStrings(component) <==> y != "" && y in stack
  {
    SortKeepsMembers(component);
    SortStringsSorted(component);
    PermutationDistinct(stack[1..], SortStrings(component));
    forall y ensures y in component <==> y != "" && y in stack {
      assert y in component <==> y in multiset(stack[1..]);
      assert stack == [stack[0]] + stack[1..];
    }
  }

  // The state once the empty id has popped the whole stack.
  ghost predicate Restarted(s: Search, p: Phase, t: Search) {
    && p.base == [""] && p.singles == Singles(s.index.Keys - {""})
    && t == s.(stack := [""], comps := p.singles, gray := {""})
  }

  lemma RestartedSound(adjacency: map<Id, seq<Id>>, E: Edges, s: Search, onStack: set<Id>, p: Phase, t: Search)
    requires Represents(adjacency, E) && s.index.Keys <= adjacency.Keys && s.low.Keys <= s.index.Keys
    requires "" in s.index && StackOrdered(s) && Restarted(s, p, t) && onStack == Elements([""])
    ensures Cut(p) == s.index.Keys && Sound(adjacency, E, p, t, onStack)
  {
    hide Inv;
    assert Elements(p.base) == {""};
    CutSound(E, s, p, t);
  }

  lemma RestartedTracks(adjacency: map<Id, seq<Id>>, E: Edges, components: seq<seq<Id>>, s: Search, p: Phase, t: Search)
    requires Restarted(s, p, t) && FirstPhase(E, p) && "" in adjacency && components == p.first
    requires forall c :: c in components ==> "" !in c && SortedBy(c, StringLe)
    ensures Tracks(adjacency, E, components, [], t, p)
  {
    hide FirstPhase, Singles;
    assert t.comps[|p.singles|..] == [];
    assert p.first + [] == components;
  }

  // The empty id pops the whole stack and ends the first phase.
  lemma EmptyEmitted(adjacency: map<Id, seq<Id>>, E: Edges, components: seq<seq<Id>>, stack: seq<Id>, onStack: set<Id>,
                     a: Search, s: Search, stack': seq<Id>, onStack': set<Id>, p: Phase, component: seq<Id>)
    returns (next: Phase, t: Search)
    requires Holds(adjacency, E, components, stack, onStack, s, p) && Finishing(adjacency, E, a, s, p, "")
    requires PoppedOff(stack, onStack, |a.stack| - |p.base|, "", stack', onStack', component)
    ensures Restarted(s, next, t) && Holds(adjacency, E, components + [SortStrings(component)], stack', onStack', t, next)
  {
    hide FirstPhase, View, SortStrings, Singles, Inv, CrossBound, Grows;
    var last := SortStrings(component);
    next := Phase([""], components + [last], Singles(s.index.Keys - {""}));
    t := s.(stack := [""], comps := next.singles, gray := {""});
    OpeningPhase(adjacency, E, components, stack, onStack, s, p);
    StackReaches(E, a, s, "", Elements(adjacency[""]));
    StackDistinct(s);
    EmptySegment(stack, component);
    EmptyAlone(stack, onStack, stack', onStack', component);
    RestartedSound(adjacency, E, s, onStack', next, t);
    FirstPhaseEnds(E, a, s, Elements(adjacency[""]), last, next);
    AddedTo(components, last);
    RestartedTracks(adjacency, E, components + [last], s, next, t);
  }

  // All but the empty id are gone from the stack.
  lemma EmptyAlone(stack: seq<Id>, onStack: set<Id>, stack': seq<Id>, onStack': set<Id>, component: seq<Id>)
    requires stack != [] && stack[0] == "" && NoDup(stack) && onStack == Elements(stack)
    requires PoppedOff(stack, onStack, 0, "", stack', onStack', component)
    ensures stack' == [] && onStack' == Elements([""])
  {
    assert stack == [""] + stack[1..];
    assert "" !in stack[1..];
  }

  lemma ComponentEmitted(adjacency: map<Id, seq<Id>>, E: Edges, components: seq<seq<Id>>, stack: seq<Id>, onStack: set<Id>,
                         a: Search, s: Search, p: Phase, stack': seq<Id>, onStack': set<Id>, x: Id, component: seq<Id>)
    returns (next: Phase, t: Search)
    requires Holds(adjacency, E, components, stack, onStack, s, p) && "" !in component
    requires Finishing(adjacency, E, a, s, p, x) && GetOr0(s.low, x) == GetOr0(s.index, x)
    requires PoppedOff(stack, onStack, |a.stack| - |p.base|, x, stack', onStack', component)
    ensures t == s.(stack := t.stack, comps := t.comps, gray := t.gray)
    ensures Holds(adjacency, E, components + [SortStrings(component)], stack', onStack', t, next)
    ensures Finished(E, a, t, p, next, x)
  {
    if x == "" {
      next, t := EmptyEmitted(adjacency, E, components, stack, onStack, a, s, stack', onStack', p, component);
    } else {
      next, t := p, s.(stack := p.base + stack', comps := s.comps + [SortStrings(component)], gray := a.gray);
      RootEmitted(adjacency, E, components, stack, onStack, a, s, stack', onStack', p, x, component);
    }
  }

  // The adjacency lists after the in-place sort and truncation: same targets, ordered, no repeats.
  method SortDedupe(targets0: seq<Id>) returns (targets: seq<Id>)
    ensures Elements(targets) == Elements(targets0)
    ensures SortedBy(targets, StringLe) && NoDup(targets)
  {
    targets := SortStrings(targets0);
    SortKeepsMembers(targets0);
    SortStringsSorted(targets0);
    var deduped := FilterRepeats(targets);
    for index := 0 to |deduped|
      invariant |targets| >= |deduped| && targets[..index] == deduped[..index]
    {
      targets := targets[index := deduped[index]];
    }
    targets := targets[..|deduped|];
    assert targets == deduped;
  }

  // The first of each group of equal neighbours.
  method FilterRepeats(targets: seq<Id>) returns (deduped: seq<Id>)
    requires SortedBy(targets, StringLe)
    ensures |deduped| <= |targets| && Elements(deduped) == Elements(targets)
    ensures SortedBy(deduped, StringLe) && NoDup(deduped)
  {
    deduped := [];
    for i := 0 to |targets|
      invariant Deduped(targets, i, deduped)
    {
      DedupedStep(targets, i, deduped);
      if i == 0 || targets[i] != targets[i - 1] {
        deduped := deduped + [targets[i]];
      }
    }
    assert targets[..|targets|] == targets;
  }

  ghost predicate Deduped(targets: seq<Id>, i: nat, deduped: seq<Id>) {
    && i <= |targets| && |deduped| <= i && (i > 0 ==> deduped != [] && deduped[|deduped| - 1] == targets[i - 1])
    && Elements(deduped) == Elements(targets[..i])
    && SortedBy(deduped, StringLe) && NoDup(deduped)
  }

  lemma DedupedStep(targets: seq<Id>, i: nat, deduped: seq<Id>)
    requires SortedBy(targets, StringLe) && i < |targets| && Deduped(targets, i, deduped)
    ensures Deduped(targets, i + 1, if i == 0 || targets[i] != targets[i - 1] then deduped + [targets[i]] else deduped)
  {
    ElementsStep(targets, i);
    if i == 0 || targets[i] != targets[i - 1] {
      AppendGreater(deduped, targets, i);
      ElementsStep(deduped + [targets[i]], |deduped|);
      assert (deduped + [targets[i]])[..|deduped|] == deduped;
      assert (deduped + [targets[i]])[..|deduped| + 1] == deduped + [targets[i]];
    } else {
      assert targets[i] in deduped;
    }
  }

  lemma AppendGreater(deduped: seq<Id>, targets: seq<Id>, i: nat)
    requires i < |targets| && SortedBy(targets, StringLe)
    requires Elements(deduped) == Elements(targets[..i])
    requires i > 0 ==> deduped != [] && deduped[|deduped| - 1] == targets[i - 1]
    requires i == 0 || targets[i] != targets[i - 1]
    ensures forall k :: 0 <= k < |deduped| ==> StringLe(deduped[k], targets[i]) && deduped[k] != targets[i]
  {
    forall k | 0 <= k < |deduped| ensures StringLe(deduped[k], targets[i]) && deduped[k] != targets[i] {
      assert deduped[k] in Elements(targets[..i]);
      var m :| 0 <= m < i && targets[m] == deduped[k];
      if targets[m] == targets[i] {
        assert StringLe(targets[m], targets[i - 1]) || m == i - 1;
        StringLeTotal(targets[i - 1], targets[i]);
      }
    }
  }

  lemma ScopedEdgesStep(edges: seq<Edge>, i: nat, scope: set<Id>)
    requires i < |edges|
    ensures ScopedEdges(edges[..i + 1], scope) == ScopedEdges(edges[..i], scope) + ScopedEdges([edges[i]], scope)
  {
    assert edges[..i + 1] == edges[..i] + [edges[i]];
    forall e | e in ScopedEdges(edges[..i], scope) + ScopedEdges([edges[i]], scope)
      ensures e in ScopedEdges(edges[..i + 1], scope)
    {
      assert Edge(e.0, e.1) in edges[..i] || Edge(e.0, e.1) in [edges[i]];
    }
  }

  // The adjacency map of the scoped subgraph.
  method BuildAdjacency(scopedNodes: seq<Id>, edges: seq<Edge>) returns (adjacency: map<Id, seq<Id>>)
    ensures adjacency.Keys == Elements(scopedNodes)
    ensures Represents(adjacency, ScopedEdges(edges, Elements(scopedNodes)))
    ensures forall k :: k in adjacency ==> SortedBy(adjacency[k], StringLe) && NoDup(adjacency[k])
    ensures forall a, b :: a in adjacency ==>
      (b in adjacency[a] <==> Edge(a, b) in edges && a in scopedNodes && b in scopedNodes)
  {
    var scopedSet := Elements(scopedNodes);
    adjacency := map[];
    for i := 0 to |scopedNodes|
      invariant adjacency.Keys == Elements(scopedNodes[..i])
      invariant forall k :: k in adjacency ==> adjacency[k] == []
    {
      adjacency := adjacency[scopedNodes[i] := []];
    }
    assert scopedNodes[..|scopedNodes|] == scopedNodes;
    for i := 0 to |edges|
      invariant adjacency.Keys == scopedSet
      invariant Represents(adjacency, ScopedEdges(edges[..i], scopedSet))
    {
      var edge := edges[i];
      ScopedEdgesStep(edges, i, scopedSet);
      if edge.from !in scopedSet || edge.to !in scopedSet { continue; }
      adjacency := adjacency[edge.from := adjacency[edge.from] + [edge.to]];
    }
    assert edges[..|edges|] == edges;
    var todo := adjacency.Keys;
    while todo != {}
      invariant todo <= adjacency.Keys == scopedSet
      invariant Represents(adjacency, ScopedEdges(edges, scopedSet))
      invariant forall k :: k in adjacency && k !in todo ==> SortedBy(adjacency[k], StringLe) && NoDup(adjacency[k])
      decreases todo
    {
      var k :| k in todo;
      todo := todo - {k};
      var targets := SortDedupe(adjacency[k]);
      assert forall t :: t in adjacency[k] <==> t in Elements(adjacency[k]);
      assert forall t :: t in targets <==> t in Elements(targets);
      adjacency := adjacency[k := targets];
    }
    forall a, b | a in adjacency
      ensures b in adjacency[a] <==> Edge(a, b) in edges && a in scopedNodes && b in scopedNodes
    {
      assert a in scopedSet && (b in scopedSet <==> b in scopedNodes);
      assert b in adjacency[a] <==> (a, b) in ScopedEdges(edges, scopedSet);
    }
  }

  // The edges that do not start at an id the empty id reaches.
  ghost function Ahead(E: Edges): Edges {
    set e | e in E && !Reach(E, "", e.0)
  }

  // The ids whose component is emitted whole: all but the component of the empty id and the ids that lead
  // to the empty id without passing through any other id it reaches.
  ghost function Whole(E: Edges, scope: set<Id>): set<Id> {
    set x | x in scope && !Mutual(E, "", x) && !Reach(Ahead(E), x, "")
  }

  lemma {:induction false} AheadWalk(E: Edges, p: seq<Id>, x: Id, y: Id)
    requires IsWalk(E, p, x, y) && !Reach(E, "", y)
    ensures IsWalk(Ahead(E), p, x, y)
    decreases |p|
  {
    if |p| > 1 {
      assert Reach(E, x, y);
      if Reach(E, "", x) {
        ReachTrans(E, "", x, y);
      }
      AheadWalk(E, p[1..], p[1], y);
    }
  }

  // Walks to an id that the empty id does not reach stay ahead.
  lemma AheadReach(E: Edges, x: Id, y: Id)
    requires !Reach(E, "", y)
    ensures Reach(Ahead(E), x, y) <==> Reach(E, x, y)
  {
    if Reach(E, x, y) {
      var p :| IsWalk(E, p, x, y);
      AheadWalk(E, p, x, y);
    }
    if Reach(Ahead(E), x, y) {
      ReachMono(Ahead(E), E, x, y);
    }
  }

  lemma {:induction false} AroundWalk(E: Edges, p: seq<Id>, x: Id)
    requires IsWalk(E, p, x, "") && !OnCycle(E, "")
    ensures IsWalk(Ahead(E), p, x, "")
    decreases |p|
  {
    if |p| > 1 {
      assert IsWalk(E, p[1..], p[1], "");
      assert Reach(E, p[1], "");
      if Reach(E, "", x) {
        ReachStep(E, "", x, p[1]);
        EmptyOnCycle(E, p[1], x);
      }
      AroundWalk(E, p[1..], p[1]);
    }
  }

  lemma EmptyOnCycle(E: Edges, y: Id, x: Id)
    requires Reach(E, "", x) && (x, y) in E && Reach(E, y, "")
    ensures OnCycle(E, "")
  {
    if x == "" {
      assert ("", y) in E;
    } else {
      var z := ReachFirst(E, "", x);
      ReachStep(E, z, x, y);
      ReachTrans(E, z, y, "");
    }
  }

  // When the empty id is on no cycle, every way to it is ahead.
  lemma AroundReach(E: Edges, x: Id)
    requires !OnCycle(E, "")
    ensures Reach(Ahead(E), x, "") <==> Reach(E, x, "")
  {
    if Reach(E, x, "") {
      var p :| IsWalk(E, p, x, "");
      AroundWalk(E, p, x);
    }
    if Reach(Ahead(E), x, "") {
      ReachMono(Ahead(E), E, x, "");
    }
  }

  // An id the empty id reaches leads nowhere ahead.
  lemma ReachedStops(E: Edges, x: Id)
    requires Reach(E, "", x) && x != ""
    ensures !Reach(Ahead(E), x, "")
  {
    if Reach(Ahead(E), x, "") {
      var z := ReachFirst(Ahead(E), x, "");
    }
  }

  lemma EmptyComesFirst(scopedNodes: seq<Id>, adjacency: map<Id, seq<Id>>, visited: set<Id>, i: nat)
    requires SortedBy(scopedNodes, StringLe) && adjacency.Keys == Elements(scopedNodes) && i < |scopedNodes|
    requires Elements(scopedNodes[..i]) <= visited && (i == 0 ==> visited == {}) && scopedNodes[i] !in visited
    ensures EmptyFirst(adjacency, visited, scopedNodes[i])
  {
    if "" in scopedNodes {
      var k :| 0 <= k < |scopedNodes| && scopedNodes[k] == "";
      assert k > 0 ==> StringLe(scopedNodes[0], scopedNodes[k]);
      assert scopedNodes[0] == "";
      if i > 0 {
        assert scopedNodes[..i][0] in Elements(scopedNodes[..i]);
      }
    }
  }

  lemma NobodyReachesEmpty(adjacency: map<Id, seq<Id>>, E: Edges)
    requires Represents(adjacency, E) && "" !in adjacency
    ensures Whole(E, adjacency.Keys) == adjacency.Keys && forall x :: x in adjacency ==> !Reach(E, x, "")
  {
    forall x | x in adjacency ensures !Reach(E, x, "") && !Reach(Ahead(E), x, "") {
      if Reach(Ahead(E), x, "") {
        ReachMono(Ahead(E), E, x, "");
      }
      if Reach(E, x, "") {
        ClosedReach(E, adjacency.Keys, x, "");
      }
    }
  }

  lemma SearchEmptied(adjacency: map<Id, seq<Id>>, E: Edges, components: seq<seq<Id>>, stack: seq<Id>, onStack: set<Id>,
                      s: Search, p: Phase)
    requires Holds(adjacency, E, components, stack, onStack, s, p) && "" !in adjacency
    requires s.gray <= {""} && s.index.Keys == adjacency.Keys
    ensures Components(adjacency, E, components, Whole(E, adjacency.Keys)) && ReverseTopological(E, components)
    ensures Whole(E, adjacency.Keys) == adjacency.Keys
  {
    hide Inv, Tracks;
    NobodyReachesEmpty(adjacency, E);
    NeverCut(adjacency, E, components, stack, onStack, s, p);
    OpeningPhase(adjacency, E, components, stack, onStack, s, p);
    AllInComponents(E, s);
    CondensedMeaning(E, s.comps);
  }

  lemma NeverCut(adjacency: map<Id, seq<Id>>, E: Edges, components: seq<seq<Id>>, stack: seq<Id>, onStack: set<Id>,
                 s: Search, p: Phase)
    requires Holds(adjacency, E, components, stack, onStack, s, p) && "" !in adjacency
    ensures Cut(p) == {}
    ensures forall c :: c in components ==> SortedBy(c, StringLe)
  {
    hide Inv, FirstPhase;
  }

  // Once every call is finished all visited ids are in components.
  lemma AllInComponents(E: Edges, s: Search)
    requires Inv(E, s) && s.gray <= {""} && "" !in s.index
    ensures Condensed(E, s.comps) && Flat(s.comps) == s.index.Keys
  {
    assert "" !in Elements(s.stack);
    assert s.gray == {};
    StackIsEmpty(E, s);
  }

  // The search is over and went through an empty id.
  ghost predicate Ended(adjacency: map<Id, seq<Id>>, E: Edges, comps: seq<seq<Id>>, p: Phase) {
    && Represents(adjacency, E) && "" in adjacency
    && FirstPhase(E, p) && p.singles <= comps && Condensed(Ahead(E), comps)
    && (forall y {:trigger Reach(E, "", y)} :: y in Flat(p.singles) <==> y != "" && Reach(E, "", y))
    && forall y {:trigger Reach(Ahead(E), y, "")} :: y in Flat(comps) <==> y in adjacency && !Reach(Ahead(E), y, "")
  }

  lemma SearchStopped(adjacency: map<Id, seq<Id>>, E: Edges, components: seq<seq<Id>>, stack: seq<Id>, onStack: set<Id>,
                      s: Search, p: Phase)
    requires Holds(adjacency, E, components, stack, onStack, s, p) && "" in adjacency && p.base == [""]
    requires s.gray <= {""} && s.index.Keys == adjacency.Keys
    ensures Ended(adjacency, E, s.comps, p)
  {
    forall e | e in E ensures e.0 in Cut(p) <==> Reach(E, "", e.0) {
    }
    assert View(E, p) == Ahead(E);
    StackIsReaching(Ahead(E), s, "");
    forall y ensures y in Flat(s.comps) <==> y in adjacency && !Reach(Ahead(E), y, "") {
      assert y in s.stack <==> y in Elements(s.stack);
    }
    FlatPrefix(s.comps, |p.singles|);
    assert s.comps[..|p.singles|] == p.singles;
    assert "" in Elements(p.base);
    forall y ensures y in Flat(p.singles) <==> y != "" && Reach(E, "", y) {
      assert y in Elements(p.base) <==> y == "";
    }
  }

  lemma {:induction false} FlatPrefix(comps: seq<seq<Id>>, n: nat)
    requires n <= |comps|
    ensures Flat(comps[..n]) <= Flat(comps)
    decreases |comps|
  {
    if n < |comps| {
      assert comps[..|comps| - 1][..n] == comps[..n];
      FlatPrefix(comps[..|comps| - 1], n);
    } else {
      assert comps[..n] == comps;
    }
  }

  // The components found whole: those of the first phase and those found after it.
  ghost function Done(comps: seq<seq<Id>>, p: Phase): seq<seq<Id>>
    requires p.first != [] && p.singles <= comps
  {
    p.first[..|p.first| - 1] + comps[|p.singles|..]
  }

  lemma ReachStaysListed(adjacency: map<Id, seq<Id>>, E: Edges, x: Id, y: Id)
    requires Represents(adjacency, E) && x in adjacency && Reach(E, x, y)
    ensures y in adjacency
  {
    ClosedReach(E, adjacency.Keys, x, y);
  }

  lemma FirstAt(adjacency: map<Id, seq<Id>>, E: Edges, comps: seq<seq<Id>>, p: Phase, i: nat, x: Id)
    requires Ended(adjacency, E, comps, p) && i < |p.first| - 1 && x in p.first[i]
    ensures x in Whole(E, adjacency.Keys) && Reach(E, "", x)
  {
    hide Condensed, Represents;
    var rest := p.first[..|p.first| - 1];
    assert rest[i] == p.first[i];
    FlatMembers(rest, x);
    assert x in Flat(rest);
    ReachRefl(E, "");
    ReachedStops(E, x);
    ReachStaysListed(adjacency, E, "", x);
  }

  lemma LaterAt(adjacency: map<Id, seq<Id>>, E: Edges, comps: seq<seq<Id>>, p: Phase, j: nat, x: Id)
    requires Ended(adjacency, E, comps, p) && |p.singles| <= j < |comps| && x in comps[j]
    ensures x in Whole(E, adjacency.Keys) && !Reach(E, "", x)
  {
    hide Condensed, Represents;
    FlatMembers(comps, x);
    assert x in Flat(comps);
    assert x in adjacency && !Reach(Ahead(E), x, "");
    CondensedAt(Ahead(E), comps, j, x);
    FlatPrefix(comps[..j], |p.singles|);
    assert comps[..j][..|p.singles|] == p.singles;
    ReachRefl(Ahead(E), "");
    assert x != "" && x !in Flat(p.singles);
    assert !Reach(E, "", x) && !Mutual(E, "", x);
  }

  // What a member of component i says about its place.
  lemma DoneAt(adjacency: map<Id, seq<Id>>, E: Edges, comps: seq<seq<Id>>, p: Phase, i: nat, x: Id)
    requires Ended(adjacency, E, comps, p) && i < |Done(comps, p)| && x in Done(comps, p)[i]
    ensures x in Whole(E, adjacency.Keys)
    ensures i < |p.first| - 1 <==> Reach(E, "", x)
  {
    hide Condensed, Represents, Whole;
    var k := |p.first| - 1;
    if i < k {
      FirstAt(adjacency, E, comps, p, i, x);
    } else {
      LaterAt(adjacency, E, comps, p, |p.singles| + (i - k), x);
    }
  }

  lemma DoneCovers(adjacency: map<Id, seq<Id>>, E: Edges, comps: seq<seq<Id>>, p: Phase, x: Id) returns (i: nat)
    requires Ended(adjacency, E, comps, p) && x in Whole(E, adjacency.Keys)
    ensures i < |Done(comps, p)| && x in Done(comps, p)[i]
  {
    hide Condensed, Represents;
    var k := |p.first| - 1;
    if Reach(E, "", x) {
      FlatMembers(p.first[..k], x);
      i :| 0 <= i < k && x in p.first[..k][i];
    } else {
      FlatMembers(comps, x);
      var j :| 0 <= j < |comps| && x in comps[j];
      FlatMembers(p.singles, x);
      assert forall m :: 0 <= m < |p.singles| ==> comps[m] == p.singles[m];
      i := k + (j - |p.singles|);
      assert comps[|p.singles|..][j - |p.singles|] == comps[j];
    }
  }

  lemma DonePartitions(adjacency: map<Id, seq<Id>>, E: Edges, comps: seq<seq<Id>>, p: Phase)
    requires Ended(adjacency, E, comps, p)
    ensures Partitions(Done(comps, p), Whole(E, adjacency.Keys))
  {
    var done, k := Done(comps, p), |p.first| - 1;
    CondensedPartitions(E, p.first[..k]);
    CondensedPartitions(Ahead(E), comps);
    forall i | 0 <= i < |done| ensures done[i] != [] && NoDup(done[i]) {
      assert done[i] == if i < k then p.first[..k][i] else comps[|p.singles| + (i - k)];
    }
    forall i, x | 0 <= i < |done| && x in done[i] ensures x in Whole(E, adjacency.Keys) {
      DoneAt(adjacency, E, comps, p, i, x);
    }
    forall x | x in Whole(E, adjacency.Keys) ensures exists i :: 0 <= i < |done| && x in done[i] {
      var i := DoneCovers(adjacency, E, comps, p, x);
    }
    forall i, j, x | 0 <= i < j < |done| && x in done[i] ensures x !in done[j] {
      DoneDisjoint(adjacency, E, comps, p, i, j, x);
    }
  }

  lemma DoneDisjoint(adjacency: map<Id, seq<Id>>, E: Edges, comps: seq<seq<Id>>, p: Phase, i: nat, j: nat, x: Id)
    requires Ended(adjacency, E, comps, p) && i < j < |Done(comps, p)| && x in Done(comps, p)[i]
    ensures x !in Done(comps, p)[j]
  {
    hide Represents, Condensed, Flat;
    var done, k := Done(comps, p), |p.first| - 1;
    DoneAt(adjacency, E, comps, p, i, x);
    if x in done[j] {
      DoneAt(adjacency, E, comps, p, j, x);
    }
    if j < k {
      CondensedDisjoint(E, p.first[..k], i, j, x);
    } else if k <= i {
      CondensedDisjoint(Ahead(E), comps, |p.singles| + (i - k), |p.singles| + (j - k), x);
    }
  }

  lemma DoneMutual(adjacency: map<Id, seq<Id>>, E: Edges, comps: seq<seq<Id>>, p: Phase, i: nat, x: Id, y: Id)
    requires Ended(adjacency, E, comps, p) && i < |Done(comps, p)| && x in Done(comps, p)[i]
    requires y in Whole(E, adjacency.Keys)
    ensures y in Done(comps, p)[i] <==> Mutual(E, x, y)
  {
    hide Condensed, Represents, Whole;
    var done, k := Done(comps, p), |p.first| - 1;
    DoneAt(adjacency, E, comps, p, i, x);
    var j := DoneCovers(adjacency, E, comps, p, y);
    DoneAt(adjacency, E, comps, p, j, y);
    if y in done[i] {
      DoneAt(adjacency, E, comps, p, i, y);
    }
    if Mutual(E, x, y) {
      if Reach(E, "", x) {
        ReachTrans(E, "", x, y);
      }
      if Reach(E, "", y) {
        ReachTrans(E, "", y, x);
      }
    }
    if Reach(E, "", x) && Reach(E, "", y) {
      FlatMembers(p.first[..k], y);
      assert done[j] == p.first[..k][j];
      MutualSameComponent(E, p.first[..k], i, x, y);
    } else if !Reach(E, "", x) && !Reach(E, "", y) {
      AheadReach(E, x, y);
      AheadReach(E, y, x);
      assert done[j] == comps[|p.singles| + (j - k)];
      FlatMembers(comps, y);
      MutualSameComponent(Ahead(E), comps, |p.singles| + (i - k), x, y);
    }
  }

  // The ids emitted whole are whole components.
  lemma WholeIsClosed(E: Edges, scope: set<Id>, x: Id, y: Id)
    requires x in Whole(E, scope) && y in scope && Mutual(E, x, y)
    ensures y in Whole(E, scope)
  {
    if Mutual(E, "", y) {
      ReachTrans(E, "", y, x);
      ReachTrans(E, x, y, "");
    }
    if Reach(Ahead(E), y, "") {
      ReachRefl(E, "");
      if Reach(E, "", y) {
        ReachedStops(E, y);
      }
      AheadReach(E, x, y);
      ReachTrans(Ahead(E), x, y, "");
    }
  }

  lemma DoneComponents(adjacency: map<Id, seq<Id>>, E: Edges, comps: seq<seq<Id>>, p: Phase)
    requires Ended(adjacency, E, comps, p) && forall c :: c in Done(comps, p) ==> SortedBy(c, StringLe)
    ensures Components(adjacency, E, Done(comps, p), Whole(E, adjacency.Keys))
  {
    DonePartitions(adjacency, E, comps, p);
    forall i, x, y | 0 <= i < |Done(comps, p)| && x in Done(comps, p)[i] && y in Whole(E, adjacency.Keys)
      ensures y in Done(comps, p)[i] <==> Mutual(E, x, y)
    {
      DoneMutual(adjacency, E, comps, p, i, x, y);
    }
    forall x, y | x in Whole(E, adjacency.Keys) && y in adjacency && Mutual(E, x, y) ensures y in Whole(E, adjacency.Keys) {
      WholeIsClosed(E, adjacency.Keys, x, y);
    }
  }

  // The list emitted for the empty id.
  ghost predicate AroundEmptyId(E: Edges, last: seq<Id>) {
    NoDup(last) && forall y {:trigger Mutual(E, "", y)} :: y in last <==> y != "" && Mutual(E, "", y)
  }

  // The components emitted are those in `done` and, for an empty id, at position k the list of the ids around it.
  ghost predicate Emitted(E: Edges, scope: set<Id>, components: seq<seq<Id>>, done: seq<seq<Id>>, k: nat) {
    if "" !in scope then components == done
    else k < |components| && done == components[..k] + components[k + 1..] && AroundEmptyId(E, components[k])
  }

  // A component after the list for the empty id is not reached from it, one up to there is.
  lemma EmittedAt(adjacency: map<Id, seq<Id>>, E: Edges, comps: seq<seq<Id>>, p: Phase, i: nat, x: Id)
    requires Ended(adjacency, E, comps, p) && i < |p.first + comps[|p.singles|..]|
    requires x in (p.first + comps[|p.singles|..])[i]
    ensures i < |p.first| <==> Reach(E, "", x)
  {
    var components, k := p.first + comps[|p.singles|..], |p.first| - 1;
    if i < k {
      assert components[i] == Done(comps, p)[i];
      DoneAt(adjacency, E, comps, p, i, x);
    } else if i == k {
      assert x in p.first[k];
      assert Mutual(E, "", x);
    } else {
      assert components[i] == Done(comps, p)[i - 1];
      DoneAt(adjacency, E, comps, p, i - 1, x);
    }
  }

  lemma EmittedOrder(adjacency: map<Id, seq<Id>>, E: Edges, comps: seq<seq<Id>>, p: Phase, i: nat, j: nat, x: Id, y: Id)
    requires Ended(adjacency, E, comps, p)
    requires var components := p.first + comps[|p.singles|..];
             i < |components| && j < |components| && x in components[i] && y in components[j]
    requires (x, y) in E
    ensures j <= i
  {
    var components, k, n := p.first + comps[|p.singles|..], |p.first| - 1, |p.singles|;
    EmittedAt(adjacency, E, comps, p, i, x);
    EmittedAt(adjacency, E, comps, p, j, y);
    if Reach(E, "", x) {
      ReachStep(E, "", x, y);
      if i < k {
        FlatMembers(p.first[..k], x);
        assert x in p.first[..k][i];
        FlatClosed(E, p.first[..k]);
        assert y in Flat(p.first[..k]) && (y in p.first[k] ==> Mutual(E, "", y));
        if j < k {
          CondensedOrder(E, p.first[..k], i, j, x, y);
        }
      }
    } else if !Reach(E, "", y) {
      assert (x, y) in Ahead(E);
      assert components[i] == comps[n + (i - k - 1)] && components[j] == comps[n + (j - k - 1)];
      CondensedOrder(Ahead(E), comps, n + (i - k - 1), n + (j - k - 1), x, y);
    }
  }

  lemma EndedOrder(adjacency: map<Id, seq<Id>>, E: Edges, comps: seq<seq<Id>>, p: Phase)
    requires Ended(adjacency, E, comps, p)
    ensures ReverseTopological(E, p.first + comps[|p.singles|..])
  {
    var components := p.first + comps[|p.singles|..];
    forall i, j, x, y |
      0 <= i < |components| && 0 <= j < |components| && x in components[i] && y in components[j] && (x, y) in E
      ensures j <= i
    {
      EmittedOrder(adjacency, E, comps, p, i, j, x, y);
    }
  }

  lemma EndedEmitted(adjacency: map<Id, seq<Id>>, E: Edges, comps: seq<seq<Id>>, p: Phase)
    requires Ended(adjacency, E, comps, p)
    ensures Emitted(E, adjacency.Keys, p.first + comps[|p.singles|..], Done(comps, p), |p.first| - 1)
  {
    hide Condensed, Represents;
    var components, k := p.first + comps[|p.singles|..], |p.first| - 1;
    assert components[k + 1..] == comps[|p.singles|..] && components[..k] == p.first[..k];
  }

  // What the components found say, in terms of the graph.
  ghost predicate Found(adjacency: map<Id, seq<Id>>, E: Edges, components: seq<seq<Id>>, done: seq<seq<Id>>, k: nat) {
    && (forall c :: c in components ==> "" !in c && SortedBy(c, StringLe))
    && ReverseTopological(E, components) && Emitted(E, adjacency.Keys, components, done, k)
    && Components(adjacency, E, done, Whole(E, adjacency.Keys))
  }

  // What the search has found once every scoped id has been visited.
  lemma SearchResult(adjacency: map<Id, seq<Id>>, E: Edges, components: seq<seq<Id>>, stack: seq<Id>, onStack: set<Id>,
                     s: Search, p: Phase) returns (done: seq<seq<Id>>, k: nat)
    requires Holds(adjacency, E, components, stack, onStack, s, p)
    requires s.gray <= {""} && s.index.Keys == adjacency.Keys && ("" in adjacency ==> p.base == [""])
    ensures Found(adjacency, E, components, done, k)
  {
    hide Sound, Components, ReverseTopological;
    if "" !in adjacency {
      SearchEmptied(adjacency, E, components, stack, onStack, s, p);
      done, k := components, 0;
    } else {
      SearchStopped(adjacency, E, components, stack, onStack, s, p);
      done, k := Done(s.comps, p), |p.first| - 1;
      forall c | c in done ensures SortedBy(c, StringLe) {
        assert c in components;
      }
      DoneComponents(adjacency, E, s.comps, p);
      EndedOrder(adjacency, E, s.comps, p);
      EndedEmitted(adjacency, E, s.comps, p);
    }
  }

  // Without an empty id the components partition the scope into the classes of mutual reachability.
  lemma FoundPartitions(adjacency: map<Id, seq<Id>>, E: Edges, components: seq<seq<Id>>, done: seq<seq<Id>>, k: nat)
    requires Found(adjacency, E, components, done, k)
    ensures Partitions(components, adjacency.Keys) <==> "" !in adjacency
    ensures "" !in adjacency ==> ByMutualReach(E, components, adjacency.Keys)
  {
    if "" !in adjacency {
      NobodyReachesEmpty(adjacency, E);
    } else {
      assert "" in adjacency.Keys;
    }
  }

  // The lists of the search, in the order they are emitted. `done` are whole strongly connected components;
  // an empty id keeps some ids out of them, and is emitted as the list of the ids around it, at position k.
  method FindComponents(adjacency: map<Id, seq<Id>>, scopedNodes: seq<Id>, ghost E: Edges)
    returns (components: seq<seq<Id>>, ghost done: seq<seq<Id>>, ghost k: nat)
    requires Represents(adjacency, E) && adjacency.Keys == Elements(scopedNodes) && SortedBy(scopedNodes, StringLe)
    ensures Found(adjacency, E, components, done, k)
    ensures Partitions(components, adjacency.Keys) <==> "" !in adjacency
    ensures "" !in adjacency ==> ByMutualReach(E, components, adjacency.Keys)
  {
    hide Inv, Visited, View, Tracks, Found, Partitions, ByMutualReach;
    var tarjan := new Tarjan(adjacency, E);
    for i := 0 to |scopedNodes|
      invariant fresh(tarjan) && tarjan.Valid() && tarjan.adjacency == adjacency && tarjan.E == E
      invariant Elements(scopedNodes[..i]) <= tarjan.indices.Keys && (i == 0 ==> tarjan.indices.Keys == {})
      invariant tarjan.shadow.gray <= {""} && ("" in tarjan.indices ==> tarjan.phase.base == [""])
    {
      var nodeId := scopedNodes[i];
      ElementsStep(scopedNodes, i);
      assert nodeId in Elements(scopedNodes);
      if nodeId !in tarjan.indices {
        EmptyComesFirst(scopedNodes, adjacency, tarjan.indices.Keys, i);
        tarjan.StrongConnect(nodeId);
      }
    }
    assert scopedNodes[..|scopedNodes|] == scopedNodes;
    components := tarjan.components;
    done, k := SearchResult(adjacency, E, components, tarjan.stack, tarjan.onStack, tarjan.State(), tarjan.phase);
    FoundPartitions(adjacency, E, components, done, k);
  }

  // ---- Violations ----

  function ComponentViolation(component: seq<Id>, adjacency: map<Id, seq<Id>>): seq<Violation> {
    if |component| > 1 then [Cycle(component, |component|)]
    else if |component| == 1 && component[0] in adjacency && component[0] in adjacency[component[0]] then
      [Cycle([component[0], component[0]], 2)]
    else []
  }

  function Report(components: seq<seq<Id>>, adjacency: map<Id, seq<Id>>): seq<Violation> {
    if components == [] then []
    else
      var n := |components| - 1;
      Report(components[..n], adjacency) + ComponentViolation(components[n], adjacency)
  }

  method CollectViolations(components: seq<seq<Id>>, adjacency: map<Id, seq<Id>>) returns (violations: seq<Violation>)
    ensures violations == Report(components, adjacency)
  {
    violations := [];
    for i := 0 to |components|
      invariant violations == Report(components[..i], adjacency)
    {
      var component := components[i];
      assert components[..i + 1][..i] == components[..i];
      if |component| > 1 {
        violations := violations + [Cycle(component, |component|)];
      } else if |component| == 1 {
        var nodeId := component[0];
        var hasSelfEdge := nodeId in (if nodeId in adjacency then adjacency[nodeId] else []);
        if hasSelfEdge {
          violations := violations + [Cycle([nodeId, nodeId], 2)];
        }
      }
    }
    assert components[..|components|] == components;
  }

  // A reported path is a whole strongly connected component of at least two ids, in order,
  // or a self-edge whose end has no other id in its component.
  ghost predicate CyclicComponent(E: Edges, scope: set<Id>, v: Violation) {
    && |v.path| > 1 && v.edgeCount == |v.path| && (forall x :: x in v.path ==> x in scope)
    && (forall x, y :: x in v.path && y in scope ==> (y in v.path <==> Mutual(E, x, y)))
    && SortedBy(v.path, StringLe)
    && (NoDup(v.path) || (v.path == [v.path[0], v.path[0]] && (v.path[0], v.path[0]) in E))
  }

  // The verdict: silence means no cycle, every id on a cycle is on exactly one reported path.
  ghost predicate VerdictCorrect(E: Edges, scope: set<Id>, violations: seq<Violation>) {
    && (violations == [] <==> Acyclic(E))
    && (forall v :: v in violations ==> CyclicComponent(E, scope, v))
    && (forall x :: x in scope && OnCycle(E, x) ==> exists i :: 0 <= i < |violations| && x in violations[i].path)
    && forall i, j, x :: 0 <= i < j < |violations| && x in violations[i].path ==> x !in violations[j].path
  }

  // The components of the ids of S, which holds with an id its whole component.
  ghost predicate Components(adjacency: map<Id, seq<Id>>, E: Edges, comps: seq<seq<Id>>, S: set<Id>) {
    && Represents(adjacency, E) && S <= adjacency.Keys
    && (forall x, y {:trigger Mutual(E, x, y)} :: x in S && y in adjacency && Mutual(E, x, y) ==> y in S)
    && Partitions(comps, S)
    && ByMutualReach(E, comps, S)
    && forall c :: c in comps ==> SortedBy(c, StringLe)
  }

  lemma {:induction false} ReportMembers(comps: seq<seq<Id>>, adjacency: map<Id, seq<Id>>, v: Violation)
    requires v in Report(comps, adjacency)
    ensures exists i :: 0 <= i < |comps| && ComponentViolation(comps[i], adjacency) == [v]
  {
    var n := |comps| - 1;
    if v in Report(comps[..n], adjacency) {
      ReportMembers(comps[..n], adjacency, v);
      var i :| 0 <= i < |comps[..n]| && ComponentViolation(comps[..n][i], adjacency) == [v];
      assert comps[i] == comps[..n][i];
    }
  }

  lemma {:induction false} ReportCovers(comps: seq<seq<Id>>, adjacency: map<Id, seq<Id>>, i: nat, v: Violation)
    requires i < |comps| && ComponentViolation(comps[i], adjacency) == [v]
    ensures v in Report(comps, adjacency)
  {
    var n := |comps| - 1;
    if i < n {
      assert comps[..n][i] == comps[i];
      ReportCovers(comps[..n], adjacency, i, v);
    }
  }

  // Reported paths come from different components, so no id is reported twice.
  lemma {:induction false} ReportDisjoint(comps: seq<seq<Id>>, adjacency: map<Id, seq<Id>>, i: nat, j: nat, x: Id)
    requires forall i, j, x :: 0 <= i < j < |comps| && x in comps[i] ==> x !in comps[j]
    requires i < j < |Report(comps, adjacency)| && x in Report(comps, adjacency)[i].path
    ensures x !in Report(comps, adjacency)[j].path
  {
    var n := |comps| - 1;
    var front := Report(comps[..n], adjacency);
    assert forall i, x :: 0 <= i < n && x in comps[..n][i] ==> x in comps[i];
    assert forall j, x :: 0 <= j < n && x !in comps[j] ==> x !in comps[..n][j];
    if j < |front| {
      ReportDisjoint(comps[..n], adjacency, i, j, x);
    } else {
      var v := front[i];
      assert v in front;
      ReportMembers(comps[..n], adjacency, v);
      var k :| 0 <= k < |comps[..n]| && ComponentViolation(comps[..n][k], adjacency) == [v];
      assert x in comps[k];
    }
  }

  // An id lies on a cycle exactly when its component is reported.
  lemma CyclicIffReported(adjacency: map<Id, seq<Id>>, E: Edges, comps: seq<seq<Id>>, S: set<Id>, i: nat, x: Id)
    requires Components(adjacency, E, comps, S) && i < |comps| && x in comps[i]
    ensures OnCycle(E, x) <==> ComponentViolation(comps[i], adjacency) != []
  {
    var c := comps[i];
    if OnCycle(E, x) {
      var z :| (x, z) in E && Reach(E, z, x);
      ReachEdge(E, x, z);
      assert Mutual(E, x, z);
      assert z in c;
      if |c| == 1 {
        assert x == c[0] && z == c[0];
      }
    } else if |c| > 1 {
      var y := if c[0] == x then c[1] else c[0];
      assert y != x && y in c && Mutual(E, x, y);
      var z := ReachFirst(E, x, y);
      ReachTrans(E, z, y, x);
      assert OnCycle(E, x);
    } else {
      assert c == [x];
      if (x, x) in E {
        ReachRefl(E, x);
        assert OnCycle(E, x);
      }
    }
  }

  lemma ReportedPathIsComponent(adjacency: map<Id, seq<Id>>, E: Edges, comps: seq<seq<Id>>, S: set<Id>, v: Violation)
    requires Components(adjacency, E, comps, S) && v in Report(comps, adjacency)
    ensures CyclicComponent(E, adjacency.Keys, v) && forall x :: x in v.path ==> x in S
    ensures exists x :: x in adjacency && OnCycle(E, x)
  {
    ReportMembers(comps, adjacency, v);
    var i :| 0 <= i < |comps| && ComponentViolation(comps[i], adjacency) == [v];
    CyclicIffReported(adjacency, E, comps, S, i, comps[i][0]);
    assert forall x :: x in v.path <==> x in comps[i];
    forall x, y | x in v.path && y in adjacency ensures y in v.path <==> Mutual(E, x, y) {
      assert Mutual(E, x, y) ==> y in S;
    }
    StringLeTotal(comps[i][0], comps[i][0]);
  }

  lemma CyclicIsReported(adjacency: map<Id, seq<Id>>, E: Edges, comps: seq<seq<Id>>, S: set<Id>, x: Id) returns (i: nat)
    requires Components(adjacency, E, comps, S) && x in S && OnCycle(E, x)
    ensures i < |Report(comps, adjacency)| && x in Report(comps, adjacency)[i].path
  {
    var k :| 0 <= k < |comps| && x in comps[k];
    CyclicIffReported(adjacency, E, comps, S, k, x);
    var v := ComponentViolation(comps[k], adjacency)[0];
    ReportCovers(comps, adjacency, k, v);
    i :| 0 <= i < |Report(comps, adjacency)| && Report(comps, adjacency)[i] == v;
  }

  // Where the components cover every id that lies on a cycle, the report is correct.
  lemma ReportIsCorrect(adjacency: map<Id, seq<Id>>, E: Edges, comps: seq<seq<Id>>, S: set<Id>)
    requires Components(adjacency, E, comps, S)
    ensures VerdictCorrect(E, adjacency.Keys, Report(comps, adjacency)) <==> forall x :: OnCycle(E, x) ==> x in S
  {
    var report := Report(comps, adjacency);
    forall v | v in report ensures CyclicComponent(E, adjacency.Keys, v) && forall x :: x in v.path ==> x in S {
      ReportedPathIsComponent(adjacency, E, comps, S, v);
    }
    forall x | x in S && OnCycle(E, x) ensures exists i :: 0 <= i < |report| && x in report[i].path {
      var i := CyclicIsReported(adjacency, E, comps, S, x);
    }
    forall i, j, x | 0 <= i < j < |report| && x in report[i].path ensures x !in report[j].path {
      ReportDisjoint(comps, adjacency, i, j, x);
    }
    if report != [] {
      ReportedPathIsComponent(adjacency, E, comps, S, report[0]);
    }
    assert forall i :: 0 <= i < |report| ==> report[i] in report;
    assert forall x :: OnCycle(E, x) ==> x in adjacency;
  }

  // An empty id is on no reported path, so a cycle through it, a self-edge say, goes unnamed.
  lemma EmptyIdIsNeverReported(E: Edges, scope: set<Id>, violations: seq<Violation>)
    requires "" in scope && forall v :: v in violations ==> "" !in v.path
    ensures VerdictCorrect(E, scope, violations) ==> !OnCycle(E, "")
    ensures ("", "") in E ==> !VerdictCorrect(E, scope, violations)
  {
    ReachRefl(E, "");
    assert forall i :: 0 <= i < |violations| ==> violations[i] in violations;
  }

  lemma ReportAvoids(comps: seq<seq<Id>>, adjacency: map<Id, seq<Id>>, x: Id)
    requires forall c :: c in comps ==> x !in c
    ensures forall v :: v in Report(comps, adjacency) ==> x !in v.path
  {
    forall v | v in Report(comps, adjacency) ensures x !in v.path {
      ReportMembers(comps, adjacency, v);
      var i :| 0 <= i < |comps| && ComponentViolation(comps[i], adjacency) == [v];
      assert comps[i] in comps;
      assert forall y :: y in v.path ==> y in comps[i];
    }
  }

  lemma ScopeStep(nodes: seq<Node>, i: nat, matches: string -> bool)
    requires i < |nodes|
    ensures ScopeOf(nodes[..i + 1], matches)
         == ScopeOf(nodes[..i], matches) + if matches(nodes[i].path) then {nodes[i].id} else {}
  {
    assert nodes[..i + 1] == nodes[..i] + [nodes[i]];
    assert forall n :: n in nodes[..i + 1] <==> n in nodes[..i] || n == nodes[i];
  }

  // The ids of the nodes whose path the selector accepts, in order.
  method ScopedNodes(nodes: seq<Node>, matches: string -> bool) returns (scopedNodes: seq<Id>)
    ensures Elements(scopedNodes) == ScopeOf(nodes, matches) && SortedBy(scopedNodes, StringLe)
    ensures forall x :: x in scopedNodes <==> exists n :: n in nodes && n.id == x && matches(n.path)
  {
    var ids: seq<Id> := [];
    for i := 0 to |nodes|
      invariant Elements(ids) == ScopeOf(nodes[..i], matches)
    {
      ScopeStep(nodes, i, matches);
      if matches(nodes[i].path) {
        ids := ids + [nodes[i].id];
        ElementsStep(ids, |ids| - 1);
        assert ids[..|ids|] == ids;
      }
    }
    assert nodes[..|nodes|] == nodes;
    SortKeepsMembers(ids);
    SortStringsSorted(ids);
    scopedNodes := SortStrings(ids);
    forall x ensures x in scopedNodes <==> exists n :: n in nodes && n.id == x && matches(n.path) {
      assert x in scopedNodes <==> x in ScopeOf(nodes, matches);
    }
  }

  // No id on a cycle reaches an empty id.
  ghost predicate EmptyIdApart(E: Edges) {
    forall x :: OnCycle(E, x) ==> !Reach(E, x, "")
  }

  // Whether an id is named. In the component of an empty id that takes a second id or a self-edge; elsewhere
  // a cycle, and no way to the empty id around the other ids it reaches.
  ghost predicate Named(E: Edges, x: Id) {
    && x != "" && OnCycle(E, x)
    && if Mutual(E, "", x) then (x, x) in E || exists y {:trigger Mutual(E, "", y)} :: y !in {"", x} && Mutual(E, "", y)
       else !Reach(Ahead(E), x, "")
  }

  ghost predicate OnPath(violations: seq<Violation>, x: Id) {
    exists v :: v in violations && x in v.path
  }

  lemma {:induction false} ReportAppend(a: seq<seq<Id>>, b: seq<seq<Id>>, adjacency: map<Id, seq<Id>>)
    ensures Report(a + b, adjacency) == Report(a, adjacency) + Report(b, adjacency)
    decreases |b|
  {
    if b == [] {
      assert a + b == a;
    } else {
      var n := |b| - 1;
      assert (a + b)[..|a + b| - 1] == a + b[..n];
      ReportAppend(a, b[..n], adjacency);
    }
  }

  lemma ReportAround(components: seq<seq<Id>>, k: nat, adjacency: map<Id, seq<Id>>)
    requires k < |components|
    ensures Report(components, adjacency)
         == Report(components[..k], adjacency) + ComponentViolation(components[k], adjacency)
            + Report(components[k + 1..], adjacency)
    ensures Report(components[..k] + components[k + 1..], adjacency)
         == Report(components[..k], adjacency) + Report(components[k + 1..], adjacency)
  {
    hide ComponentViolation;
    ReportAppend(components[..k], components[k + 1..], adjacency);
    assert components == components[..k + 1] + components[k + 1..];
    ReportAppend(components[..k + 1], components[k + 1..], adjacency);
    assert components[..k + 1][..k] == components[..k];
  }

  lemma MutualIsCyclic(E: Edges, x: Id, y: Id)
    requires Mutual(E, x, y) && x != y
    ensures OnCycle(E, x)
  {
    var z := ReachFirst(E, x, y);
    ReachTrans(E, z, y, x);
  }

  // Of the whole components exactly the ids on a cycle are named.
  lemma DoneNamed(adjacency: map<Id, seq<Id>>, E: Edges, done: seq<seq<Id>>, S: set<Id>, x: Id)
    requires Components(adjacency, E, done, S)
    ensures OnPath(Report(done, adjacency), x) <==> x in S && OnCycle(E, x)
  {
    if OnPath(Report(done, adjacency), x) {
      var v :| v in Report(done, adjacency) && x in v.path;
      ReportMembers(done, adjacency, v);
      var i :| 0 <= i < |done| && ComponentViolation(done[i], adjacency) == [v];
      CyclicIffReported(adjacency, E, done, S, i, x);
    }
    if x in S && OnCycle(E, x) {
      var i := CyclicIsReported(adjacency, E, done, S, x);
    }
  }

  lemma OnlyMember<T>(s: seq<T>, x: T)
    requires NoDup(s) && x in s && forall y :: y in s ==> y == x
    ensures s == [x]
  {
    FirstTwo(s);
  }

  lemma FirstTwo<T>(s: seq<T>)
    ensures |s| < 2 || (s[0] in s && s[1] in s)
  {
  }

  lemma AroundNamed(adjacency: map<Id, seq<Id>>, E: Edges, last: seq<Id>, x: Id)
    requires Represents(adjacency, E) && AroundEmptyId(E, last)
    ensures OnPath(ComponentViolation(last, adjacency), x) <==> Mutual(E, "", x) && Named(E, x)
  {
    if x != "" && Mutual(E, "", x) {
      MutualIsCyclic(E, x, "");
      if y :| y !in {"", x} && Mutual(E, "", y) {
        assert x in last && y in last;
        assert |last| > 1;
        assert ComponentViolation(last, adjacency) == [Cycle(last, |last|)];
      } else {
        forall y | y in last ensures y == x {
          assert Mutual(E, "", y);
        }
        assert x in last;
        OnlyMember(last, x);
        if (x, x) in E {
          assert x in adjacency[x];
          assert ComponentViolation(last, adjacency) == [Cycle([x, x], 2)];
        }
      }
    }
  }

  // Exactly the ids that `Named` says are on a reported path.
  lemma ReportNames(adjacency: map<Id, seq<Id>>, E: Edges, components: seq<seq<Id>>, done: seq<seq<Id>>, k: nat, x: Id)
    requires Emitted(E, adjacency.Keys, components, done, k)
    requires Components(adjacency, E, done, Whole(E, adjacency.Keys))
    ensures OnPath(Report(components, adjacency), x) <==> Named(E, x)
  {
    DoneNamed(adjacency, E, done, Whole(E, adjacency.Keys), x);
    ReachRefl(E, "");
    assert OnCycle(E, x) ==> x in adjacency;
    if "" in adjacency {
      ReportAround(components, k, adjacency);
      AroundNamed(adjacency, E, components[k], x);
    } else {
      NobodyReachesEmpty(adjacency, E);
    }
  }

  lemma AroundIsEmpty(E: Edges, last: seq<Id>)
    requires AroundEmptyId(E, last) && !OnCycle(E, "")
    ensures last == []
  {
    if last != [] {
      assert last[0] in last;
      MutualIsCyclic(E, "", last[0]);
    }
  }

  // When the empty id is on no cycle, the report is that of the whole components.
  lemma ReportOfDone(adjacency: map<Id, seq<Id>>, E: Edges, components: seq<seq<Id>>, done: seq<seq<Id>>, k: nat)
    requires Emitted(E, adjacency.Keys, components, done, k) && !OnCycle(E, "")
    ensures Report(components, adjacency) == Report(done, adjacency)
  {
    if "" in adjacency {
      AroundIsEmpty(E, components[k]);
      ReportAround(components, k, adjacency);
    }
  }

  lemma VerdictIff(adjacency: map<Id, seq<Id>>, E: Edges, components: seq<seq<Id>>, done: seq<seq<Id>>, k: nat)
    requires Emitted(E, adjacency.Keys, components, done, k)
    requires Components(adjacency, E, done, Whole(E, adjacency.Keys))
    requires forall v :: v in Report(components, adjacency) ==> "" !in v.path
    ensures VerdictCorrect(E, adjacency.Keys, Report(components, adjacency)) <==> EmptyIdApart(E)
  {
    ReachRefl(E, "");
    assert forall x :: OnCycle(E, x) ==> x in adjacency;
    if OnCycle(E, "") {
      EmptyIdIsNeverReported(E, adjacency.Keys, Report(components, adjacency));
    } else {
      ReportOfDone(adjacency, E, components, done, k);
      ReportIsCorrect(adjacency, E, done, Whole(E, adjacency.Keys));
      forall x | OnCycle(E, x) ensures x in Whole(E, adjacency.Keys) <==> !Reach(E, x, "") {
        AroundReach(E, x);
        if Mutual(E, "", x) && x != "" {
          MutualIsCyclic(E, "", x);
        }
      }
    }
  }

  // Silence means that no id is named.
  lemma SilentIff(adjacency: map<Id, seq<Id>>, components: seq<seq<Id>>)
    ensures Report(components, adjacency) == [] <==> forall x :: !OnPath(Report(components, adjacency), x)
  {
    var report := Report(components, adjacency);
    if report != [] {
      assert report[0] in report;
      ReportMembers(components, adjacency, report[0]);
      assert OnPath(report, report[0].path[0]);
    }
  }

  // The verdict is right if and only if no cycle leads to an empty id, as when no id is empty. In any case
  // the ids on reported paths are the named ones, and silence tells a graph without cycles from the
  // others if and only if the graph has no cycle or some id is named.
  ghost predicate RuleSpec(graph: Graph, matches: string -> bool, violations: seq<Violation>) {
    var scope := ScopeOf(graph.nodes, matches);
    var E := ScopedEdges(graph.edges, scope);
    && (VerdictCorrect(E, scope, violations) <==> EmptyIdApart(E))
    && ("" !in scope ==> EmptyIdApart(E))
    && (forall x :: OnPath(violations, x) <==> Named(E, x))
    && ((violations == [] <==> Acyclic(E)) <==> Acyclic(E) || exists x :: Named(E, x))
    && ("" !in scope ==> InOrder(E, violations))
  }

  // No reported path leads to a later one.
  ghost predicate InOrder(E: Edges, violations: seq<Violation>) {
    forall i, j, x, y :: 0 <= i < j < |violations| && x in violations[i].path && y in violations[j].path ==> !Reach(E, x, y)
  }

  // Over components in reverse topological order walks lead to the same or an earlier one.
  lemma {:induction false} WalkDescends(E: Edges, comps: seq<seq<Id>>, S: set<Id>, p: seq<Id>, i: nat, j: nat, x: Id, y: Id)
    requires Partitions(comps, S) && Closed(E, S) && ReverseTopological(E, comps) && IsWalk(E, p, x, y)
    requires i < |comps| && j < |comps| && x in comps[i] && y in comps[j]
    ensures j <= i
    decreases |p|
  {
    if |p| > 1 {
      assert x in S && p[1] in S;
      var k :| 0 <= k < |comps| && p[1] in comps[k];
      WalkDescends(E, comps, S, p[1..], k, j, p[1], y);
    }
  }

  // Violations come in the order of their components.
  lemma {:induction false} ReportOrder(comps: seq<seq<Id>>, adjacency: map<Id, seq<Id>>, i: nat, j: nat)
    returns (k: nat, l: nat)
    requires i < j < |Report(comps, adjacency)|
    ensures k < l < |comps|
    ensures ComponentViolation(comps[k], adjacency) == [Report(comps, adjacency)[i]]
    ensures ComponentViolation(comps[l], adjacency) == [Report(comps, adjacency)[j]]
  {
    var n := |comps| - 1;
    var front := Report(comps[..n], adjacency);
    if j < |front| {
      k, l := ReportOrder(comps[..n], adjacency, i, j);
      assert comps[..n][k] == comps[k] && comps[..n][l] == comps[l];
    } else {
      l := n;
      assert front[i] in front;
      ReportMembers(comps[..n], adjacency, front[i]);
      k :| 0 <= k < |comps[..n]| && ComponentViolation(comps[..n][k], adjacency) == [front[i]];
    }
  }

  lemma ReportInOrder(adjacency: map<Id, seq<Id>>, E: Edges, components: seq<seq<Id>>)
    requires Represents(adjacency, E) && Partitions(components, adjacency.Keys) && ReverseTopological(E, components)
    ensures InOrder(E, Report(components, adjacency))
  {
    var report := Report(components, adjacency);
    forall i, j, x, y | 0 <= i < j < |report| && x in report[i].path && y in report[j].path ensures !Reach(E, x, y) {
      var k, l := ReportOrder(components, adjacency, i, j);
      assert x in components[k] && y in components[l];
      if Reach(E, x, y) {
        var p :| IsWalk(E, p, x, y);
        WalkDescends(E, components, adjacency.Keys, p, k, l, x, y);
      }
    }
  }

  lemma ScopeHasNoEmptyId(adjacency: map<Id, seq<Id>>, E: Edges)
    requires Represents(adjacency, E) && "" !in adjacency
    ensures EmptyIdApart(E)
  {
    NobodyReachesEmpty(adjacency, E);
    assert forall x :: OnCycle(E, x) ==> x in adjacency;
  }

  lemma RuleIsMet(adjacency: map<Id, seq<Id>>, E: Edges, components: seq<seq<Id>>, done: seq<seq<Id>>, k: nat,
                  violations: seq<Violation>)
    requires Found(adjacency, E, components, done, k) && violations == Report(components, adjacency)
    ensures VerdictCorrect(E, adjacency.Keys, violations) <==> EmptyIdApart(E)
    ensures "" !in adjacency ==> EmptyIdApart(E)
    ensures forall x :: OnPath(violations, x) <==> Named(E, x)
    ensures (violations == [] <==> Acyclic(E)) <==> Acyclic(E) || exists x :: Named(E, x)
    ensures "" !in adjacency ==> InOrder(E, violations)
  {
    ReportAvoids(components, adjacency, "");
    VerdictIff(adjacency, E, components, done, k);
    if "" !in adjacency {
      ScopeHasNoEmptyId(adjacency, E);
      FoundPartitions(adjacency, E, components, done, k);
      ReportInOrder(adjacency, E, components);
    }
    forall x ensures OnPath(violations, x) <==> Named(E, x) {
      ReportNames(adjacency, E, components, done, k, x);
    }
    SilentIff(adjacency, components);
  }

  // ---- The verdict in terms of the input ----

  ghost predicate Matched(graph: Graph, matches: string -> bool, x: Id) {
    exists n :: n in graph.nodes && n.id == x && matches(n.path)
  }

  // A walk of at least one edge of the input through ids of matched nodes.
  ghost predicate InputWalk(graph: Graph, matches: string -> bool, p: seq<Id>) {
    && |p| >= 2 && (forall x :: x in p ==> Matched(graph, matches, x))
    && forall i :: 0 <= i < |p| - 1 ==> Edge(p[i], p[i + 1]) in graph.edges
  }

  ghost predicate Leads(graph: Graph, matches: string -> bool, x: Id, y: Id) {
    exists p :: InputWalk(graph, matches, p) && p[0] == x && p[|p| - 1] == y
  }

  // A walk to the empty id whose other ids are not reached from it.
  ghost predicate LeadsAround(graph: Graph, matches: string -> bool, x: Id) {
    exists p :: InputWalk(graph, matches, p) && p[0] == x && p[|p| - 1] == ""
      && forall i :: 0 <= i < |p| - 1 ==> p[i] != "" && !Leads(graph, matches, "", p[i])
  }

  ghost predicate BothWays(graph: Graph, matches: string -> bool, x: Id, y: Id) {
    Leads(graph, matches, x, y) && Leads(graph, matches, y, x)
  }

  ghost predicate SharePath(violations: seq<Violation>, x: Id, y: Id) {
    exists v :: v in violations && x in v.path && y in v.path
  }

  // The scoped edges on their own, as the input gives them.
  lemma ScopedMeaning(graph: Graph, matches: string -> bool)
    ensures var scope := ScopeOf(graph.nodes, matches);
            var E := ScopedEdges(graph.edges, scope);
            && (forall x :: x in scope <==> Matched(graph, matches, x))
            && (forall x, y {:trigger (x, y) in E} :: (x, y) in E <==>
                  Edge(x, y) in graph.edges && Matched(graph, matches, x) && Matched(graph, matches, y))
  {
    var scope := ScopeOf(graph.nodes, matches);
    var E := ScopedEdges(graph.edges, scope);
    forall x ensures x in scope <==> Matched(graph, matches, x) {
    }
    forall x, y | Edge(x, y) in graph.edges && x in scope && y in scope ensures (x, y) in E {
      assert Edge(x, y) in graph.edges;
    }
  }

  ghost predicate OverInput(graph: Graph, matches: string -> bool, E: Edges) {
    forall x, y {:trigger (x, y) in E} :: (x, y) in E <==>
      Edge(x, y) in graph.edges && Matched(graph, matches, x) && Matched(graph, matches, y)
  }

  lemma {:induction false} WalkIsInput(graph: Graph, matches: string -> bool, E: Edges, p: seq<Id>, x: Id, y: Id)
    requires OverInput(graph, matches, E) && |p| >= 2
    ensures IsWalk(E, p, x, y) <==> InputWalk(graph, matches, p) && p[0] == x && p[|p| - 1] == y
    decreases |p|
  {
    hide Matched;
    var q := p[1..];
    assert p == [p[0]] + q && q[|q| - 1] == p[|p| - 1];
    if |p| == 2 {
      assert forall z :: z in p <==> z == p[0] || z == p[1];
    } else {
      WalkIsInput(graph, matches, E, q, p[1], y);
      InputWalkFirst(graph, matches, p);
    }
  }

  lemma InputWalkFirst(graph: Graph, matches: string -> bool, p: seq<Id>)
    requires |p| > 2
    ensures InputWalk(graph, matches, p)
       <==> Edge(p[0], p[1]) in graph.edges && Matched(graph, matches, p[0]) && InputWalk(graph, matches, p[1..])
  {
    hide Matched;
    var q := p[1..];
    assert forall z :: z in p <==> z == p[0] || z in q;
    if Edge(p[0], p[1]) in graph.edges && InputWalk(graph, matches, q) {
      forall i | 0 <= i < |p| - 1 ensures Edge(p[i], p[i + 1]) in graph.edges {
        assert i > 0 ==> p[i] == q[i - 1] && p[i + 1] == q[i];
      }
    }
    if InputWalk(graph, matches, p) {
      forall i | 0 <= i < |q| - 1 ensures Edge(q[i], q[i + 1]) in graph.edges {
        assert Edge(p[i + 1], p[i + 2]) in graph.edges;
      }
    }
  }

  lemma ReachIsLeads(graph: Graph, matches: string -> bool, E: Edges, x: Id, y: Id)
    requires OverInput(graph, matches, E)
    ensures x != y ==> (Reach(E, x, y) <==> Leads(graph, matches, x, y))
    ensures OnCycle(E, x) <==> Leads(graph, matches, x, x)
  {
    hide OverInput;
    if Reach(E, x, y) && x != y {
      var p :| IsWalk(E, p, x, y);
      WalkIsInput(graph, matches, E, p, x, y);
    }
    if OnCycle(E, x) {
      var z :| (x, z) in E && Reach(E, z, x);
      var p :| IsWalk(E, p, z, x);
      assert ([x] + p)[1..] == p;
      WalkIsInput(graph, matches, E, [x] + p, x, x);
    }
    if Leads(graph, matches, x, y) {
      var p :| InputWalk(graph, matches, p) && p[0] == x && p[|p| - 1] == y;
      WalkIsInput(graph, matches, E, p, x, y);
    }
    if Leads(graph, matches, x, x) {
      var p :| InputWalk(graph, matches, p) && p[0] == x && p[|p| - 1] == x;
      WalkIsInput(graph, matches, E, p, x, x);
      assert IsWalk(E, p[1..], p[1], x);
    }
  }

  lemma {:induction false} AheadWalkIff(E: Edges, p: seq<Id>, x: Id)
    ensures IsWalk(Ahead(E), p, x, "") <==> IsWalk(E, p, x, "") && forall i :: 0 <= i < |p| - 1 ==> !Reach(E, "", p[i])
    decreases |p|
  {
    if |p| > 1 {
      AheadWalkIff(E, p[1..], p[1]);
      assert forall i :: 0 <= i < |p| - 1 ==> (i > 0 ==> p[i] == p[1..][i - 1]);
      assert forall i :: 0 <= i < |p[1..]| - 1 ==> p[1..][i] == p[i + 1];
    }
  }

  lemma AroundIsInput(graph: Graph, matches: string -> bool, E: Edges, x: Id)
    requires OverInput(graph, matches, E) && x != ""
    ensures Reach(Ahead(E), x, "") <==> LeadsAround(graph, matches, x)
  {
    hide OverInput;
    ReachRefl(E, "");
    forall y ensures Reach(E, "", y) <==> y == "" || Leads(graph, matches, "", y) {
      ReachIsLeads(graph, matches, E, "", y);
    }
    if Reach(Ahead(E), x, "") {
      var p :| IsWalk(Ahead(E), p, x, "");
      AheadWalkIff(E, p, x);
      WalkIsInput(graph, matches, E, p, x, "");
      assert InputWalk(graph, matches, p);
    }
    if LeadsAround(graph, matches, x) {
      var p :| InputWalk(graph, matches, p) && p[0] == x && p[|p| - 1] == ""
        && forall i :: 0 <= i < |p| - 1 ==> p[i] != "" && !Leads(graph, matches, "", p[i]);
      WalkIsInput(graph, matches, E, p, x, "");
      AheadWalkIff(E, p, x);
    }
  }

  ghost predicate NamedInInput(graph: Graph, matches: string -> bool, x: Id) {
    && x != "" && Leads(graph, matches, x, x)
    && if BothWays(graph, matches, "", x)
       then Edge(x, x) in graph.edges
            || exists y {:trigger BothWays(graph, matches, "", y)} :: y !in {"", x} && BothWays(graph, matches, "", y)
       else !LeadsAround(graph, matches, x)
  }

  lemma MutualIsBothWays(graph: Graph, matches: string -> bool, E: Edges, x: Id, y: Id)
    requires OverInput(graph, matches, E) && x != y
    ensures Mutual(E, x, y) <==> BothWays(graph, matches, x, y)
  {
    ReachIsLeads(graph, matches, E, x, y);
    ReachIsLeads(graph, matches, E, y, x);
  }

  lemma NamedIsInput(graph: Graph, matches: string -> bool, E: Edges, x: Id)
    requires OverInput(graph, matches, E)
    ensures Named(E, x) <==> NamedInInput(graph, matches, x)
    ensures OnCycle(E, x) ==> Matched(graph, matches, x)
  {
    ReachIsLeads(graph, matches, E, x, x);
    if x != "" && OnCycle(E, x) {
      AroundIsInput(graph, matches, E, x);
      forall y | y != "" ensures Mutual(E, "", y) <==> BothWays(graph, matches, "", y) {
        MutualIsBothWays(graph, matches, E, "", y);
      }
      var z :| (x, z) in E && Reach(E, z, x);
      assert (x, x) in E <==> Edge(x, x) in graph.edges;
    }
  }

  // A reported path is a component of at least two ids, in order, or an id with a self-edge, twice.
  ghost predicate PathShape(graph: Graph, v: Violation) {
    && v.edgeCount == |v.path| && |v.path| >= 2 && SortedBy(v.path, StringLe)
    && (NoDup(v.path) || (v.path == [v.path[0], v.path[0]] && Edge(v.path[0], v.path[0]) in graph.edges))
  }

  // What a caller may rely on, over the nodes and edges it passes.
  ghost predicate InputVerdict(graph: Graph, matches: string -> bool, violations: seq<Violation>) {
    && (forall x :: OnPath(violations, x) ==> Matched(graph, matches, x))
    && (forall x :: OnPath(violations, x) <==> NamedInInput(graph, matches, x))
    && (!Matched(graph, matches, "") ==>
          && (violations == [] <==> forall x :: !Leads(graph, matches, x, x))
          && (forall x :: OnPath(violations, x) <==> Leads(graph, matches, x, x))
          && (forall x, y :: x != y ==> (SharePath(violations, x, y) <==> BothWays(graph, matches, x, y)))
          && (forall v :: v in violations ==> PathShape(graph, v))
          && (forall i, j, x :: 0 <= i < j < |violations| && x in violations[i].path ==> x !in violations[j].path)
          && forall i, j, x, y :: 0 <= i < j < |violations| && x in violations[i].path && y in violations[j].path ==>
               !Leads(graph, matches, x, y))
  }

  lemma SharedIsMutual(E: Edges, scope: set<Id>, violations: seq<Violation>, x: Id, y: Id)
    requires VerdictCorrect(E, scope, violations) && x != y && forall e :: e in E ==> e.0 in scope && e.1 in scope
    ensures SharePath(violations, x, y) <==> Mutual(E, x, y)
  {
    if SharePath(violations, x, y) {
      var v :| v in violations && x in v.path && y in v.path;
      assert CyclicComponent(E, scope, v);
    }
    if Mutual(E, x, y) {
      MutualIsCyclic(E, x, y);
      MutualIsCyclic(E, y, x);
      assert x in scope && y in scope;
      var i :| 0 <= i < |violations| && x in violations[i].path;
      assert violations[i] in violations;
      assert CyclicComponent(E, scope, violations[i]);
    }
  }

  // The verdict as the input gives it: no scope, adjacency or component is mentioned.
  lemma VerdictOverInput(graph: Graph, matches: string -> bool, violations: seq<Violation>)
    requires RuleSpec(graph, matches, violations)
    ensures InputVerdict(graph, matches, violations)
  {
    var scope := ScopeOf(graph.nodes, matches);
    var E := ScopedEdges(graph.edges, scope);
    ScopedMeaning(graph, matches);
    forall x ensures OnPath(violations, x) <==> NamedInInput(graph, matches, x)
             ensures OnPath(violations, x) ==> Matched(graph, matches, x) {
      NamedIsInput(graph, matches, E, x);
    }
    if "" !in scope {
      VerdictOfPlainIds(graph, matches, violations, E, scope);
    }
  }

  lemma VerdictOfPlainIds(graph: Graph, matches: string -> bool, violations: seq<Violation>, E: Edges, scope: set<Id>)
    requires OverInput(graph, matches, E) && VerdictCorrect(E, scope, violations) && InOrder(E, violations)
    requires (forall x :: x in scope <==> Matched(graph, matches, x)) && forall e :: e in E ==> e.0 in scope && e.1 in scope
    ensures violations == [] <==> forall x :: !Leads(graph, matches, x, x)
    ensures forall x :: OnPath(violations, x) <==> Leads(graph, matches, x, x)
    ensures forall x, y :: x != y ==> (SharePath(violations, x, y) <==> BothWays(graph, matches, x, y))
    ensures forall v :: v in violations ==> PathShape(graph, v)
    ensures forall i, j, x :: 0 <= i < j < |violations| && x in violations[i].path ==> x !in violations[j].path
    ensures forall i, j, x, y :: 0 <= i < j < |violations| && x in violations[i].path && y in violations[j].path ==>
              !Leads(graph, matches, x, y)
  {
    forall x ensures OnCycle(E, x) <==> Leads(graph, matches, x, x) {
      ReachIsLeads(graph, matches, E, x, x);
    }
    forall x ensures OnPath(violations, x) <==> OnCycle(E, x) {
      OnPathIsCyclic(E, scope, violations, x);
    }
    forall x, y | x != y ensures SharePath(violations, x, y) <==> BothWays(graph, matches, x, y) {
      SharedIsMutual(E, scope, violations, x, y);
      MutualIsBothWays(graph, matches, E, x, y);
    }
    forall v | v in violations ensures PathShape(graph, v) {
      assert CyclicComponent(E, scope, v);
    }
    forall i, j, x, y | 0 <= i < j < |violations| && x in violations[i].path && y in violations[j].path
      ensures !Leads(graph, matches, x, y)
    {
      assert violations[i] in violations;
      ReachIsLeads(graph, matches, E, x, y);
    }
  }

  lemma OnPathIsCyclic(E: Edges, scope: set<Id>, violations: seq<Violation>, x: Id)
    requires VerdictCorrect(E, scope, violations) && forall e :: e in E ==> e.0 in scope && e.1 in scope
    ensures OnPath(violations, x) <==> OnCycle(E, x)
  {
    if OnPath(violations, x) {
      var v :| v in violations && x in v.path;
      assert CyclicComponent(E, scope, v);
      if NoDup(v.path) {
        var y := if v.path[0] == x then v.path[1] else v.path[0];
        assert y in v.path && y in scope && y != x;
        MutualIsCyclic(E, x, y);
      } else {
        ReachRefl(E, x);
        assert (x, x) in E;
      }
    }
    if OnCycle(E, x) {
      var i :| 0 <= i < |violations| && x in violations[i].path;
    }
  }

  // An empty id and one other id on a cycle: nothing is reported.
  lemma EmptyPairIsSilent(a: Id)
    requires a != ""
    ensures var E := {("", a), (a, "")};
            !Acyclic(E) && forall x :: !Named(E, x)
  {
    var E := {("", a), (a, "")};
    ReachEdge(E, a, "");
    ReachEdge(E, "", a);
    assert ("", a) in E;
    assert OnCycle(E, "");
    forall x ensures !Named(E, x) {
      if Mutual(E, "", x) && x != "" {
        ClosedReach(E, {"", a}, "", x);
        forall y | Mutual(E, "", y) ensures y in {"", a} {
          ClosedReach(E, {"", a}, "", y);
        }
      } else if x == a {
        assert Mutual(E, "", a);
      }
    }
  }

  method ExecuteCycleRule(graph: Graph, matches: string -> bool) returns (violations: seq<Violation>)
    ensures RuleSpec(graph, matches, violations) && InputVerdict(graph, matches, violations)
  {
    ghost var scope := ScopeOf(graph.nodes, matches);
    ghost var E := ScopedEdges(graph.edges, scope);
    var scopedNodes := ScopedNodes(graph.nodes, matches);
    var adjacency := BuildAdjacency(scopedNodes, graph.edges);
    var components;
    ghost var done, k;
    components, done, k := FindComponents(adjacency, scopedNodes, E);
    violations := CollectViolations(components, adjacency);
    RuleIsMet(adjacency, E, components, done, k, violations);
    VerdictOverInput(graph, matches, violations);
  }
}
