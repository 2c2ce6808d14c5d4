// The state of the depth-first search inside executeCycleRule, as a value, and the
// facts that each of its steps keeps. `gray` is the set of calls still on the call stack.
module TarjanTheory {
  import opened Graphs

  datatype Search = Search(
    next: nat,
    index: map<Id, nat>,
    low: map<Id, nat>,
    stack: seq<Id>,
    comps: seq<seq<Id>>,
    gray: set<Id>)

  ghost function Flat(comps: seq<seq<Id>>): set<Id> {
    if comps == [] then {}
    else Flat(comps[..|comps| - 1]) + Elements(comps[|comps| - 1])
  }

  // The components found so far: disjoint, strongly connected, and every edge out of a
  // component ends in it or in an earlier one.
  ghost predicate Condensed(E: Edges, comps: seq<seq<Id>>) {
    comps == [] ||
    var rest, last := comps[..|comps| - 1], comps[|comps| - 1];
    && Condensed(E, rest)
    && last != [] && NoDup(last)
    && Elements(last) !! Flat(rest)
    && Closed(E, Flat(comps))
    && forall x, y :: x in last && y in last ==> Reach(E, x, y)
  }

  // The stack is strictly increasing in index, hence free of duplicates.
  ghost predicate StackOrdered(s: Search) {
    && (forall k :: k in s.index ==> s.index[k] < s.next)
    && (forall x :: x in s.stack ==> x in s.index)
    && forall i, j :: 0 <= i < j < |s.stack| ==> s.index[s.stack[i]] < s.index[s.stack[j]]
  }

  ghost predicate Descends(E: Edges, s: Search, y: Id, w: Id)
    requires y in s.index && StackOrdered(s)
  {
    w in s.stack && s.index[w] < s.index[y] && Reach(E, y, w)
  }

  ghost predicate Anchored(E: Edges, s: Search, y: Id)
    requires y in s.index && StackOrdered(s)
  {
    exists w :: Descends(E, s, y, w)
  }

  // A finished node still on the stack reaches an older node on the stack.
  ghost predicate AllAnchored(E: Edges, s: Search)
    requires StackOrdered(s)
  {
    forall y {:trigger Anchored(E, s, y)} :: y in s.stack && y !in s.gray ==> Anchored(E, s, y)
  }

  ghost predicate Inv(E: Edges, s: Search) {
    && StackOrdered(s)
    && s.gray <= Elements(s.stack)
    && Flat(s.comps) !! Elements(s.stack)
    && Flat(s.comps) + Elements(s.stack) == s.index.Keys
    && Condensed(E, s.comps)
    // a finished node has no unvisited successor
    && (forall e {:trigger e in E} :: e in E && e.0 in s.index && e.0 !in s.gray ==> e.1 in s.index)
    && AllAnchored(E, s)
  }

  // What survives of state a in a later state b: indices and low-links are never rewritten
  // for known nodes, the old stack stays below, components are only appended.
  ghost predicate Grows(a: Search, b: Search) {
    && a.next <= b.next
    && a.stack <= b.stack && a.comps <= b.comps
    && (forall k :: k in a.index ==> k in b.index && b.index[k] == a.index[k])
    && (forall k :: k in a.index && k in a.low ==> k in b.low && b.low[k] == a.low[k])
    && forall k :: k in b.index && k !in a.index ==> b.index[k] >= a.next
  }

  ghost predicate CrossBound(E: Edges, a: Search, b: Search, from: nat, bound: nat)
    requires StackOrdered(a)
  {
    forall i, w :: from <= i < |b.stack| && w in a.stack && (b.stack[i], w) in E ==> bound <= a.index[w]
  }

  // The contract of one call of strongConnect(v).
  ghost predicate Visited(E: Edges, a: Search, b: Search, v: Id) {
    && StackOrdered(a) && StackOrdered(b)
    && b.gray == a.gray
    && Grows(a, b)
    && v in b.index && v in b.low && b.index[v] == a.next
    && b.low[v] <= b.index[v]
    && (forall k {:trigger Reach(E, v, k)} {:trigger k in b.index} :: k in b.index && k !in a.index ==> Reach(E, v, k))
    && (v in b.stack ==> exists w :: w in a.stack && a.index[w] == b.low[v] && Reach(E, v, w))
    && (v !in b.stack ==> b.stack == a.stack && b.low[v] == b.index[v])
    && CrossBound(E, a, b, |a.stack|, b.low[v])
  }

  // The invariant of the neighbour loop of strongConnect(x), entered in state a;
  // `seen` are the neighbours handled so far.
  ghost predicate Looping(E: Edges, a: Search, s: Search, x: Id, seen: set<Id>) {
    && StackOrdered(a) && StackOrdered(s)
    && Grows(a, s)
    && x !in a.index && a.next < s.next
    && s.gray == a.gray + {x}
    && |a.stack| < |s.stack| && s.stack[|a.stack|] == x
    && x in s.index && x in s.low && s.index[x] == a.next
    && s.low[x] <= s.index[x]
    && (forall k {:trigger Reach(E, x, k)} {:trigger k in s.index} :: k in s.index && k !in a.index ==> Reach(E, x, k))
    && (exists w :: w in s.stack && s.index[w] == s.low[x] && Reach(E, x, w))
    && CrossBound(E, a, s, |a.stack| + 1, s.low[x])
    && forall t :: t in seen ==> t in s.index && (t in a.stack ==> s.low[x] <= a.index[t])
  }

  function Enter(s: Search, x: Id): Search {
    Search(s.next + 1, s.index[x := s.next], s.low[x := s.next], s.stack + [x], s.comps, s.gray + {x})
  }

  function Lower(s: Search, x: Id, bound: nat): Search
    requires x in s.low
  {
    s.(low := s.low[x := if bound < s.low[x] then bound else s.low[x]])
  }

  lemma EnterAnchored(E: Edges, s: Search, x: Id)
    requires StackOrdered(s) && AllAnchored(E, s) && x !in s.index
    ensures StackOrdered(Enter(s, x)) && AllAnchored(E, Enter(s, x))
  {
    var t := Enter(s, x);
    forall y | y in t.stack && y !in t.gray ensures Anchored(E, t, y) {
      assert y in s.stack;
      assert Anchored(E, s, y);
      var w :| Descends(E, s, y, w);
      assert Descends(E, t, y, w);
    }
  }

  lemma EnterKeepsInv(E: Edges, s: Search, x: Id)
    requires Inv(E, s) && x !in s.index
    ensures Inv(E, Enter(s, x))
  {
    var t := Enter(s, x);
    assert Elements(t.stack) == Elements(s.stack) + {x};
    EnterAnchored(E, s, x);
  }

  lemma EnterStartsLoop(E: Edges, s: Search, x: Id)
    requires StackOrdered(s) && x !in s.index
    ensures Looping(E, s, Enter(s, x), x, {})
  {
    var t := Enter(s, x);
    ReachRefl(E, x);
    assert t.stack[|s.stack|] == x;
    assert x in t.stack && t.index[x] == t.low[x];
  }

  lemma EnterKeeps(E: Edges, s: Search, x: Id)
    requires Inv(E, s) && x !in s.index
    ensures Inv(E, Enter(s, x)) && Looping(E, s, Enter(s, x), x, {})
  {
    EnterKeepsInv(E, s, x);
    EnterStartsLoop(E, s, x);
  }

  // Everything on s's stack older than x was already on a's stack.
  lemma OlderIsBelow(E: Edges, a: Search, s: Search, x: Id, w: Id)
    requires Looping(E, a, s, x, {})
    requires w in s.stack && s.index[w] < s.index[x]
    ensures w in a.stack
  {
    var i :| 0 <= i < |s.stack| && s.stack[i] == w;
    assert i < |a.stack|;
    assert a.stack[i] == w;
  }

  lemma LowerKeepsInv(E: Edges, s: Search, x: Id, bound: nat)
    requires Inv(E, s) && x in s.low
    ensures Inv(E, Lower(s, x, bound))
  {
    var t := Lower(s, x, bound);
    forall y | y in t.stack && y !in t.gray ensures Anchored(E, t, y) {
      assert Anchored(E, s, y);
      var w :| Descends(E, s, y, w);
      assert Descends(E, t, y, w);
    }
  }

  // A neighbour that is on the stack.
  lemma SeeOnStack(E: Edges, a: Search, s: Search, x: Id, seen: set<Id>, v: Id)
    requires Inv(E, s) && Looping(E, a, s, x, seen)
    requires (x, v) in E && v in s.stack
    ensures Looping(E, a, Lower(s, x, s.index[v]), x, seen + {v})
  {
    ReachEdge(E, x, v);
  }

  // A neighbour whose component is complete.
  lemma SeeDone(E: Edges, a: Search, s: Search, x: Id, seen: set<Id>, v: Id)
    requires Looping(E, a, s, x, seen)
    requires v in s.index && v !in s.stack
    ensures Looping(E, a, s, x, seen + {v})
  {
    assert forall t :: t in a.stack ==> t in s.stack;
  }

  lemma GrowsTrans(a: Search, s: Search, r: Search)
    requires Grows(a, s) && Grows(s, r)
    requires forall k :: k in a.low ==> k in a.index
    ensures Grows(a, r)
  {
  }

  lemma StackStays(s: Search, r: Search, w: Id)
    requires s.stack <= r.stack && w in s.stack
    ensures w in r.stack
  {
    var i :| 0 <= i < |s.stack| && s.stack[i] == w;
    assert r.stack[i] == w;
  }

  // The low-link of x, lowered by that of its child v, is still witnessed.
  lemma LoweredWitness(E: Edges, a: Search, s: Search, r: Search, x: Id, seen: set<Id>, v: Id) returns (w: Id)
    requires Looping(E, a, s, x, seen) && Visited(E, s, r, v)
    requires (x, v) in E && v !in s.index
    ensures x in r.low && v in r.low && r.low[x] == s.low[x]
    ensures w in r.stack && r.index[w] == Lower(r, x, r.low[v]).low[x] && Reach(E, x, w)
  {
    if r.low[v] < s.low[x] {
      w := ChildWitness(E, a, s, r, x, seen, v);
      ReachEdge(E, x, v);
      ReachTrans(E, x, v, w);
    } else {
      w :| w in s.stack && s.index[w] == s.low[x] && Reach(E, x, w);
    }
    StackStays(s, r, w);
  }

  // A low-link below that of x leads to the stack below v.
  lemma ChildWitness(E: Edges, a: Search, s: Search, r: Search, x: Id, seen: set<Id>, v: Id) returns (w: Id)
    requires Looping(E, a, s, x, seen) && Visited(E, s, r, v) && r.low[v] < s.low[x]
    ensures w in s.stack && s.index[w] == r.low[v] && Reach(E, v, w)
  {
    w :| w in s.stack && s.index[w] == r.low[v] && Reach(E, v, w);
  }

  lemma LoweredCross(E: Edges, a: Search, s: Search, r: Search, x: Id, seen: set<Id>, v: Id)
    requires Looping(E, a, s, x, seen) && Visited(E, s, r, v)
    ensures x in r.low && v in r.low
    ensures CrossBound(E, a, r, |a.stack| + 1, Lower(r, x, r.low[v]).low[x])
  {
    forall i, w | |a.stack| + 1 <= i < |r.stack| && w in a.stack && (r.stack[i], w) in E
      ensures Lower(r, x, r.low[v]).low[x] <= a.index[w]
    {
      assert w in s.stack && s.index[w] == a.index[w];
      if i < |s.stack| {
        assert r.stack[i] == s.stack[i];
        assert s.low[x] <= a.index[w];
      } else {
        assert r.low[v] <= s.index[w];
      }
    }
  }

  lemma LoweredSeen(E: Edges, a: Search, s: Search, r: Search, x: Id, seen: set<Id>, v: Id)
    requires Looping(E, a, s, x, seen) && Visited(E, s, r, v) && v !in s.index && Grows(a, r)
    ensures x in r.low && v in r.low && Grows(a, Lower(r, x, r.low[v]))
    ensures forall t :: t in seen + {v} ==>
      t in r.index && (t in a.stack ==> Lower(r, x, r.low[v]).low[x] <= a.index[t])
  {
    forall t | t in a.stack ensures t in s.index {
      StackStays(a, s, t);
    }
  }

  // A neighbour that was unvisited and has just been visited, taking s to r.
  lemma SeeVisited(E: Edges, a: Search, s: Search, r: Search, x: Id, seen: set<Id>, v: Id)
    requires Looping(E, a, s, x, seen) && Visited(E, s, r, v)
    requires (x, v) in E && v !in s.index
    requires forall k :: k in a.low ==> k in a.index
    ensures x in r.low && v in r.low
    ensures Looping(E, a, Lower(r, x, r.low[v]), x, seen + {v})
  {
    var t := Lower(r, x, r.low[v]);
    var w := LoweredWitness(E, a, s, r, x, seen, v);
    assert w in t.stack && t.index[w] == t.low[x];
    LoweredCross(E, a, s, r, x, seen, v);
    GrowsTrans(a, s, r);
    LoweredSeen(E, a, s, r, x, seen, v);
    assert t.stack[|a.stack|] == s.stack[|a.stack|];
    forall k | k in t.index && k !in a.index ensures Reach(E, x, k) {
      if k !in s.index {
        ReachEdge(E, x, v);
        ReachTrans(E, x, v, k);
      }
    }
    assert CrossBound(E, a, t, |a.stack| + 1, t.low[x]);
  }

  // The two cases in which the loop body lowers the low-link of x, with the invariant.
  lemma LoweredByChild(E: Edges, a: Search, s: Search, r: Search, t: Search, x: Id, seen: set<Id>, v: Id)
    requires Looping(E, a, s, x, seen) && Visited(E, s, r, v) && Inv(E, r)
    requires (x, v) in E && v !in s.index
    requires forall k :: k in a.low ==> k in a.index
    requires t == r.(low := t.low)
    requires x in r.low && v in r.low ==> t.low == Lower(r, x, r.low[v]).low
    ensures Inv(E, t) && Looping(E, a, t, x, seen + {v})
  {
    SeeVisited(E, a, s, r, x, seen, v);
    LowerKeepsInv(E, r, x, r.low[v]);
    assert t == Lower(r, x, r.low[v]);
  }

  lemma LoweredByStack(E: Edges, a: Search, s: Search, t: Search, x: Id, seen: set<Id>, v: Id)
    requires Inv(E, s) && Looping(E, a, s, x, seen)
    requires (x, v) in E && v in s.stack
    requires t == Lower(s, x, s.index[v])
    ensures Inv(E, t) && Looping(E, a, t, x, seen + {v})
  {
    SeeOnStack(E, a, s, x, seen, v);
    LowerKeepsInv(E, s, x, s.index[v]);
  }

  // All neighbours of x have been handled in state s.
  ghost predicate Exhausted(E: Edges, a: Search, s: Search, x: Id, seen: set<Id>) {
    && Inv(E, a) && Inv(E, s) && Looping(E, a, s, x, seen)
    && forall e :: e in E && e.0 == x ==> e.1 in seen
  }

  function Leave(a: Search, s: Search): Search {
    s.(gray := a.gray)
  }

  // The stack from x upwards is new.
  lemma SegmentFresh(E: Edges, a: Search, s: Search, x: Id, i: nat)
    requires Looping(E, a, s, x, {}) && |a.stack| <= i < |s.stack|
    ensures s.stack[i] !in a.index
  {
    assert i == |a.stack| || s.index[s.stack[|a.stack|]] < s.index[s.stack[i]];
  }

  lemma NotGrayAbove(E: Edges, a: Search, s: Search, x: Id, i: nat)
    requires Inv(E, a) && Looping(E, a, s, x, {}) && |a.stack| < i < |s.stack|
    ensures s.stack[i] !in s.gray
  {
    SegmentFresh(E, a, s, x, i);
    assert s.index[s.stack[|a.stack|]] < s.index[s.stack[i]];
    assert forall g :: g in a.gray ==> g in a.stack;
  }

  // The bound on the low-link of x, extended to the edges of x itself.
  lemma ExhaustedCross(E: Edges, a: Search, s: Search, x: Id, seen: set<Id>)
    requires Exhausted(E, a, s, x, seen)
    ensures CrossBound(E, a, s, |a.stack|, s.low[x])
  {
    forall i, w | |a.stack| <= i < |s.stack| && w in a.stack && (s.stack[i], w) in E
      ensures s.low[x] <= a.index[w]
    {
      if i == |a.stack| {
        assert (x, w).1 in seen;
      }
    }
  }

  // x is not the root of its component: it stays on the stack.
  lemma LeaveKeepsInv(E: Edges, a: Search, s: Search, x: Id, seen: set<Id>, w: Id)
    requires Exhausted(E, a, s, x, seen) && Descends(E, s, x, w)
    ensures Inv(E, Leave(a, s))
  {
    hide AllAnchored, CrossBound, Condensed, Flat;
    var t := Leave(a, s);
    LeaveAnchored(E, s, t, x, w);
    forall e | e in E && e.0 in t.index && e.0 !in t.gray ensures e.1 in t.index {
      if e.0 == x {
        assert e.1 in seen;
      }
    }
    assert forall g :: g in a.gray ==> g in a.stack && g in s.stack;
  }

  lemma LeaveAnchored(E: Edges, s: Search, t: Search, x: Id, w: Id)
    requires StackOrdered(s) && AllAnchored(E, s) && x in s.index && Descends(E, s, x, w)
    requires t == s.(gray := t.gray) && s.gray <= t.gray + {x}
    ensures StackOrdered(t) && AllAnchored(E, t)
  {
    assert Descends(E, t, x, w);
    forall y | y in t.stack && y !in t.gray ensures Anchored(E, t, y) {
      if y != x {
        assert Anchored(E, s, y);
        var v :| Descends(E, s, y, v);
        assert Descends(E, t, y, v);
      }
    }
  }

  lemma LeaveKeeps(E: Edges, a: Search, s: Search, x: Id, seen: set<Id>)
    requires Exhausted(E, a, s, x, seen) && s.low[x] < s.index[x]
    ensures Inv(E, Leave(a, s)) && Visited(E, a, Leave(a, s), x)
  {
    var t := Leave(a, s);
    var w :| w in s.stack && s.index[w] == s.low[x] && Reach(E, x, w);
    OlderIsBelow(E, a, s, x, w);
    LeaveKeepsInv(E, a, s, x, seen, w);
    ExhaustedCross(E, a, s, x, seen);
    assert CrossBound(E, a, t, |a.stack|, t.low[x]);
    assert w in a.stack && a.index[w] == t.low[x] && Reach(E, x, w);
  }

  // The stack from x upwards.
  ghost function Segment(a: Search, s: Search): seq<Id>
    requires |a.stack| <= |s.stack|
  {
    s.stack[|a.stack|..]
  }

  // An edge out of the segment ends at a visited node, and never at the stack below a root.
  lemma SegmentEdge(E: Edges, a: Search, s: Search, x: Id, seen: set<Id>, i: nat, w: Id)
    requires Exhausted(E, a, s, x, seen) && s.low[x] == s.index[x]
    requires |a.stack| <= i < |s.stack| && (s.stack[i], w) in E
    ensures w in s.index && w !in a.stack
  {
    if i == |a.stack| {
      assert (x, w).1 in seen;
    } else {
      NotGrayAbove(E, a, s, x, i);
    }
    ExhaustedCross(E, a, s, x, seen);
  }

  lemma OnStackIsSegment(a: Search, s: Search, w: Id)
    requires a.stack <= s.stack && w in s.stack && w !in a.stack
    ensures w in Segment(a, s)
  {
    assert s.stack == a.stack + Segment(a, s);
  }

  // Edges out of the segment of a root lead into the segment or into complete components.
  lemma SegmentClosed(E: Edges, a: Search, s: Search, x: Id, seen: set<Id>)
    requires Exhausted(E, a, s, x, seen) && s.low[x] == s.index[x]
    ensures Closed(E, Flat(s.comps) + Elements(Segment(a, s)))
  {
    var C := Flat(s.comps) + Elements(Segment(a, s));
    FlatClosed(E, s.comps);
    forall e | e in E && e.0 in C ensures e.1 in C {
      if e.0 !in Flat(s.comps) {
        SegmentStep(E, a, s, x, seen, e);
      }
    }
  }

  lemma SegmentStep(E: Edges, a: Search, s: Search, x: Id, seen: set<Id>, e: (Id, Id))
    requires Exhausted(E, a, s, x, seen) && s.low[x] == s.index[x]
    requires e in E && e.0 in Segment(a, s)
    ensures e.1 in Flat(s.comps) || e.1 in Segment(a, s)
  {
    var i :| 0 <= i < |Segment(a, s)| && Segment(a, s)[i] == e.0;
    SegmentEdge(E, a, s, x, seen, |a.stack| + i, e.1);
    if e.1 in s.stack {
      OnStackIsSegment(a, s, e.1);
    } else {
      assert e.1 !in Elements(s.stack);
    }
  }

  lemma FlatClosed(E: Edges, comps: seq<seq<Id>>)
    requires Condensed(E, comps)
    ensures Closed(E, Flat(comps))
  {
  }

  // A node of the segment whose number is smaller sits lower.
  lemma SegmentLower(a: Search, s: Search, i: nat, w: Id) returns (j: nat)
    requires StackOrdered(s) && |a.stack| <= i < |s.stack|
    requires w in Segment(a, s) && s.index[w] < s.index[s.stack[i]]
    ensures |a.stack| <= j < i && s.stack[j] == w
  {
    var k :| 0 <= k < |Segment(a, s)| && Segment(a, s)[k] == w;
    j := |a.stack| + k;
  }

  // A member of a root's segment reaches an older member.
  lemma SegmentDescends(E: Edges, a: Search, s: Search, x: Id, seen: set<Id>, i: nat) returns (j: nat)
    requires Exhausted(E, a, s, x, seen) && s.low[x] == s.index[x]
    requires |a.stack| < i < |s.stack|
    ensures |a.stack| <= j < i && Reach(E, s.stack[i], s.stack[j])
  {
    var w := AnchorOf(E, a, s, x, i);
    SegmentClosed(E, a, s, x, seen);
    AnchorInSegment(E, a, s, i, w);
    j := SegmentLower(a, s, i, w);
  }

  // What a member of a closed segment reaches on the stack is in the segment.
  lemma AnchorInSegment(E: Edges, a: Search, s: Search, i: nat, w: Id)
    requires |a.stack| <= i < |s.stack|
    requires Closed(E, Flat(s.comps) + Elements(Segment(a, s))) && Flat(s.comps) !! Elements(s.stack)
    requires w in s.stack && Reach(E, s.stack[i], w)
    ensures w in Segment(a, s)
  {
    var y := Segment(a, s)[i - |a.stack|];
    assert y == s.stack[i] && y in Segment(a, s);
    ClosedReach(E, Flat(s.comps) + Elements(Segment(a, s)), y, w);
    assert w in Elements(s.stack);
  }

  lemma AnchorOf(E: Edges, a: Search, s: Search, x: Id, i: nat) returns (w: Id)
    requires Inv(E, a) && Inv(E, s) && Looping(E, a, s, x, {}) && |a.stack| < i < |s.stack|
    ensures w in s.stack && s.index[w] < s.index[s.stack[i]] && Reach(E, s.stack[i], w)
  {
    NotGrayAbove(E, a, s, x, i);
    assert s.stack[i] in s.stack;
    assert Anchored(E, s, s.stack[i]);
    w :| Descends(E, s, s.stack[i], w);
  }

  // Every member of a root's segment reaches the root.
  lemma {:induction false} SegmentReachesRoot(E: Edges, a: Search, s: Search, x: Id, seen: set<Id>, i: nat)
    requires Exhausted(E, a, s, x, seen) && s.low[x] == s.index[x]
    requires |a.stack| <= i < |s.stack|
    ensures Reach(E, s.stack[i], x)
    decreases i
  {
    if i == |a.stack| {
      ReachRefl(E, x);
    } else {
      var j := SegmentDescends(E, a, s, x, seen, i);
      SegmentReachesRoot(E, a, s, x, seen, j);
      ReachTrans(E, s.stack[i], s.stack[j], x);
    }
  }

  lemma RootReachesSegment(E: Edges, a: Search, s: Search, x: Id, i: nat)
    requires Looping(E, a, s, x, {}) && |a.stack| <= i < |s.stack|
    ensures Reach(E, x, s.stack[i])
  {
    SegmentFresh(E, a, s, x, i);
    var y := s.stack[i];
    assert y in s.stack && y in s.index;
  }

  lemma SegmentPair(E: Edges, a: Search, s: Search, x: Id, seen: set<Id>, i: nat, j: nat)
    requires Exhausted(E, a, s, x, seen) && Looping(E, a, s, x, {}) && s.low[x] == s.index[x]
    requires |a.stack| <= i < |s.stack| && |a.stack| <= j < |s.stack|
    ensures Reach(E, s.stack[i], s.stack[j])
  {
    SegmentReachesRoot(E, a, s, x, seen, i);
    RootReachesSegment(E, a, s, x, j);
    ReachTrans(E, s.stack[i], x, s.stack[j]);
  }

  lemma SegmentStronglyConnected(E: Edges, a: Search, s: Search, x: Id, seen: set<Id>)
    requires Exhausted(E, a, s, x, seen) && s.low[x] == s.index[x]
    ensures forall y, z :: y in Segment(a, s) && z in Segment(a, s) ==> Reach(E, y, z)
  {
    assert Looping(E, a, s, x, {});
    forall i, j | |a.stack| <= i < |s.stack| && |a.stack| <= j < |s.stack| ensures Reach(E, s.stack[i], s.stack[j]) {
      SegmentPair(E, a, s, x, seen, i, j);
    }
    MembersReach(E, a, s);
  }

  lemma MembersReach(E: Edges, a: Search, s: Search)
    requires |a.stack| <= |s.stack|
    requires forall i, j :: |a.stack| <= i < |s.stack| && |a.stack| <= j < |s.stack| ==> Reach(E, s.stack[i], s.stack[j])
    ensures forall y, z :: y in Segment(a, s) && z in Segment(a, s) ==> Reach(E, y, z)
  {
    forall y, z | y in Segment(a, s) && z in Segment(a, s) ensures Reach(E, y, z) {
      var i :| 0 <= i < |Segment(a, s)| && Segment(a, s)[i] == y;
      var j :| 0 <= j < |Segment(a, s)| && Segment(a, s)[j] == z;
      assert Reach(E, s.stack[|a.stack| + i], s.stack[|a.stack| + j]);
    }
  }

  function Emit(a: Search, s: Search, component: seq<Id>): Search {
    Search(s.next, s.index, s.low, a.stack, s.comps + [component], a.gray)
  }

  lemma SegmentDisjoint(E: Edges, a: Search, s: Search, x: Id)
    requires Inv(E, a) && Looping(E, a, s, x, {})
    ensures Elements(Segment(a, s)) !! a.index.Keys
    ensures Elements(s.stack) == Elements(a.stack) + Elements(Segment(a, s))
  {
    ElementsSplit(s.stack, |a.stack|);
    forall i | 0 <= i < |Segment(a, s)| ensures Segment(a, s)[i] !in a.index {
      SegmentFresh(E, a, s, x, |a.stack| + i);
    }
  }

  lemma ElementsSplit<T>(s: seq<T>, n: nat)
    requires n <= |s|
    ensures Elements(s) == Elements(s[..n]) + Elements(s[n..])
  {
    assert s == s[..n] + s[n..];
  }

  lemma EmitVisited(E: Edges, a: Search, s: Search, x: Id, seen: set<Id>, component: seq<Id>)
    requires Exhausted(E, a, s, x, seen) && s.low[x] == s.index[x]
    requires Elements(Segment(a, s)) !! a.index.Keys
    ensures Visited(E, a, Emit(a, s, component), x)
  {
    var t := Emit(a, s, component);
    assert Grows(a, t);
    assert StackOrdered(t);
  }

  // x is the root of its component: the segment becomes the next component.
  lemma EmitKeeps(E: Edges, a: Search, s: Search, x: Id, seen: set<Id>, component: seq<Id>)
    requires Exhausted(E, a, s, x, seen) && s.low[x] == s.index[x]
    requires Elements(component) == Elements(Segment(a, s)) && NoDup(component)
    ensures Inv(E, Emit(a, s, component)) && Visited(E, a, Emit(a, s, component), x)
  {
    var t := Emit(a, s, component);
    SegmentDisjoint(E, a, s, x);
    EmitVisited(E, a, s, x, seen, component);
    EmitComponent(E, a, s, x, seen, component);
    EmitDescends(E, a, s, t);
    EmitInv(E, a, s, x, seen, component);
  }

  lemma EmitComponent(E: Edges, a: Search, s: Search, x: Id, seen: set<Id>, component: seq<Id>)
    requires Exhausted(E, a, s, x, seen) && s.low[x] == s.index[x]
    requires Elements(component) == Elements(Segment(a, s)) && NoDup(component)
    requires Elements(s.stack) == Elements(a.stack) + Elements(Segment(a, s))
    ensures Condensed(E, s.comps + [component])
    ensures Flat(s.comps + [component]) == Flat(s.comps) + Elements(component)
  {
    SegmentClosed(E, a, s, x, seen);
    SegmentStronglyConnected(E, a, s, x, seen);
    assert x == Segment(a, s)[0];
    assert x in Elements(component);
    forall y, z | y in component && z in component ensures Reach(E, y, z) {
      assert y in Elements(component) && z in Elements(component);
    }
    EmitCondensed(E, s, component, s.comps + [component]);
  }

  lemma EmitInv(E: Edges, a: Search, s: Search, x: Id, seen: set<Id>, component: seq<Id>)
    requires Exhausted(E, a, s, x, seen)
    requires Elements(component) == Elements(Segment(a, s))
    requires Elements(s.stack) == Elements(a.stack) + Elements(Segment(a, s))
    requires Elements(Segment(a, s)) !! a.index.Keys
    requires Condensed(E, s.comps + [component])
    requires Flat(s.comps + [component]) == Flat(s.comps) + Elements(component)
    requires StackOrdered(Emit(a, s, component))
    requires AllAnchored(E, Emit(a, s, component))
    ensures Inv(E, Emit(a, s, component))
  {
    var t := Emit(a, s, component);
    forall e | e in E && e.0 in t.index && e.0 !in t.gray ensures e.1 in t.index {
      if e.0 == x {
        assert e.1 in seen;
      }
    }
    assert Elements(a.stack) <= a.index.Keys;
  }

  lemma EmitCondensed(E: Edges, s: Search, component: seq<Id>, comps: seq<seq<Id>>)
    requires Condensed(E, s.comps) && comps == s.comps + [component]
    requires component != [] && NoDup(component) && Elements(component) !! Flat(s.comps)
    requires Closed(E, Flat(s.comps) + Elements(component))
    requires forall y, z :: y in component && z in component ==> Reach(E, y, z)
    ensures Condensed(E, comps) && Flat(comps) == Flat(s.comps) + Elements(component)
  {
    assert comps[..|comps| - 1] == s.comps;
  }

  lemma EmitDescends(E: Edges, a: Search, s: Search, t: Search)
    requires StackOrdered(s) && AllAnchored(E, s) && a.stack <= s.stack
    requires StackOrdered(t) && t.stack == a.stack && t.index == s.index && t.gray == a.gray
    requires forall y :: y in a.stack && y !in a.gray ==> y !in s.gray
    ensures AllAnchored(E, t)
  {
    forall y | y in t.stack && y !in t.gray ensures Anchored(E, t, y) {
      var i :| 0 <= i < |a.stack| && a.stack[i] == y;
      assert s.stack[i] == y;
      assert Anchored(E, s, y);
      var w :| Descends(E, s, y, w);
      var j :| 0 <= j < |s.stack| && s.stack[j] == w;
      assert j < i;
      assert a.stack[j] == w;
      assert Descends(E, t, y, w);
    }
  }

  // ---- Between the root calls ----

  // Every id on the stack reaches the bottom of the stack when no other call is unfinished.
  lemma {:induction false} StackReachesBottom(E: Edges, s: Search, i: nat)
    requires Inv(E, s) && i < |s.stack| && s.gray <= {s.stack[0]}
    ensures Reach(E, s.stack[i], s.stack[0])
    decreases i
  {
    if i == 0 {
      ReachRefl(E, s.stack[0]);
    } else {
      var y := s.stack[i];
      assert s.index[s.stack[0]] < s.index[y];
      assert Anchored(E, s, y);
      var w :| Descends(E, s, y, w);
      var j :| 0 <= j < |s.stack| && s.stack[j] == w;
      assert j < i;
      StackReachesBottom(E, s, j);
      ReachTrans(E, y, w, s.stack[0]);
    }
  }

  lemma BottomUnanchored(E: Edges, s: Search)
    requires StackOrdered(s) && s.stack != []
    ensures !Anchored(E, s, s.stack[0])
  {
    forall w | w in s.stack ensures s.index[s.stack[0]] <= s.index[w] {
      var j :| 0 <= j < |s.stack| && s.stack[j] == w;
    }
  }

  // With every call finished the stack is empty.
  lemma StackIsEmpty(E: Edges, s: Search)
    requires Inv(E, s) && s.gray == {}
    ensures s.stack == []
  {
    if s.stack != [] {
      BottomUnanchored(E, s);
    }
  }

  // If the bottom call is never finished, the ids left on the stack are those that reach its id.
  lemma StackIsReaching(E: Edges, s: Search, x: Id)
    requires Inv(E, s) && s.stack != [] && s.stack[0] == x && s.gray == {x}
    ensures x in s.stack && x !in Flat(s.comps)
    ensures forall y :: y in s.index ==> (y in s.stack <==> Reach(E, y, x))
  {
    assert x in Elements(s.stack);
    forall y | y in s.index ensures y in s.stack <==> Reach(E, y, x) {
      if y in s.stack {
        var i :| 0 <= i < |s.stack| && s.stack[i] == y;
        StackReachesBottom(E, s, i);
      } else {
        assert y !in Elements(s.stack);
        FlatClosed(E, s.comps);
        if Reach(E, y, x) {
          ClosedReach(E, Flat(s.comps), y, x);
        }
      }
    }
  }

  // ---- What the finished component list means ----

  // Every member of S is in exactly one component, and the components hold nothing else.
  ghost predicate Partitions(comps: seq<seq<Id>>, S: set<Id>) {
    && (forall i :: 0 <= i < |comps| ==> comps[i] != [] && NoDup(comps[i]))
    && (forall i, x :: 0 <= i < |comps| && x in comps[i] ==> x in S)
    && (forall x :: x in S ==> exists i :: 0 <= i < |comps| && x in comps[i])
    && forall i, j, x :: 0 <= i < j < |comps| && x in comps[i] ==> x !in comps[j]
  }

  // Two ids share a component exactly when each reaches the other.
  ghost predicate ByMutualReach(E: Edges, comps: seq<seq<Id>>, S: set<Id>) {
    forall i, x, y :: 0 <= i < |comps| && x in comps[i] && y in S ==> (y in comps[i] <==> Mutual(E, x, y))
  }

  // An edge from one component to another ends in the one emitted first.
  ghost predicate ReverseTopological(E: Edges, comps: seq<seq<Id>>) {
    forall i, j, x, y ::
      0 <= i < |comps| && 0 <= j < |comps| && x in comps[i] && y in comps[j] && (x, y) in E ==> j <= i
  }

  lemma {:induction false} FlatMembers(comps: seq<seq<Id>>, x: Id)
    ensures x in Flat(comps) <==> exists i :: 0 <= i < |comps| && x in comps[i]
  {
    if comps != [] {
      var rest := comps[..|comps| - 1];
      FlatMembers(rest, x);
      if x in Flat(rest) {
        var i :| 0 <= i < |rest| && x in rest[i];
        assert x in comps[i];
      } else if x in comps[|comps| - 1] {
        assert x in Elements(comps[|comps| - 1]);
      }
    }
  }

  lemma {:induction false} CondensedPrefix(E: Edges, comps: seq<seq<Id>>, k: nat)
    requires Condensed(E, comps) && k <= |comps|
    ensures Condensed(E, comps[..k])
    decreases |comps|
  {
    if k < |comps| {
      assert comps[..|comps| - 1][..k] == comps[..k];
      CondensedPrefix(E, comps[..|comps| - 1], k);
    } else {
      assert comps[..k] == comps;
    }
  }

  // The member x of component i is in no earlier component, and reaches only components up to i.
  lemma CondensedAt(E: Edges, comps: seq<seq<Id>>, i: nat, x: Id)
    requires Condensed(E, comps) && i < |comps| && x in comps[i]
    ensures comps[i] != [] && NoDup(comps[i])
    ensures x in Flat(comps[..i + 1]) && x !in Flat(comps[..i])
    ensures forall y :: y in comps[i] ==> Mutual(E, x, y)
    ensures forall y :: Reach(E, x, y) ==> y in Flat(comps[..i + 1])
  {
    CondensedPrefix(E, comps, i + 1);
    var upto := comps[..i + 1];
    assert upto[..|upto| - 1] == comps[..i];
    assert x in Elements(upto[|upto| - 1]);
    forall y | Reach(E, x, y) ensures y in Flat(upto) {
      ClosedReach(E, Flat(upto), x, y);
    }
  }

  lemma CondensedDisjoint(E: Edges, comps: seq<seq<Id>>, i: nat, j: nat, x: Id)
    requires Condensed(E, comps) && i < j < |comps| && x in comps[i]
    ensures x !in comps[j]
  {
    assert comps[..j][i] == comps[i];
    FlatMembers(comps[..j], x);
    if x in comps[j] {
      CondensedAt(E, comps, j, x);
    }
  }

  lemma CondensedPartitions(E: Edges, comps: seq<seq<Id>>)
    requires Condensed(E, comps)
    ensures Partitions(comps, Flat(comps))
  {
    forall i | 0 <= i < |comps| ensures comps[i] != [] && NoDup(comps[i]) {
      CondensedPrefix(E, comps, i + 1);
      assert comps[..i + 1][i] == comps[i];
    }
    forall x ensures x in Flat(comps) <==> exists i :: 0 <= i < |comps| && x in comps[i] {
      FlatMembers(comps, x);
    }
    forall i, j, x | 0 <= i < j < |comps| && x in comps[i] ensures x !in comps[j] {
      CondensedDisjoint(E, comps, i, j, x);
    }
  }

  lemma MutualSameComponent(E: Edges, comps: seq<seq<Id>>, i: nat, x: Id, y: Id)
    requires Condensed(E, comps) && i < |comps| && x in comps[i] && y in Flat(comps)
    ensures y in comps[i] <==> Mutual(E, x, y)
  {
    CondensedAt(E, comps, i, x);
    if Mutual(E, x, y) {
      FlatMembers(comps, y);
      var j :| 0 <= j < |comps| && y in comps[j];
      CondensedAt(E, comps, j, y);
      FlatMembers(comps[..i + 1], y);
      FlatMembers(comps[..j + 1], x);
      var i' :| 0 <= i' < |comps[..j + 1]| && x in comps[..j + 1][i'];
      var j' :| 0 <= j' < |comps[..i + 1]| && y in comps[..i + 1][j'];
      SameIndex(E, comps, i, i', x);
      SameIndex(E, comps, j, j', y);
    }
  }

  lemma SameIndex(E: Edges, comps: seq<seq<Id>>, i: nat, j: nat, x: Id)
    requires Condensed(E, comps) && i < |comps| && j < |comps| && x in comps[i] && x in comps[j]
    ensures i == j
  {
    if i < j {
      CondensedDisjoint(E, comps, i, j, x);
    } else if j < i {
      CondensedDisjoint(E, comps, j, i, x);
    }
  }

  lemma CondensedOrder(E: Edges, comps: seq<seq<Id>>, i: nat, j: nat, x: Id, y: Id)
    requires Condensed(E, comps) && i < |comps| && j < |comps|
    requires x in comps[i] && y in comps[j] && (x, y) in E
    ensures j <= i
  {
    CondensedAt(E, comps, i, x);
    ReachEdge(E, x, y);
    FlatMembers(comps[..i + 1], y);
    var k :| 0 <= k < |comps[..i + 1]| && y in comps[..i + 1][k];
    SameIndex(E, comps, j, k, y);
  }

  // The recursive invariant of the search gives the three promises about its result.
  lemma CondensedMeaning(E: Edges, comps: seq<seq<Id>>)
    requires Condensed(E, comps)
    ensures Partitions(comps, Flat(comps))
    ensures ByMutualReach(E, comps, Flat(comps))
    ensures ReverseTopological(E, comps)
  {
    CondensedPartitions(E, comps);
    forall i, x, y | 0 <= i < |comps| && x in comps[i] && y in Flat(comps)
      ensures y in comps[i] <==> Mutual(E, x, y)
    {
      MutualSameComponent(E, comps, i, x, y);
    }
    forall i, j, x, y | 0 <= i < |comps| && 0 <= j < |comps| && x in comps[i] && y in comps[j] && (x, y) in E
      ensures j <= i
    {
      CondensedOrder(E, comps, i, j, x, y);
    }
  }
}
