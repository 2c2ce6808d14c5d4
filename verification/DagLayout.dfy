// computeDAGLayout: unique ids, normalised edges, rank buckets and coordinates.
// Coordinates are reals; rounding is not modelled.
module DagLayout {
  import opened Wrappers
  import opened Graphs
  import opened Sorting
  import opened BackEdges
  import opened EdgeKeys
  import opened Ranks

  datatype Direction = Vertical | Horizontal

  datatype Options = Options(
    nodes: seq<Id>,
    edges: seq<Edge>,
    direction: Option<Direction>,
    nodeWidth: Option<real>,
    nodeHeight: Option<real>,
    rankGap: Option<real>,
    nodeGap: Option<real>,
    padding: Option<real>)

  datatype LayoutNode = LayoutNode(id: Id, x: real, y: real, rank: nat, order: nat)
  datatype LayoutEdge = LayoutEdge(
    from: Id, to: Id, sourceX: real, sourceY: real, targetX: real, targetY: real, isBackEdge: bool)
  datatype LayoutRank = LayoutRank(rank: nat, x: real, y: real, width: real, height: real, nodeIds: seq<Id>)
  datatype Layout = Layout(
    nodes: seq<LayoutNode>, edges: seq<LayoutEdge>, ranks: seq<LayoutRank>,
    direction: Direction, width: real, height: real)

  const DEFAULT_NODE_WIDTH := 160.0
  const DEFAULT_NODE_HEIGHT := 40.0
  const DEFAULT_RANK_GAP := 64.0
  const DEFAULT_NODE_GAP := 48.0
  const DEFAULT_PADDING := 24.0

  datatype Geometry = Geometry(
    direction: Direction, nodeWidth: real, nodeHeight: real, rankGap: real, nodeGap: real, padding: real)
  {
    // Box sizes across and along the direction in which ranks advance.
    function CrossSize(): real { if direction.Vertical? then nodeWidth else nodeHeight }
    function MainSize(): real { if direction.Vertical? then nodeHeight else nodeWidth }

    predicate NonNegative() {
      nodeWidth >= 0.0 && nodeHeight >= 0.0 && rankGap >= 0.0 && nodeGap >= 0.0
    }
  }

  function OrDefault<T>(o: Option<T>, default: T): T {
    if o.Some? then o.value else default
  }

  function GeometryOf(o: Options): Geometry {
    Geometry(OrDefault(o.direction, Vertical), OrDefault(o.nodeWidth, DEFAULT_NODE_WIDTH),
             OrDefault(o.nodeHeight, DEFAULT_NODE_HEIGHT), OrDefault(o.rankGap, DEFAULT_RANK_GAP),
             OrDefault(o.nodeGap, DEFAULT_NODE_GAP), OrDefault(o.padding, DEFAULT_PADDING))
  }

  // ---- Ids and edges ----

  // An id not seen before comes behind those seen.
  lemma FirstSeen(nodes: seq<Id>, ids: seq<Id>, i: nat)
    requires i < |nodes| && FirstOrder(nodes, ids) && forall id :: id in ids ==> id in nodes[..i]
    ensures nodes[i] !in nodes[..i] ==> FirstOrder(nodes, ids + [nodes[i]])
  {
    if nodes[i] !in nodes[..i] {
      forall j | 0 <= j < |ids| ensures Before(nodes, ids[j], nodes[i]) {
        assert ids[j] in ids;
        var k :| 0 <= k < i && nodes[..i][k] == ids[j];
        assert forall m :: 0 <= m <= k ==> nodes[m] == nodes[..i][m];
      }
    }
  }

  method UniqueNodes(nodes: seq<Id>) returns (ids: seq<Id>)
    ensures NoDup(ids) && forall id :: id in ids <==> id in nodes && id != ""
    ensures FirstOrder(nodes, ids)
  {
    var seen: set<Id> := {};
    ids := [];
    for i := 0 to |nodes|
      invariant seen == Elements(ids) && NoDup(ids)
      invariant forall id :: id in ids <==> id in nodes[..i] && id != ""
      invariant FirstOrder(nodes, ids)
    {
      assert nodes[..i + 1] == nodes[..i] + [nodes[i]];
      FirstSeen(nodes, ids, i);
      if nodes[i] == "" || nodes[i] in seen { continue; }
      seen := seen + {nodes[i]};
      ids := ids + [nodes[i]];
    }
    assert nodes[..|nodes|] == nodes;
  }

  function NormalizeEdges(edges: seq<Edge>, ids: set<Id>): (r: seq<Edge>)
    ensures forall e :: e in r <==> e in edges && e.from != "" && e.to != "" && e.from in ids && e.to in ids && e.from != e.to
  {
    if edges == [] then []
    else
      assert edges == [edges[0]] + edges[1..];
      var e := edges[0];
      (if e.from != "" && e.to != "" && e.from in ids && e.to in ids && e.from != e.to then [e] else [])
        + NormalizeEdges(edges[1..], ids)
  }

  // ---- Buckets ----

  // The ids of rank r, in order.
  function BucketOf(ids: seq<Id>, rank: map<Id, nat>, r: nat): (b: seq<Id>)
    ensures forall id :: id in b <==> id in ids && id in rank && rank[id] == r
  {
    if ids == [] then []
    else
      var n := |ids| - 1;
      assert ids == ids[..n] + [ids[n]];
      BucketOf(ids[..n], rank, r) + if ids[n] in rank && rank[ids[n]] == r then [ids[n]] else []
  }

  lemma {:induction false} BucketNoDup(ids: seq<Id>, rank: map<Id, nat>, r: nat)
    requires NoDup(ids)
    ensures NoDup(BucketOf(ids, rank, r))
  {
    if ids != [] {
      var n := |ids| - 1;
      BucketNoDup(ids[..n], rank, r);
      assert ids[n] !in ids[..n];
    }
  }

  predicate NatLe(a: nat, b: nat) {
    a <= b
  }

  // Distinct ordered numbers that are exactly those below m are 0, 1, ..., m - 1.
  lemma {:induction false} SortedInterval(s: seq<nat>, m: nat, i: nat)
    requires SortedBy(s, NatLe) && NoDup(s) && (forall k: nat :: k in s <==> k < m) && i < |s|
    ensures s[i] == i
    decreases i
  {
    if i > 0 {
      SortedInterval(s, m, i - 1);
    }
    assert s[i] in s;
    assert i in s;
    var k :| 0 <= k < |s| && s[k] == i;
    if k < i {
      SortedInterval(s, m, k);
    }
    assert NatLe(s[i], s[k]) || k == i;
    if i > 0 {
      assert NatLe(s[i - 1], s[i]);
    }
  }

  lemma IntervalLength(s: seq<nat>, m: nat)
    requires SortedBy(s, NatLe) && NoDup(s) && forall k: nat :: k in s <==> k < m
    ensures |s| == m && forall i :: 0 <= i < |s| ==> s[i] == i
  {
    forall i | 0 <= i < |s| ensures s[i] == i && s[i] in s {
      SortedInterval(s, m, i);
    }
    assert |s| < m ==> |s| in s;
    if |s| > m {
      SortedInterval(s, m, m);
    }
  }

  ghost predicate Contiguous(rank: map<Id, nat>) {
    forall x, r: nat {:trigger InUse(rank, r), x in rank} :: x in rank && r <= rank[x] ==> InUse(rank, r)
  }

  ghost predicate InUse(rank: map<Id, nat>, r: nat) {
    exists x :: x in rank && rank[x] == r
  }

  ghost predicate Filled(ids: seq<Id>, rank: map<Id, nat>, order: seq<nat>, buckets: map<nat, seq<Id>>) {
    && NoDup(order) && Elements(order) == buckets.Keys
    && forall r: nat {:trigger BucketOf(ids, rank, r)} {:trigger r in buckets} ::
         if r in buckets then buckets[r] == BucketOf(ids, rank, r) && buckets[r] != [] else BucketOf(ids, rank, r) == []
  }

  lemma BucketStep(ids: seq<Id>, id: Id, rank: map<Id, nat>, r: nat)
    requires id in rank
    ensures BucketOf(ids + [id], rank, r) == BucketOf(ids, rank, r) + if rank[id] == r then [id] else []
  {
    assert (ids + [id])[..|ids|] == ids;
  }

  lemma OrderStep(order: seq<nat>, r: nat)
    requires NoDup(order) && r !in order
    ensures NoDup(order + [r]) && Elements(order + [r]) == Elements(order) + {r}
  {
    ElementsStep(order + [r], |order|);
    assert (order + [r])[..|order|] == order;
    assert (order + [r])[..|order| + 1] == order + [r];
  }

  lemma FillStep(ids: seq<Id>, id: Id, rank: map<Id, nat>, order: seq<nat>, buckets: map<nat, seq<Id>>,
                 order': seq<nat>, buckets': map<nat, seq<Id>>)
    requires Filled(ids, rank, order, buckets) && id in rank
    requires order' == if rank[id] in buckets then order else order + [rank[id]]
    requires buckets' == buckets[rank[id] := (if rank[id] in buckets then buckets[rank[id]] else []) + [id]]
    ensures Filled(ids + [id], rank, order', buckets')
  {
    if rank[id] !in buckets {
      assert rank[id] !in Elements(order);
      OrderStep(order, rank[id]);
    }
    forall r: nat
      ensures if r in buckets' then buckets'[r] == BucketOf(ids + [id], rank, r) && buckets'[r] != []
              else BucketOf(ids + [id], rank, r) == []
    {
      BucketStep(ids, id, rank, r);
      assert r in buckets || BucketOf(ids, rank, r) == [];
    }
  }

  // Fill the buckets in id order, remembering the order in which ranks first occur.
  method FillBuckets(nodeIds: seq<Id>, rank: map<Id, nat>) returns (order: seq<nat>, buckets: map<nat, seq<Id>>)
    requires rank.Keys == Elements(nodeIds)
    ensures Filled(nodeIds, rank, order, buckets)
  {
    order, buckets := [], map[];
    for i := 0 to |nodeIds|
      invariant Filled(nodeIds[..i], rank, order, buckets)
    {
      var id := nodeIds[i];
      assert id in Elements(nodeIds);
      assert nodeIds[..i + 1] == nodeIds[..i] + [id];
      var bucket := if rank[id] in buckets then buckets[rank[id]] else [];
      ghost var order0, buckets0 := order, buckets;
      order := if rank[id] in buckets then order else order + [rank[id]];
      buckets := buckets[rank[id] := bucket + [id]];
      FillStep(nodeIds[..i], id, rank, order0, buckets0, order, buckets);
    }
    assert nodeIds[..|nodeIds|] == nodeIds;
  }

  lemma FilledInUse(ids: seq<Id>, rank: map<Id, nat>, order: seq<nat>, buckets: map<nat, seq<Id>>)
    requires rank.Keys == Elements(ids) && Filled(ids, rank, order, buckets)
    ensures forall r: nat :: r in buckets <==> InUse(rank, r)
  {
    forall r: nat ensures r in buckets <==> InUse(rank, r) {
      if r in buckets {
        var x := buckets[r][0];
        assert x in BucketOf(ids, rank, r);
        assert x in rank && rank[x] == r;
      }
      if InUse(rank, r) {
        var x :| x in rank && rank[x] == r;
        assert x in Elements(ids);
        assert x in BucketOf(ids, rank, r);
      }
    }
  }

  lemma RanksInUse(rank: map<Id, nat>, s: seq<nat>)
    requires Contiguous(rank) && SortedBy(s, NatLe) && NoDup(s) && forall r: nat :: r in s <==> InUse(rank, r)
    ensures forall i :: 0 <= i < |s| ==> s[i] == i
    ensures forall x :: x in rank ==> rank[x] < |s|
  {
    var m := if s == [] then 0 else s[|s| - 1] + 1;
    forall k: nat ensures k in s <==> k < m {
      if k < m {
        assert s[|s| - 1] in s;
        assert InUse(rank, s[|s| - 1]);
        var x :| x in rank && rank[x] == s[|s| - 1];
        assert InUse(rank, k);
      }
      if k in s {
        var i :| 0 <= i < |s| && s[i] == k;
        assert i == |s| - 1 || NatLe(s[i], s[|s| - 1]);
      }
    }
    IntervalLength(s, m);
    forall x | x in rank ensures rank[x] < |s| {
      assert InUse(rank, rank[x]);
    }
  }

  lemma SortedOrder(nodeIds: seq<Id>, rank: map<Id, nat>, order: seq<nat>, buckets: map<nat, seq<Id>>)
    requires rank.Keys == Elements(nodeIds) && Filled(nodeIds, rank, order, buckets)
    ensures var keys := SortBy(order, NatLe);
            && SortedBy(keys, NatLe) && NoDup(keys)
            && forall r: nat :: (r in keys <==> InUse(rank, r)) && (r in keys <==> r in buckets)
  {
    var keys := SortBy(order, NatLe);
    assert TotalPreorder(NatLe);
    SortBySorted(order, NatLe);
    PermutationDistinct(order, keys);
    FilledInUse(nodeIds, rank, order, buckets);
    forall r: nat ensures (r in keys <==> InUse(rank, r)) && (r in keys <==> r in buckets) {
      SortByMember(order, NatLe, r);
      assert r in order <==> r in Elements(order);
    }
  }

  // The bucket entries in rank order: without gaps, entry r is the bucket of rank r.
  method SortedRanks(nodeIds: seq<Id>, rank: map<Id, nat>) returns (sorted: seq<(nat, seq<Id>)>)
    requires rank.Keys == Elements(nodeIds) && Contiguous(rank)
    ensures forall r :: 0 <= r < |sorted| ==> sorted[r] == (r, BucketOf(nodeIds, rank, r)) && sorted[r].1 != []
    ensures forall x :: x in rank ==> rank[x] < |sorted|
  {
    var order, buckets := FillBuckets(nodeIds, rank);
    var keys := SortBy(order, NatLe);
    SortedOrder(nodeIds, rank, order, buckets);
    sorted := Entries(keys, buckets);
    RanksInUse(rank, keys);
  }

  method Entries(keys: seq<nat>, buckets: map<nat, seq<Id>>) returns (entries: seq<(nat, seq<Id>)>)
    requires forall r: nat :: r in keys ==> r in buckets
    ensures |entries| == |keys|
    ensures forall k :: 0 <= k < |keys| ==> keys[k] in buckets && entries[k] == (keys[k], buckets[keys[k]])
  {
    entries := [];
    for i := 0 to |keys|
      invariant |entries| == i
      invariant forall k :: 0 <= k < i ==> keys[k] in buckets && entries[k] == (keys[k], buckets[keys[k]])
    {
      assert keys[i] in keys;
      entries := entries + [(keys[i], buckets[keys[i]])];
    }
  }

  // ---- Coordinates ----

  // The room n boxes of a size take with gaps between them.
  function Extent(n: int, size: real, gap: real): real {
    n as real * size + (n - 1) as real * gap
  }

  // Where the k-th box of a size starts, counted from the first.
  function Offset(k: nat, size: real, gap: real): real {
    k as real * (size + gap)
  }

  function Cross(g: Geometry, maxNodes: nat, n: nat, order: nat): real {
    g.padding + (Extent(maxNodes, g.CrossSize(), g.nodeGap) - Extent(n, g.CrossSize(), g.nodeGap)) / 2.0
      + Offset(order, g.CrossSize(), g.nodeGap)
  }

  function Main(g: Geometry, r: nat): real {
    g.padding + Offset(r, g.MainSize(), g.rankGap)
  }

  lemma Times(a: int, b: int, s: real)
    requires a <= b && s >= 0.0
    ensures a as real * s <= b as real * s
  {
    assert (b - a) as real * s >= 0.0;
  }

  lemma TimesNext(a: int, s: real)
    ensures (a + 1) as real * s == a as real * s + s
  {
  }

  // Later ranks start at least a rank gap beyond the end of earlier ones.
  lemma MainGap(g: Geometry, r: nat, r': nat)
    requires g.NonNegative() && r < r'
    ensures Main(g, r) + g.MainSize() + g.rankGap <= Main(g, r')
  {
    var s := g.MainSize() + g.rankGap;
    Times(r + 1, r', s);
    TimesNext(r, s);
  }

  lemma CrossGap(g: Geometry, maxNodes: nat, n: nat, o: nat, o': nat)
    requires g.NonNegative() && o < o'
    ensures Cross(g, maxNodes, n, o) + g.CrossSize() + g.nodeGap <= Cross(g, maxNodes, n, o')
  {
    var s := g.CrossSize() + g.nodeGap;
    Times(o + 1, o', s);
    TimesNext(o, s);
  }

  lemma ExtentSteps(n: int, size: real, gap: real)
    ensures Extent(n, size, gap) == n as real * (size + gap) - gap
  {
    TimesNext(n - 1, gap);
  }

  lemma MainFrame(g: Geometry, r: nat, count: nat)
    requires g.NonNegative() && r < count
    ensures g.padding <= Main(g, r)
    ensures Main(g, r) + g.MainSize() <= g.padding + Extent(count, g.MainSize(), g.rankGap)
  {
    var s := g.MainSize() + g.rankGap;
    Times(0, r, s);
    Times(r + 1, count, s);
    TimesNext(r, s);
    ExtentSteps(count, g.MainSize(), g.rankGap);
  }

  // A lane of n boxes, centred among maxNodes boxes, starts and ends inside.
  lemma LaneCentred(g: Geometry, maxNodes: nat, n: nat)
    requires g.NonNegative() && n <= maxNodes
    ensures Extent(n, g.CrossSize(), g.nodeGap) <= Extent(maxNodes, g.CrossSize(), g.nodeGap)
  {
    Times(n, maxNodes, g.CrossSize() + g.nodeGap);
    ExtentSteps(n, g.CrossSize(), g.nodeGap);
    ExtentSteps(maxNodes, g.CrossSize(), g.nodeGap);
  }

  lemma WithinLane(g: Geometry, n: nat, o: nat)
    requires g.NonNegative() && o < n
    ensures 0.0 <= o as real * (g.CrossSize() + g.nodeGap)
    ensures o as real * (g.CrossSize() + g.nodeGap) + g.CrossSize() <= Extent(n, g.CrossSize(), g.nodeGap)
  {
    var s := g.CrossSize() + g.nodeGap;
    Times(0, o, s);
    Times(o + 1, n, s);
    TimesNext(o, s);
    ExtentSteps(n, g.CrossSize(), g.nodeGap);
  }

  lemma CrossFrame(g: Geometry, maxNodes: nat, n: nat, o: nat)
    requires g.NonNegative() && o < n <= maxNodes
    ensures g.padding <= Cross(g, maxNodes, n, o)
    ensures Cross(g, maxNodes, n, o) + g.CrossSize() <= g.padding + Extent(maxNodes, g.CrossSize(), g.nodeGap)
  {
    LaneCentred(g, maxNodes, n);
    WithinLane(g, n, o);
    var lane, all := Extent(n, g.CrossSize(), g.nodeGap), Extent(maxNodes, g.CrossSize(), g.nodeGap);
    assert (all - lane) / 2.0 + lane <= all && (all - lane) / 2.0 >= 0.0;
  }

  // ---- Boxes ----

  ghost predicate PlacedAt(g: Geometry, buckets: seq<(nat, seq<Id>)>, maxNodes: nat, n: LayoutNode) {
    && n.rank < |buckets| && n.order < |buckets[n.rank].1| <= maxNodes
    && n.id == buckets[n.rank].1[n.order]
    && var c, m := Cross(g, maxNodes, |buckets[n.rank].1|, n.order), Main(g, n.rank);
       if g.direction.Vertical? then n.x == c && n.y == m else n.x == m && n.y == c
  }

  // The lane of a rank spans its boxes and the gaps between them.
  ghost predicate LaneAt(g: Geometry, buckets: seq<(nat, seq<Id>)>, maxNodes: nat, lane: LayoutRank) {
    && lane.rank < |buckets| && lane.nodeIds == buckets[lane.rank].1
    && var c, m := Cross(g, maxNodes, |lane.nodeIds|, 0), Main(g, lane.rank);
       var size := Extent(|lane.nodeIds|, g.CrossSize(), g.nodeGap);
       if g.direction.Vertical?
       then lane.x == c && lane.y == m && lane.width == size && lane.height == g.nodeHeight
       else lane.x == m && lane.y == c && lane.width == g.nodeWidth && lane.height == size
  }

  ghost predicate LanesAt(g: Geometry, buckets: seq<(nat, seq<Id>)>, maxNodes: nat, lanes: seq<LayoutRank>) {
    && |lanes| == |buckets|
    && forall r :: 0 <= r < |lanes| ==> lanes[r].rank == r && LaneAt(g, buckets, maxNodes, lanes[r])
  }

  ghost predicate InLane(g: Geometry, lane: LayoutRank, a: LayoutNode) {
    && lane.x <= a.x && a.x + g.nodeWidth <= lane.x + lane.width
    && lane.y <= a.y && a.y + g.nodeHeight <= lane.y + lane.height
  }

  lemma PlacedInLane(g: Geometry, buckets: seq<(nat, seq<Id>)>, maxNodes: nat, a: LayoutNode, lane: LayoutRank)
    requires g.NonNegative() && PlacedAt(g, buckets, maxNodes, a) && LaneAt(g, buckets, maxNodes, lane)
    requires a.rank == lane.rank
    ensures InLane(g, lane, a)
  {
    WithinLane(g, |lane.nodeIds|, a.order);
    assert Offset(0, g.CrossSize(), g.nodeGap) == 0.0;
  }

  ghost predicate BoxesDisjoint(g: Geometry, a: LayoutNode, b: LayoutNode) {
    || a.x + g.nodeWidth <= b.x || b.x + g.nodeWidth <= a.x
    || a.y + g.nodeHeight <= b.y || b.y + g.nodeHeight <= a.y
  }

  ghost predicate InFrame(g: Geometry, width: real, height: real, a: LayoutNode) {
    && g.padding <= a.x && a.x + g.nodeWidth <= width - g.padding
    && g.padding <= a.y && a.y + g.nodeHeight <= height - g.padding
  }

  function TotalWidth(g: Geometry, maxNodes: nat, count: nat): real {
    g.padding * 2.0 + if g.direction.Vertical? then Extent(maxNodes, g.nodeWidth, g.nodeGap)
                                               else Extent(count, g.nodeWidth, g.rankGap)
  }

  function TotalHeight(g: Geometry, maxNodes: nat, count: nat): real {
    g.padding * 2.0 + if g.direction.Vertical? then Extent(count, g.nodeHeight, g.rankGap)
                                               else Extent(maxNodes, g.nodeHeight, g.nodeGap)
  }

  lemma PlacedInFrame(g: Geometry, buckets: seq<(nat, seq<Id>)>, maxNodes: nat, a: LayoutNode)
    requires g.NonNegative() && PlacedAt(g, buckets, maxNodes, a)
    ensures InFrame(g, TotalWidth(g, maxNodes, |buckets|), TotalHeight(g, maxNodes, |buckets|), a)
  {
    CrossFrame(g, maxNodes, |buckets[a.rank].1|, a.order);
    MainFrame(g, a.rank, |buckets|);
  }

  lemma PlacedDisjoint(g: Geometry, buckets: seq<(nat, seq<Id>)>, maxNodes: nat, a: LayoutNode, b: LayoutNode)
    requires g.NonNegative() && PlacedAt(g, buckets, maxNodes, a) && PlacedAt(g, buckets, maxNodes, b)
    requires a.id != b.id
    ensures BoxesDisjoint(g, a, b)
  {
    if a.rank < b.rank {
      MainGap(g, a.rank, b.rank);
    } else if b.rank < a.rank {
      MainGap(g, b.rank, a.rank);
    } else if a.order < b.order {
      CrossGap(g, maxNodes, |buckets[a.rank].1|, a.order, b.order);
    } else {
      CrossGap(g, maxNodes, |buckets[a.rank].1|, b.order, a.order);
    }
  }

  // ---- Placement ----

  function Flatten(buckets: seq<(nat, seq<Id>)>): seq<Id> {
    if buckets == [] then [] else Flatten(buckets[..|buckets| - 1]) + buckets[|buckets| - 1].1
  }

  function Ids(nodes: seq<LayoutNode>): seq<Id> {
    seq(|nodes|, i requires 0 <= i < |nodes| => nodes[i].id)
  }

  lemma {:induction false} FlattenMembers(buckets: seq<(nat, seq<Id>)>, id: Id)
    ensures id in Flatten(buckets) <==> exists r :: 0 <= r < |buckets| && id in buckets[r].1
  {
    if buckets != [] {
      var front := buckets[..|buckets| - 1];
      FlattenMembers(front, id);
      if id in Flatten(front) {
        var r :| 0 <= r < |front| && id in front[r].1;
        assert id in buckets[r].1;
      }
      assert forall r :: 0 <= r < |front| ==> front[r] == buckets[r];
    }
  }

  ghost predicate RankBuckets(nodeIds: seq<Id>, rank: map<Id, nat>, buckets: seq<(nat, seq<Id>)>) {
    && NoDup(nodeIds) && rank.Keys == Elements(nodeIds)
    && forall r :: 0 <= r < |buckets| ==> buckets[r] == (r, BucketOf(nodeIds, rank, r))
  }

  lemma AppendNoDup<T>(a: seq<T>, b: seq<T>)
    requires NoDup(a) && NoDup(b) && forall x :: x in a ==> x !in b
    ensures NoDup(a + b)
  {
    forall i, j | 0 <= i < j < |a + b| ensures (a + b)[i] != (a + b)[j] {
      if i < |a| <= j {
        assert a[i] in a && b[j - |a|] in b;
      }
    }
  }

  lemma {:induction false} FlattenNoDup(nodeIds: seq<Id>, rank: map<Id, nat>, buckets: seq<(nat, seq<Id>)>)
    requires RankBuckets(nodeIds, rank, buckets)
    ensures NoDup(Flatten(buckets))
  {
    if buckets != [] {
      var n := |buckets| - 1;
      FlattenNoDup(nodeIds, rank, buckets[..n]);
      BucketNoDup(nodeIds, rank, n);
      forall id | id in Flatten(buckets[..n]) ensures id !in buckets[n].1 {
        FlattenMembers(buckets[..n], id);
        var r :| 0 <= r < n && id in buckets[..n][r].1;
        assert buckets[r] == (r, BucketOf(nodeIds, rank, r));
        assert buckets[n] == (n, BucketOf(nodeIds, rank, n));
      }
      AppendNoDup(Flatten(buckets[..n]), buckets[n].1);
    }
  }

  // The widest bucket, at least 1.
  method MaxNodesInRank(buckets: seq<(nat, seq<Id>)>) returns (m: nat)
    ensures m >= 1 && forall r :: 0 <= r < |buckets| ==> |buckets[r].1| <= m
    ensures m == 1 || exists r :: 0 <= r < |buckets| && |buckets[r].1| == m
    ensures (forall r :: 0 <= r < |buckets| ==> buckets[r].1 != []) ==> Widest(buckets, m)
  {
    m := 1;
    for i := 0 to |buckets|
      invariant m >= 1 && forall r :: 0 <= r < i ==> |buckets[r].1| <= m
      invariant m == 1 || exists r :: 0 <= r < i && |buckets[r].1| == m
    {
      if m < |buckets[i].1| {
        m := |buckets[i].1|;
      }
    }
    if buckets != [] && buckets[0].1 != [] {
      assert |buckets[0].1| <= m;
    }
  }

  lemma NodeIsPlaced(g: Geometry, buckets: seq<(nat, seq<Id>)>, maxNodes: nat, r: nat, order: nat,
                     rankX: real, rankY: real, node: LayoutNode)
    requires r < |buckets| && order < |buckets[r].1| <= maxNodes
    requires node.id == buckets[r].1[order] && node.rank == r && node.order == order
    requires g.direction.Vertical? ==>
      && rankX == g.padding + (Extent(maxNodes, g.nodeWidth, g.nodeGap) - Extent(|buckets[r].1|, g.nodeWidth, g.nodeGap)) / 2.0
      && rankY == g.padding + Offset(r, g.nodeHeight, g.rankGap)
      && node.x == rankX + Offset(order, g.nodeWidth, g.nodeGap) && node.y == rankY
    requires g.direction.Horizontal? ==>
      && rankX == g.padding + Offset(r, g.nodeWidth, g.rankGap)
      && rankY == g.padding + (Extent(maxNodes, g.nodeHeight, g.nodeGap) - Extent(|buckets[r].1|, g.nodeHeight, g.nodeGap)) / 2.0
      && node.x == rankX && node.y == rankY + Offset(order, g.nodeHeight, g.nodeGap)
    ensures PlacedAt(g, buckets, maxNodes, node)
  {
  }

  lemma LaneIsPlaced(g: Geometry, buckets: seq<(nat, seq<Id>)>, maxNodes: nat, lane: LayoutRank)
    requires lane.rank < |buckets| && lane.nodeIds == buckets[lane.rank].1
    requires g.direction.Vertical? ==>
      && lane.width == Extent(|lane.nodeIds|, g.nodeWidth, g.nodeGap) && lane.height == g.nodeHeight
      && lane.x == g.padding + (Extent(maxNodes, g.nodeWidth, g.nodeGap) - lane.width) / 2.0
      && lane.y == g.padding + Offset(lane.rank, g.nodeHeight, g.rankGap)
    requires g.direction.Horizontal? ==>
      && lane.width == g.nodeWidth && lane.height == Extent(|lane.nodeIds|, g.nodeHeight, g.nodeGap)
      && lane.x == g.padding + Offset(lane.rank, g.nodeWidth, g.rankGap)
      && lane.y == g.padding + (Extent(maxNodes, g.nodeHeight, g.nodeGap) - lane.height) / 2.0
    ensures LaneAt(g, buckets, maxNodes, lane)
  {
    assert Offset(0, g.CrossSize(), g.nodeGap) == 0.0;
  }

  // The nodes and the lane of one rank.
  method PlaceRank(g: Geometry, buckets: seq<(nat, seq<Id>)>, maxNodes: nat, rankIndex: nat)
    returns (nodes: seq<LayoutNode>, lane: LayoutRank)
    requires rankIndex < |buckets| && buckets[rankIndex].0 == rankIndex && |buckets[rankIndex].1| <= maxNodes
    ensures Ids(nodes) == buckets[rankIndex].1
    ensures forall i :: 0 <= i < |nodes| ==>
      PlacedAt(g, buckets, maxNodes, nodes[i]) && nodes[i].rank == rankIndex && nodes[i].order == i
    ensures lane.rank == rankIndex && LaneAt(g, buckets, maxNodes, lane)
  {
    var (rank, ids) := buckets[rankIndex];
    var maxRankWidth := Extent(maxNodes, g.nodeWidth, g.nodeGap);
    var maxRankHeight := Extent(maxNodes, g.nodeHeight, g.nodeGap);
    var laneSize := if g.direction.Vertical?
      then Extent(|ids|, g.nodeWidth, g.nodeGap)
      else Extent(|ids|, g.nodeHeight, g.nodeGap);
    var rankX := if g.direction.Vertical?
      then g.padding + (maxRankWidth - laneSize) / 2.0
      else g.padding + Offset(rankIndex, g.nodeWidth, g.rankGap);
    var rankY := if g.direction.Vertical?
      then g.padding + Offset(rankIndex, g.nodeHeight, g.rankGap)
      else g.padding + (maxRankHeight - laneSize) / 2.0;
    nodes := [];
    for order := 0 to |ids|
      invariant Ids(nodes) == ids[..order]
      invariant forall i :: 0 <= i < order ==>
        PlacedAt(g, buckets, maxNodes, nodes[i]) && nodes[i].rank == rankIndex && nodes[i].order == i
    {
      var node := LayoutNode(
        ids[order],
        if g.direction.Vertical? then rankX + Offset(order, g.nodeWidth, g.nodeGap) else rankX,
        if g.direction.Vertical? then rankY else rankY + Offset(order, g.nodeHeight, g.nodeGap),
        rank,
        order);
      NodeIsPlaced(g, buckets, maxNodes, rankIndex, order, rankX, rankY, node);
      assert Ids(nodes + [node]) == Ids(nodes) + [node.id];
      assert ids[..order + 1] == ids[..order] + [ids[order]];
      nodes := nodes + [node];
    }
    assert ids[..|ids|] == ids;
    lane := LayoutRank(rank, rankX, rankY,
      if g.direction.Vertical? then laneSize else g.nodeWidth,
      if g.direction.Vertical? then g.nodeHeight else laneSize,
      ids);
    LaneIsPlaced(g, buckets, maxNodes, lane);
  }

  method PlaceNodes(g: Geometry, buckets: seq<(nat, seq<Id>)>, maxNodes: nat)
    returns (nodes: seq<LayoutNode>, lanes: seq<LayoutRank>)
    requires forall r :: 0 <= r < |buckets| ==> buckets[r].0 == r && |buckets[r].1| <= maxNodes
    ensures Ids(nodes) == Flatten(buckets)
    ensures forall i :: 0 <= i < |nodes| ==> PlacedAt(g, buckets, maxNodes, nodes[i])
    ensures LanesAt(g, buckets, maxNodes, lanes) && ListedByRank(nodes)
  {
    nodes, lanes := [], [];
    for k := 0 to |buckets|
      invariant Ids(nodes) == Flatten(buckets[..k])
      invariant forall i :: 0 <= i < |nodes| ==> PlacedAt(g, buckets, maxNodes, nodes[i])
      invariant |lanes| == k && forall r :: 0 <= r < k ==> lanes[r].rank == r && LaneAt(g, buckets, maxNodes, lanes[r])
      invariant ListedByRank(nodes) && forall i :: 0 <= i < |nodes| ==> nodes[i].rank < k
    {
      var placed, lane := PlaceRank(g, buckets, maxNodes, k);
      assert buckets[..k + 1][..k] == buckets[..k];
      assert Ids(nodes + placed) == Ids(nodes) + Ids(placed);
      nodes := nodes + placed;
      lanes := lanes + [lane];
    }
    assert buckets[..|buckets|] == buckets;
  }

  // ---- Edges ----

  function DrawEdge(g: Geometry, edge: Edge, byId: map<Id, LayoutNode>, backEdges: set<string>): LayoutEdge {
    var isBack := EdgeKey((edge.from, edge.to)) in backEdges;
    if edge.from !in byId || edge.to !in byId then
      LayoutEdge(edge.from, edge.to, 0.0, 0.0, 0.0, 0.0, isBack)
    else
      var from, to := byId[edge.from], byId[edge.to];
      LayoutEdge(
        edge.from, edge.to,
        if g.direction.Vertical? then from.x + g.nodeWidth / 2.0 else from.x + g.nodeWidth,
        if g.direction.Vertical? then from.y + g.nodeHeight else from.y + g.nodeHeight / 2.0,
        if g.direction.Vertical? then to.x + g.nodeWidth / 2.0 else to.x,
        if g.direction.Vertical? then to.y else to.y + g.nodeHeight / 2.0,
        isBack)
  }

  // How far an edge advances along the direction of the ranks.
  function Advance(g: Geometry, e: LayoutEdge): real {
    if g.direction.Vertical? then e.targetY - e.sourceY else e.targetX - e.sourceX
  }

  lemma DrawnAdvance(g: Geometry, buckets: seq<(nat, seq<Id>)>, maxNodes: nat, edge: Edge,
                     byId: map<Id, LayoutNode>, backEdges: set<string>)
    requires g.NonNegative() && edge.from in byId && edge.to in byId
    requires PlacedAt(g, buckets, maxNodes, byId[edge.from]) && PlacedAt(g, buckets, maxNodes, byId[edge.to])
    requires byId[edge.from].rank < byId[edge.to].rank
    ensures Advance(g, DrawEdge(g, edge, byId, backEdges)) >= g.rankGap
  {
    MainGap(g, byId[edge.from].rank, byId[edge.to].rank);
  }

  // ---- The layout as a whole ----

  ghost predicate EveryIdOnce(nodes: seq<LayoutNode>, ids: set<Id>) {
    && (forall i, j :: 0 <= i < j < |nodes| ==> nodes[i].id != nodes[j].id)
    && (forall n :: n in nodes ==> n.id in ids)
    && forall id :: id in ids ==> exists i :: 0 <= i < |nodes| && nodes[i].id == id
  }

  // Boxes do not overlap and stay inside the padded frame and inside the lane of their rank.
  ghost predicate Tidy(g: Geometry, layout: Layout) {
    && (forall i, j :: 0 <= i < j < |layout.nodes| ==> BoxesDisjoint(g, layout.nodes[i], layout.nodes[j]))
    && (forall n :: n in layout.nodes ==> InFrame(g, layout.width, layout.height, n))
    && forall n :: n in layout.nodes ==> n.rank < |layout.ranks| && InLane(g, layout.ranks[n.rank], n)
  }

  ghost predicate BoxAt(nodes: seq<LayoutNode>, r: nat, k: nat, id: Id) {
    exists n :: n in nodes && n.rank == r && n.order == k && n.id == id
  }

  // A lane lists the ids placed in it, in order.
  ghost predicate LaneLists(lane: LayoutRank, nodes: seq<LayoutNode>) {
    && lane.nodeIds != []
    && (forall k :: 0 <= k < |lane.nodeIds| ==> BoxAt(nodes, lane.rank, k, lane.nodeIds[k]))
    && forall n :: n in nodes && n.rank == lane.rank ==> n.order < |lane.nodeIds| && lane.nodeIds[n.order] == n.id
  }

  // Lane r is that of rank r.
  ghost predicate LanesList(layout: Layout) {
    && (forall r :: 0 <= r < |layout.ranks| ==> layout.ranks[r].rank == r && LaneLists(layout.ranks[r], layout.nodes))
    && forall n :: n in layout.nodes ==> n.rank < |layout.ranks|
  }

  function Drawn(edges: seq<LayoutEdge>, back: bool): Edges {
    set e | e in edges && e.isBackEdge == back :: (e.from, e.to)
  }

  // Every input edge is drawn, in order, and the ranks are those of the forward edges.
  ghost predicate Ranked(edges: seq<Edge>, layout: Layout, rank: map<Id, nat>) {
    && |layout.edges| == |edges|
    && (forall i :: 0 <= i < |edges| ==> layout.edges[i].from == edges[i].from && layout.edges[i].to == edges[i].to)
    && (forall n :: n in layout.nodes ==> n.id in rank && rank[n.id] == n.rank)
    && Acyclic(Drawn(layout.edges, false))
    && LocalRank(Drawn(layout.edges, false), rank)
    && LongestPathRank(Drawn(layout.edges, false), rank)
  }

  // The back edges are a minimal feedback set, and they are the edges that go down in rank.
  ghost predicate BackEdgesExact(edges: seq<Edge>, layout: Layout, rank: map<Id, nat>) {
    && MinimalFeedback(EdgeSet(edges), Drawn(layout.edges, true))
    && forall e :: e in layout.edges ==>
         e.from in rank && e.to in rank && (if e.isBackEdge then rank[e.to] < rank[e.from] else rank[e.from] < rank[e.to])
  }

  // The edge leaves the middle of one box's far side and enters the middle of the other's near side.
  ghost predicate Joins(g: Geometry, e: LayoutEdge, a: LayoutNode, b: LayoutNode) {
    && a.id == e.from && b.id == e.to
    && if g.direction.Vertical?
       then && e.sourceX == a.x + g.nodeWidth / 2.0 && e.sourceY == a.y + g.nodeHeight
            && e.targetX == b.x + g.nodeWidth / 2.0 && e.targetY == b.y
       else && e.sourceX == a.x + g.nodeWidth && e.sourceY == a.y + g.nodeHeight / 2.0
            && e.targetX == b.x && e.targetY == b.y + g.nodeHeight / 2.0
  }

  ghost predicate Joined(g: Geometry, nodes: seq<LayoutNode>, e: LayoutEdge) {
    exists a, b :: a in nodes && b in nodes && Joins(g, e, a, b)
  }

  ghost predicate EndsOnBoxes(g: Geometry, layout: Layout) {
    forall e :: e in layout.edges ==> Joined(g, layout.nodes, e)
  }

  ghost predicate ForwardAdvances(g: Geometry, layout: Layout) {
    forall e :: e in layout.edges && !e.isBackEdge ==> Advance(g, e) >= g.rankGap
  }

  // Local ranks have no gaps.
  lemma LocalIsContiguous(E: Edges, rank: map<Id, nat>)
    requires LocalRank(E, rank)
    ensures Contiguous(rank)
  {
    forall x, r: nat | x in rank && r <= rank[x] ensures InUse(rank, r) {
      var y := RanksContiguous(E, rank, x, r);
    }
  }

  lemma FlattenIsIds(nodeIds: seq<Id>, rank: map<Id, nat>, buckets: seq<(nat, seq<Id>)>)
    requires RankBuckets(nodeIds, rank, buckets) && forall x :: x in rank ==> rank[x] < |buckets|
    ensures Elements(Flatten(buckets)) == Elements(nodeIds) && NoDup(Flatten(buckets))
  {
    FlattenNoDup(nodeIds, rank, buckets);
    forall id ensures id in Flatten(buckets) <==> id in nodeIds {
      FlattenMembers(buckets, id);
      if id in nodeIds {
        assert id in Elements(nodeIds);
        assert id in BucketOf(nodeIds, rank, rank[id]);
        assert id in buckets[rank[id]].1;
      }
    }
  }

  lemma PlacedOnce(nodes: seq<LayoutNode>, ids: seq<Id>)
    requires NoDup(ids) && Ids(nodes) == ids
    ensures EveryIdOnce(nodes, Elements(ids))
  {
    forall i | 0 <= i < |nodes| ensures nodes[i].id == ids[i] {
      assert Ids(nodes)[i] == nodes[i].id;
    }
    assert |ids| == |nodes|;
  }

  lemma PlacedTidy(g: Geometry, buckets: seq<(nat, seq<Id>)>, maxNodes: nat, layout: Layout)
    requires g.NonNegative() && forall i :: 0 <= i < |layout.nodes| ==> PlacedAt(g, buckets, maxNodes, layout.nodes[i])
    requires LanesAt(g, buckets, maxNodes, layout.ranks)
    requires forall i, j :: 0 <= i < j < |layout.nodes| ==> layout.nodes[i].id != layout.nodes[j].id
    requires layout.width == TotalWidth(g, maxNodes, |buckets|) && layout.height == TotalHeight(g, maxNodes, |buckets|)
    ensures Tidy(g, layout)
  {
    forall i, j | 0 <= i < j < |layout.nodes| ensures BoxesDisjoint(g, layout.nodes[i], layout.nodes[j]) {
      PlacedDisjoint(g, buckets, maxNodes, layout.nodes[i], layout.nodes[j]);
    }
    forall n | n in layout.nodes ensures InFrame(g, layout.width, layout.height, n) {
      PlacedInFrame(g, buckets, maxNodes, n);
    }
    forall n | n in layout.nodes ensures n.rank < |layout.ranks| && InLane(g, layout.ranks[n.rank], n) {
      PlacedInLane(g, buckets, maxNodes, n, layout.ranks[n.rank]);
    }
  }

  // The box placed for entry k of bucket r.
  lemma NodeOfEntry(nodeIds: seq<Id>, rank: map<Id, nat>, buckets: seq<(nat, seq<Id>)>, g: Geometry, maxNodes: nat,
                    nodes: seq<LayoutNode>, r: nat, k: nat) returns (n: LayoutNode)
    requires RankBuckets(nodeIds, rank, buckets) && Ids(nodes) == Flatten(buckets)
    requires forall i :: 0 <= i < |nodes| ==> PlacedAt(g, buckets, maxNodes, nodes[i])
    requires r < |buckets| && k < |buckets[r].1|
    ensures n in nodes && n.rank == r && n.order == k && n.id == buckets[r].1[k]
  {
    hide Cross, Main;
    var id := buckets[r].1[k];
    FlattenMembers(buckets, id);
    assert id in buckets[r].1;
    var i :| 0 <= i < |Ids(nodes)| && Ids(nodes)[i] == id;
    n := nodes[i];
    assert PlacedAt(g, buckets, maxNodes, n);
    assert buckets[r] == (r, BucketOf(nodeIds, rank, r)) && buckets[n.rank] == (n.rank, BucketOf(nodeIds, rank, n.rank));
    assert n.id in buckets[n.rank].1;
    BucketNoDup(nodeIds, rank, r);
  }

  lemma {:induction false} LaneListed(nodeIds: seq<Id>, rank: map<Id, nat>, buckets: seq<(nat, seq<Id>)>, g: Geometry,
                                      maxNodes: nat, nodes: seq<LayoutNode>, lane: LayoutRank)
    requires RankBuckets(nodeIds, rank, buckets) && Ids(nodes) == Flatten(buckets)
    requires forall i :: 0 <= i < |nodes| ==> PlacedAt(g, buckets, maxNodes, nodes[i])
    requires LaneAt(g, buckets, maxNodes, lane) && lane.nodeIds != []
    ensures LaneLists(lane, nodes)
  {
    forall k | 0 <= k < |lane.nodeIds| ensures BoxAt(nodes, lane.rank, k, lane.nodeIds[k]) {
      var n := NodeOfEntry(nodeIds, rank, buckets, g, maxNodes, nodes, lane.rank, k);
    }
    forall n | n in nodes && n.rank == lane.rank ensures n.order < |lane.nodeIds| && lane.nodeIds[n.order] == n.id {
      assert PlacedAt(g, buckets, maxNodes, n);
    }
  }

  lemma {:induction false} LanesListed(nodeIds: seq<Id>, rank: map<Id, nat>, buckets: seq<(nat, seq<Id>)>, g: Geometry,
                                       maxNodes: nat, layout: Layout)
    requires RankBuckets(nodeIds, rank, buckets) && forall r :: 0 <= r < |buckets| ==> buckets[r].1 != []
    requires Ids(layout.nodes) == Flatten(buckets) && LanesAt(g, buckets, maxNodes, layout.ranks)
    requires forall i :: 0 <= i < |layout.nodes| ==> PlacedAt(g, buckets, maxNodes, layout.nodes[i])
    ensures LanesList(layout)
  {
    forall r | 0 <= r < |layout.ranks| ensures layout.ranks[r].rank == r && LaneLists(layout.ranks[r], layout.nodes) {
      LaneListed(nodeIds, rank, buckets, g, maxNodes, layout.nodes, layout.ranks[r]);
    }
    forall n | n in layout.nodes ensures n.rank < |layout.ranks| {
      assert PlacedAt(g, buckets, maxNodes, n);
    }
  }

  // The drawn edges split the input edges by their key.
  lemma DrawnSets(edges: seq<Edge>, drawn: seq<LayoutEdge>, keys: set<string>)
    requires |drawn| == |edges|
    requires forall i :: 0 <= i < |edges| ==>
      drawn[i].from == edges[i].from && drawn[i].to == edges[i].to
      && drawn[i].isBackEdge == (EdgeKey((edges[i].from, edges[i].to)) in keys)
    ensures Drawn(drawn, false) == Remaining(EdgeSet(edges), keys)
    ensures Drawn(drawn, true) == EdgeSet(edges) - Remaining(EdgeSet(edges), keys)
  {
    forall e | e in EdgeSet(edges) ensures e in Drawn(drawn, EdgeKey(e) in keys) {
      var i :| 0 <= i < |edges| && edges[i] == Edge(e.0, e.1);
      assert drawn[i] in drawn;
    }
    forall d | d in drawn
      ensures (d.from, d.to) in EdgeSet(edges) && d.isBackEdge == (EdgeKey((d.from, d.to)) in keys)
    {
      var i :| 0 <= i < |drawn| && drawn[i] == d;
      assert edges[i] in edges;
    }
  }

  // The flags: they mark the edges that carry the key of a back edge, none iff there is no cycle;
  // they are exact iff no other edge carries such a key, as when no edge on a cycle shares its key
  // or when no id contains the separator.
  ghost predicate FlagSpec(nodes: seq<Id>, edges: seq<Edge>, layout: Layout, rank: map<Id, nat>, back: Edges) {
    var E := EdgeSet(edges);
    && Feedback(E, back) && Drawn(layout.edges, true) == Flagged(E, back)
    && (Drawn(layout.edges, true) == {} <==> Acyclic(E))
    && (BackEdgesExact(edges, layout, rank) <==> KeysApart(E, back))
    && (CyclicKeysDistinct(E) ==> BackEdgesExact(edges, layout, rank))
    && ((forall id :: id in nodes ==> NUL !in id) ==> BackEdgesExact(edges, layout, rank))
  }

  // The flags mark the back edges alone, and these are the edges that go down in rank, exactly
  // when no other edge carries the key of a back edge.
  lemma FlagsExactIff(edges: seq<Edge>, layout: Layout, rank: map<Id, nat>, back: Edges)
    requires Ranked(edges, layout, rank) && Feedback(EdgeSet(edges), back)
    requires Drawn(layout.edges, false) == Remaining(EdgeSet(edges), KeysOf(back))
    requires Drawn(layout.edges, true) == Flagged(EdgeSet(edges), back)
    requires forall e :: e in edges ==> e.from in rank && e.to in rank && e.from != e.to
    ensures BackEdgesExact(edges, layout, rank) <==> KeysApart(EdgeSet(edges), back)
  {
    var E := EdgeSet(edges);
    FlaggedIff(E, back);
    if KeysApart(E, back) {
      assert Remaining(E, KeysOf(back)) == E - back;
      forall e | e in layout.edges
        ensures e.from in rank && e.to in rank && (if e.isBackEdge then rank[e.to] < rank[e.from] else rank[e.from] < rank[e.to])
      {
        assert (e.from, e.to) in Drawn(layout.edges, e.isBackEdge);
        assert (e.from, e.to) in E;
        if e.isBackEdge {
          assert (e.from, e.to) in back;
          ReachRaisesRank(E - back, rank, e.to, e.from);
        }
      }
    }
  }

  lemma FlagsFollow(nodes: seq<Id>, edges: seq<Edge>, layout: Layout, rank: map<Id, nat>, back: Edges)
    requires Feedback(EdgeSet(edges), back) && Drawn(layout.edges, true) == Flagged(EdgeSet(edges), back)
    requires BackEdgesExact(edges, layout, rank) <==> KeysApart(EdgeSet(edges), back)
    requires forall e :: e in edges ==> e.from in nodes
    ensures FlagSpec(nodes, edges, layout, rank, back)
  {
    var E := EdgeSet(edges);
    NoBackEdgesIffAcyclic(E, back);
    FlaggedIff(E, back);
    if CyclicKeysDistinct(E) {
      CyclicKeysSuffice(E, back);
    }
    if forall id :: id in nodes ==> NUL !in id {
      NulFreeKeysDistinct(E);
      CyclicKeysSuffice(E, back);
    }
  }

  function MapById(nodes: seq<LayoutNode>): (m: map<Id, LayoutNode>)
    ensures forall id :: id in m ==> m[id] in nodes && m[id].id == id
    ensures forall n :: n in nodes ==> n.id in m
  {
    if nodes == [] then map[]
    else
      var k := |nodes| - 1;
      assert nodes == nodes[..k] + [nodes[k]];
      MapById(nodes[..k])[nodes[k].id := nodes[k]]
  }

  method DrawEdges(g: Geometry, edges: seq<Edge>, byId: map<Id, LayoutNode>, keys: set<string>)
    returns (drawn: seq<LayoutEdge>)
    ensures |drawn| == |edges| && forall i :: 0 <= i < |edges| ==> drawn[i] == DrawEdge(g, edges[i], byId, keys)
  {
    drawn := [];
    for i := 0 to |edges|
      invariant |drawn| == i && forall k :: 0 <= k < i ==> drawn[k] == DrawEdge(g, edges[k], byId, keys)
    {
      drawn := drawn + [DrawEdge(g, edges[i], byId, keys)];
    }
  }

  lemma DrawnEnds(g: Geometry, edges: seq<Edge>, keys: set<string>, nodeIds: seq<Id>, layout: Layout)
    requires |layout.edges| == |edges| && EveryIdOnce(layout.nodes, Elements(nodeIds))
    requires forall i :: 0 <= i < |edges| ==> layout.edges[i] == DrawEdge(g, edges[i], MapById(layout.nodes), keys)
    requires forall e :: e in edges ==> e.from in nodeIds && e.to in nodeIds
    ensures EndsOnBoxes(g, layout)
  {
    var byId := MapById(layout.nodes);
    forall e | e in layout.edges ensures Joined(g, layout.nodes, e) {
      var i :| 0 <= i < |edges| && layout.edges[i] == e;
      var edge := edges[i];
      assert edge in edges;
      assert edge.from in Elements(nodeIds) && edge.to in Elements(nodeIds);
      assert Joins(g, e, byId[edge.from], byId[edge.to]);
    }
  }

  lemma DrawnForwardAdvances(g: Geometry, edges: seq<Edge>, buckets: seq<(nat, seq<Id>)>, maxNodes: nat,
                             byId: map<Id, LayoutNode>, keys: set<string>, rank: map<Id, nat>, layout: Layout)
    requires g.NonNegative() && Ranked(edges, layout, rank)
    requires forall i :: 0 <= i < |edges| ==> layout.edges[i] == DrawEdge(g, edges[i], byId, keys)
    requires forall e :: e in edges ==> e.from in byId && e.to in byId
    requires forall id :: id in byId ==>
      byId[id].id == id && byId[id] in layout.nodes && PlacedAt(g, buckets, maxNodes, byId[id])
    ensures ForwardAdvances(g, layout)
  {
    forall e | e in layout.edges && !e.isBackEdge ensures Advance(g, e) >= g.rankGap {
      var i :| 0 <= i < |edges| && layout.edges[i] == e;
      assert edges[i] in edges;
      assert (e.from, e.to) in Drawn(layout.edges, false);
      DrawnAdvance(g, buckets, maxNodes, edges[i], byId, keys);
    }
  }

  function NodeIds(o: Options): set<Id> {
    set id | id in o.nodes && id != ""
  }

  function LayoutEdges(o: Options): seq<Edge> {
    NormalizeEdges(o.edges, NodeIds(o))
  }

  // What a caller of computeDAGLayout may rely on.
  ghost predicate LayoutSpec(o: Options, layout: Layout, rank: map<Id, nat>, back: Edges) {
    var g := GeometryOf(o);
    var ids := NodeIds(o);
    var edges := LayoutEdges(o);
    && layout.direction == g.direction
    && EveryIdOnce(layout.nodes, ids) && LanesList(layout)
    && rank.Keys == ids && Ranked(edges, layout, rank)
    && (g.NonNegative() ==> Tidy(g, layout) && ForwardAdvances(g, layout))
    && EndsOnBoxes(g, layout) && FlagSpec(o.nodes, edges, layout, rank, back)
  }

  lemma LayoutRanked(nodeIds: seq<Id>, edges: seq<Edge>, keys: set<string>, rank: map<Id, nat>,
                     buckets: seq<(nat, seq<Id>)>, g: Geometry, maxNodes: nat, byId: map<Id, LayoutNode>, layout: Layout)
    requires RankBuckets(nodeIds, rank, buckets)
    requires forall i :: 0 <= i < |layout.nodes| ==> PlacedAt(g, buckets, maxNodes, layout.nodes[i])
    requires |layout.edges| == |edges|
    requires forall i :: 0 <= i < |edges| ==> layout.edges[i] == DrawEdge(g, edges[i], byId, keys)
    requires Acyclic(Remaining(EdgeSet(edges), keys)) && LocalRank(Remaining(EdgeSet(edges), keys), rank)
    requires LongestPathRank(Remaining(EdgeSet(edges), keys), rank)
    ensures Ranked(edges, layout, rank)
    ensures Drawn(layout.edges, false) == Remaining(EdgeSet(edges), keys)
    ensures Drawn(layout.edges, true) == EdgeSet(edges) - Remaining(EdgeSet(edges), keys)
  {
    DrawnSets(edges, layout.edges, keys);
    forall n | n in layout.nodes ensures n.id in rank && rank[n.id] == n.rank {
      assert buckets[n.rank] == (n.rank, BucketOf(nodeIds, rank, n.rank));
      assert n.id in buckets[n.rank].1;
    }
  }

  lemma LayoutTidy(buckets: seq<(nat, seq<Id>)>, g: Geometry, maxNodes: nat, layout: Layout)
    requires g.NonNegative() && LanesAt(g, buckets, maxNodes, layout.ranks)
    requires forall i :: 0 <= i < |layout.nodes| ==> PlacedAt(g, buckets, maxNodes, layout.nodes[i])
    requires forall i, j :: 0 <= i < j < |layout.nodes| ==> layout.nodes[i].id != layout.nodes[j].id
    requires var count := if |buckets| < 1 then 1 else |buckets|;
             layout.width == TotalWidth(g, maxNodes, count) && layout.height == TotalHeight(g, maxNodes, count)
    ensures Tidy(g, layout)
  {
    if layout.nodes != [] {
      assert PlacedAt(g, buckets, maxNodes, layout.nodes[0]);
      PlacedTidy(g, buckets, maxNodes, layout);
    }
  }

  lemma EndsInMap(nodes: seq<LayoutNode>, nodeIds: seq<Id>, edges: seq<Edge>)
    requires EveryIdOnce(nodes, Elements(nodeIds)) && forall e :: e in edges ==> e.from in nodeIds && e.to in nodeIds
    ensures forall e :: e in edges ==> e.from in MapById(nodes) && e.to in MapById(nodes)
  {
    forall e | e in edges ensures e.from in MapById(nodes) && e.to in MapById(nodes) {
      assert e.from in Elements(nodeIds) && e.to in Elements(nodeIds);
    }
  }

  lemma LayoutAdvances(nodeIds: seq<Id>, edges: seq<Edge>, keys: set<string>, rank: map<Id, nat>,
                       buckets: seq<(nat, seq<Id>)>, g: Geometry, maxNodes: nat, layout: Layout)
    requires g.NonNegative() && Ranked(edges, layout, rank) && Assembled(g, edges, keys, buckets, maxNodes, layout)
    requires EveryIdOnce(layout.nodes, Elements(nodeIds))
    requires forall e :: e in edges ==> e.from in nodeIds && e.to in nodeIds
    ensures ForwardAdvances(g, layout)
  {
    EndsInMap(layout.nodes, nodeIds, edges);
    DrawnForwardAdvances(g, edges, buckets, maxNodes, MapById(layout.nodes), keys, rank, layout);
  }

  // Feedback set, ranks and rank buckets of a normalised graph.
  ghost predicate RankingOk(nodeIds: seq<Id>, edges: seq<Edge>, keys: set<string>, back: Edges,
                            rank: map<Id, nat>, buckets: seq<(nat, seq<Id>)>) {
    && RankBuckets(nodeIds, rank, buckets) && (forall x :: x in rank ==> rank[x] < |buckets|)
    && (forall r :: 0 <= r < |buckets| ==> buckets[r].1 != [])
    && keys == KeysOf(back) && MinimalFeedback(EdgeSet(edges), back) && Closing(EdgeSet(edges), back)
    && Acyclic(Remaining(EdgeSet(edges), keys))
    && LocalRank(Remaining(EdgeSet(edges), keys), rank)
    && LongestPathRank(Remaining(EdgeSet(edges), keys), rank)
  }

  method RankGraph(nodeIds: seq<Id>, edges: seq<Edge>)
    returns (backEdges: set<string>, rank: map<Id, nat>, sortedRanks: seq<(nat, seq<Id>)>, ghost back: Edges)
    requires NoDup(nodeIds) && forall e :: e in edges ==> e.from in nodeIds && e.to in nodeIds
    ensures RankingOk(nodeIds, edges, backEdges, back, rank, sortedRanks)
  {
    backEdges, back := DetectBackEdges(nodeIds, edges);
    rank := BuildRanks(nodeIds, edges, backEdges);
    LocalIsContiguous(Remaining(EdgeSet(edges), backEdges), rank);
    sortedRanks := SortedRanks(nodeIds, rank);
  }

  // The finished layout, as assembled from ranks, placement and drawn edges.
  ghost predicate Assembled(g: Geometry, edges: seq<Edge>, keys: set<string>, buckets: seq<(nat, seq<Id>)>,
                            maxNodes: nat, layout: Layout) {
    var count := if |buckets| < 1 then 1 else |buckets|;
    && layout.direction == g.direction
    && Ids(layout.nodes) == Flatten(buckets) && LanesAt(g, buckets, maxNodes, layout.ranks)
    && (forall i :: 0 <= i < |layout.nodes| ==> PlacedAt(g, buckets, maxNodes, layout.nodes[i]))
    && |layout.edges| == |edges|
    && (forall i :: 0 <= i < |edges| ==> layout.edges[i] == DrawEdge(g, edges[i], MapById(layout.nodes), keys))
    && layout.width == TotalWidth(g, maxNodes, count) && layout.height == TotalHeight(g, maxNodes, count)
  }

  lemma AssembledRanked(nodeIds: seq<Id>, edges: seq<Edge>, keys: set<string>, back: Edges, rank: map<Id, nat>,
                        buckets: seq<(nat, seq<Id>)>, g: Geometry, maxNodes: nat, layout: Layout)
    requires RankingOk(nodeIds, edges, keys, back, rank, buckets) && Assembled(g, edges, keys, buckets, maxNodes, layout)
    requires forall e :: e in edges ==> e.from in nodeIds && e.to in nodeIds && e.from != e.to
    ensures Ranked(edges, layout, rank) && Drawn(layout.edges, true) == Flagged(EdgeSet(edges), back)
    ensures BackEdgesExact(edges, layout, rank) <==> KeysApart(EdgeSet(edges), back)
  {
    LayoutRanked(nodeIds, edges, keys, rank, buckets, g, maxNodes, MapById(layout.nodes), layout);
    forall e | e in edges ensures e.from in rank && e.to in rank && e.from != e.to {
      assert e.from in Elements(nodeIds) && e.to in Elements(nodeIds);
    }
    FlagsExactIff(edges, layout, rank, back);
  }

  lemma AssembledPlaced(nodeIds: seq<Id>, edges: seq<Edge>, keys: set<string>, back: Edges, rank: map<Id, nat>,
                        buckets: seq<(nat, seq<Id>)>, g: Geometry, maxNodes: nat, layout: Layout)
    requires RankingOk(nodeIds, edges, keys, back, rank, buckets) && Assembled(g, edges, keys, buckets, maxNodes, layout)
    requires forall e :: e in edges ==> e.from in nodeIds && e.to in nodeIds
    requires Ranked(edges, layout, rank)
    ensures EveryIdOnce(layout.nodes, Elements(nodeIds)) && LanesList(layout) && EndsOnBoxes(g, layout)
    ensures g.NonNegative() ==> Tidy(g, layout) && ForwardAdvances(g, layout)
  {
    FlattenIsIds(nodeIds, rank, buckets);
    PlacedOnce(layout.nodes, Flatten(buckets));
    LanesListed(nodeIds, rank, buckets, g, maxNodes, layout);
    DrawnEnds(g, edges, keys, nodeIds, layout);
    if g.NonNegative() {
      LayoutTidy(buckets, g, maxNodes, layout);
      LayoutAdvances(nodeIds, edges, keys, rank, buckets, g, maxNodes, layout);
    }
  }

  lemma LayoutIsCorrect(o: Options, nodeIds: seq<Id>, edges: seq<Edge>, keys: set<string>, back: Edges,
                        rank: map<Id, nat>, buckets: seq<(nat, seq<Id>)>, maxNodes: nat, layout: Layout)
    requires Elements(nodeIds) == NodeIds(o) && edges == LayoutEdges(o)
    requires RankingOk(nodeIds, edges, keys, back, rank, buckets)
    requires Assembled(GeometryOf(o), edges, keys, buckets, maxNodes, layout)
    ensures LayoutSpec(o, layout, rank, back)
  {
    forall e | e in edges ensures e.from in nodeIds && e.to in nodeIds && e.from != e.to {
      assert e.from in Elements(nodeIds) && e.to in Elements(nodeIds);
    }
    AssembledRanked(nodeIds, edges, keys, back, rank, buckets, GeometryOf(o), maxNodes, layout);
    AssembledPlaced(nodeIds, edges, keys, back, rank, buckets, GeometryOf(o), maxNodes, layout);
    FlagsFollow(o.nodes, edges, layout, rank, back);
  }

  // ---- The layout in terms of the options ----

  // a occurs in the list before b does.
  ghost predicate Before(ids: seq<Id>, a: Id, b: Id) {
    exists k :: 0 <= k < |ids| && ids[k] == a && b !in ids[..k + 1]
  }

  // Boxes are listed by rank, and within a rank in order.
  ghost predicate ListedByRank(nodes: seq<LayoutNode>) {
    forall i, j :: 0 <= i < j < |nodes| ==>
      nodes[i].rank < nodes[j].rank || (nodes[i].rank == nodes[j].rank && nodes[i].order < nodes[j].order)
  }

  // Ranks are a box and a rank gap apart, neighbours in a lane a box and a node gap; each lane spans its
  // boxes and has equal room on both sides.
  ghost predicate Spaced(g: Geometry, layout: Layout) {
    if g.direction.Vertical? then
      && (forall n :: n in layout.nodes ==> n.y == g.padding + n.rank as real * (g.nodeHeight + g.rankGap))
      && (forall n, m :: n in layout.nodes && m in layout.nodes && n.rank == m.rank && m.order == n.order + 1 ==>
            m.x == n.x + g.nodeWidth + g.nodeGap)
      && (forall n, l :: n in layout.nodes && l in layout.ranks && l.rank == n.rank ==>
            && l.y == n.y && l.height == g.nodeHeight
            && (n.order == 0 ==> l.x == n.x) && (n.order == |l.nodeIds| - 1 ==> l.x + l.width == n.x + g.nodeWidth))
      && forall l :: l in layout.ranks ==> l.x == layout.width - (l.x + l.width)
    else
      && (forall n :: n in layout.nodes ==> n.x == g.padding + n.rank as real * (g.nodeWidth + g.rankGap))
      && (forall n, m :: n in layout.nodes && m in layout.nodes && n.rank == m.rank && m.order == n.order + 1 ==>
            m.y == n.y + g.nodeHeight + g.nodeGap)
      && (forall n, l :: n in layout.nodes && l in layout.ranks && l.rank == n.rank ==>
            && l.x == n.x && l.width == g.nodeWidth
            && (n.order == 0 ==> l.y == n.y) && (n.order == |l.nodeIds| - 1 ==> l.y + l.height == n.y + g.nodeHeight))
      && forall l :: l in layout.ranks ==> l.y == layout.height - (l.y + l.height)
  }

  // The frame is tight: some box starts at the padding on each axis, and some box ends there.
  ghost predicate Tight(g: Geometry, layout: Layout) {
    if layout.nodes == [] then
      layout.width == g.nodeWidth + 2.0 * g.padding && layout.height == g.nodeHeight + 2.0 * g.padding
    else
      && (exists n :: n in layout.nodes && n.x == g.padding)
      && (exists n :: n in layout.nodes && n.x + g.nodeWidth == layout.width - g.padding)
      && (exists n :: n in layout.nodes && n.y == g.padding)
      && exists n :: n in layout.nodes && n.y + g.nodeHeight == layout.height - g.padding
  }

  // The drawn edges are, in order, the input edges between known, non-empty, different ids.
  ghost predicate DrawsEdges(nodes: seq<Id>, edges: seq<Edge>, drawn: seq<LayoutEdge>, at: seq<nat>) {
    && |at| == |drawn| && (forall i, j :: 0 <= i < j < |at| ==> at[i] < at[j])
    && (forall i :: 0 <= i < |at| ==> at[i] < |edges| && drawn[i].from == edges[at[i]].from && drawn[i].to == edges[at[i]].to)
    && forall k: nat :: k < |edges| ==>
         (k in at <==>
            && edges[k].from in nodes && edges[k].to in nodes && edges[k].from != edges[k].to
            && edges[k].from != "" && edges[k].to != "")
  }

  // What a caller may rely on, over the options and the layout alone. Missing sizes are those of the program.
  ghost predicate LayoutOverInput(o: Options, layout: Layout) {
    var g := Geometry(
      if o.direction.Some? then o.direction.value else Vertical,
      if o.nodeWidth.Some? then o.nodeWidth.value else 160.0, if o.nodeHeight.Some? then o.nodeHeight.value else 40.0,
      if o.rankGap.Some? then o.rankGap.value else 64.0, if o.nodeGap.Some? then o.nodeGap.value else 48.0,
      if o.padding.Some? then o.padding.value else 24.0);
    && layout.direction == g.direction
    && (forall id :: id in o.nodes && id != "" <==> exists n :: n in layout.nodes && n.id == id)
    && (forall i, j :: 0 <= i < j < |layout.nodes| ==> layout.nodes[i].id != layout.nodes[j].id)
    && ListedByRank(layout.nodes)
    && (forall n, m :: n in layout.nodes && m in layout.nodes && n.rank == m.rank && n.order < m.order ==>
          Before(o.nodes, n.id, m.id))
    && Spaced(g, layout) && Tight(g, layout) && EndsOnBoxes(g, layout)
    && exists at :: DrawsEdges(o.nodes, o.edges, layout.edges, at)
  }

  predicate Stays(e: Edge, ids: set<Id>) {
    e.from in ids && e.to in ids && e.from != e.to && e.from != "" && e.to != ""
  }

  // `at` are the positions of the kept edges.
  ghost predicate KeptAt(edges: seq<Edge>, ids: set<Id>, kept: seq<Edge>, at: seq<nat>) {
    && |at| == |kept| && (forall i, j :: 0 <= i < j < |at| ==> at[i] < at[j])
    && (forall i :: 0 <= i < |at| ==> at[i] < |edges| && kept[i] == edges[at[i]])
    && forall k: nat :: k < |edges| ==> (k in at <==> Stays(edges[k], ids))
  }

  function Shift(at: seq<nat>): (r: seq<nat>)
    ensures |r| == |at| && forall i :: 0 <= i < |at| ==> r[i] == at[i] + 1
  {
    if at == [] then [] else [at[0] + 1] + Shift(at[1..])
  }

  lemma {:induction false} InShift(at: seq<nat>, k: nat)
    ensures k in Shift(at) <==> k > 0 && k - 1 in at
  {
    if at != [] {
      InShift(at[1..], k);
      assert at == [at[0]] + at[1..];
    }
  }

  // The places of the kept edges but the first.
  ghost predicate LaterAt(edges: seq<Edge>, ids: set<Id>, kept: seq<Edge>, later: seq<nat>) {
    && |later| == |kept| && (forall i, j :: 0 <= i < j < |later| ==> later[i] < later[j])
    && (forall i :: 0 <= i < |later| ==> 0 < later[i] < |edges| && kept[i] == edges[later[i]])
    && forall k: nat :: k < |edges| ==> (k in later <==> k > 0 && Stays(edges[k], ids))
  }

  lemma LaterMember(edges: seq<Edge>, ids: set<Id>, kept: seq<Edge>, at: seq<nat>, k: nat)
    requires edges != [] && KeptAt(edges[1..], ids, kept, at) && k < |edges|
    ensures k in Shift(at) <==> k > 0 && Stays(edges[k], ids)
  {
    hide Stays, Shift;
    InShift(at, k);
    if k > 0 {
      assert edges[1..][k - 1] == edges[k];
    }
  }

  lemma KeptLater(edges: seq<Edge>, ids: set<Id>, kept: seq<Edge>, at: seq<nat>)
    requires edges != [] && KeptAt(edges[1..], ids, kept, at)
    ensures LaterAt(edges, ids, kept, Shift(at))
  {
    hide Stays, Shift;
    forall k: nat | k < |edges| ensures k in Shift(at) <==> k > 0 && Stays(edges[k], ids) {
      LaterMember(edges, ids, kept, at, k);
    }
    hide KeptAt;
    var later := Shift(at);
    forall i | 0 <= i < |later| ensures 0 < later[i] < |edges| && kept[i] == edges[later[i]] {
      LaterPlace(edges, ids, kept, at, i);
    }
    forall i, j | 0 <= i < j < |later| ensures later[i] < later[j] {
      LaterOrder(edges, ids, kept, at, i, j);
    }
    assert |later| == |kept| by { LaterSize(edges, ids, kept, at); }
  }

  lemma LaterSize(edges: seq<Edge>, ids: set<Id>, kept: seq<Edge>, at: seq<nat>)
    requires edges != [] && KeptAt(edges[1..], ids, kept, at)
    ensures |Shift(at)| == |kept|
  {
  }

  lemma PlaceOf(edges: seq<Edge>, ids: set<Id>, kept: seq<Edge>, at: seq<nat>, i: nat)
    requires KeptAt(edges, ids, kept, at) && i < |at|
    ensures i < |kept| && at[i] < |edges| && kept[i] == edges[at[i]]
  {
    hide Stays;
  }

  lemma LaterPlace(edges: seq<Edge>, ids: set<Id>, kept: seq<Edge>, at: seq<nat>, i: nat)
    requires edges != [] && KeptAt(edges[1..], ids, kept, at) && i < |at|
    ensures i < |kept| && 0 < Shift(at)[i] < |edges| && kept[i] == edges[Shift(at)[i]]
  {
    hide Stays, KeptAt, Shift;
    PlaceOf(edges[1..], ids, kept, at, i);
    assert Shift(at)[i] == at[i] + 1 && edges[1..][at[i]] == edges[at[i] + 1];
  }

  lemma LaterOrder(edges: seq<Edge>, ids: set<Id>, kept: seq<Edge>, at: seq<nat>, i: nat, j: nat)
    requires edges != [] && KeptAt(edges[1..], ids, kept, at) && i < j < |at|
    ensures Shift(at)[i] < Shift(at)[j]
  {
    hide Stays;
  }

  lemma InPrepended(s: seq<nat>, k: nat)
    ensures k in [0] + s <==> k == 0 || k in s
  {
  }

  // Positions behind the first edge, with the first edge put in front.
  lemma FirstPlaces(edges: seq<Edge>, kept: seq<Edge>, later: seq<nat>)
    requires edges != [] && |later| == |kept|
    requires forall i, j :: 0 <= i < j < |later| ==> later[i] < later[j]
    requires forall i :: 0 <= i < |later| ==> 0 < later[i] < |edges| && kept[i] == edges[later[i]]
    ensures var all, pos: seq<nat> := [edges[0]] + kept, [0] + later;
            && (forall i, j :: 0 <= i < j < |pos| ==> pos[i] < pos[j])
            && forall i :: 0 <= i < |pos| ==> pos[i] < |edges| && all[i] == edges[pos[i]]
  {
    var all, pos: seq<nat> := [edges[0]] + kept, [0] + later;
    forall i | 0 <= i < |pos| ensures pos[i] == (if i == 0 then 0 else later[i - 1])
                              ensures all[i] == (if i == 0 then edges[0] else kept[i - 1]) {
    }
  }

  lemma KeptFirst(edges: seq<Edge>, ids: set<Id>, kept: seq<Edge>, later: seq<nat>)
    requires edges != [] && Stays(edges[0], ids) && LaterAt(edges, ids, kept, later)
    ensures KeptAt(edges, ids, [edges[0]] + kept, [0] + later)
  {
    hide Stays;
    var pos: seq<nat> := [0] + later;
    FirstPlaces(edges, kept, later);
    forall k: nat | k < |edges| ensures k in pos <==> Stays(edges[k], ids) {
      InPrepended(later, k);
    }
  }

  lemma FirstDropped(edges: seq<Edge>, ids: set<Id>, kept: seq<Edge>, later: seq<nat>)
    requires edges != [] && !Stays(edges[0], ids) && LaterAt(edges, ids, kept, later)
    ensures KeptAt(edges, ids, kept, later)
  {
    hide Stays;
  }

  lemma KeptAtNext(edges: seq<Edge>, ids: set<Id>, kept: seq<Edge>, at: seq<nat>)
    requires edges != [] && KeptAt(edges[1..], ids, kept, at)
    ensures if Stays(edges[0], ids) then KeptAt(edges, ids, [edges[0]] + kept, [0] + Shift(at))
            else KeptAt(edges, ids, kept, Shift(at))
  {
    hide Stays, KeptAt, LaterAt;
    KeptLater(edges, ids, kept, at);
    if Stays(edges[0], ids) {
      KeptFirst(edges, ids, kept, Shift(at));
    } else {
      FirstDropped(edges, ids, kept, Shift(at));
    }
  }

  lemma {:induction false} NormalizedAt(edges: seq<Edge>, ids: set<Id>) returns (at: seq<nat>)
    ensures KeptAt(edges, ids, NormalizeEdges(edges, ids), at)
    decreases |edges|
  {
    hide KeptAt;
    if edges == [] {
      NothingKept(ids);
      at := [];
    } else {
      var rest := NormalizedAt(edges[1..], ids);
      KeptAtNext(edges, ids, NormalizeEdges(edges[1..], ids), rest);
      assert [] + NormalizeEdges(edges[1..], ids) == NormalizeEdges(edges[1..], ids);
      at := if Stays(edges[0], ids) then [0] + Shift(rest) else Shift(rest);
    }
  }

  lemma NothingKept(ids: set<Id>)
    ensures KeptAt([], ids, [], [])
  {
  }

  lemma EdgesAreDrawn(o: Options, g: Geometry, ids: set<Id>, edges: seq<Edge>, layout: Layout, keys: set<string>)
    requires edges == NormalizeEdges(o.edges, ids) && forall id :: id in ids <==> id in o.nodes && id != ""
    requires |layout.edges| == |edges|
    requires forall i :: 0 <= i < |edges| ==> layout.edges[i] == DrawEdge(g, edges[i], MapById(layout.nodes), keys)
    ensures exists at :: DrawsEdges(o.nodes, o.edges, layout.edges, at)
  {
    var at := NormalizedAt(o.edges, ids);
    assert DrawsEdges(o.nodes, o.edges, layout.edges, at);
  }

  // A bucket keeps the order of the ids.
  lemma {:induction false} BucketOrder(ids: seq<Id>, rank: map<Id, nat>, r: nat, j: nat, k: nat)
    requires j < k < |BucketOf(ids, rank, r)|
    ensures exists p, q :: 0 <= p < q < |ids| && ids[p] == BucketOf(ids, rank, r)[j] && ids[q] == BucketOf(ids, rank, r)[k]
    decreases |ids|
  {
    var n := |ids| - 1;
    var front := BucketOf(ids[..n], rank, r);
    if k < |front| {
      BucketOrder(ids[..n], rank, r, j, k);
      var p, q :| 0 <= p < q < |ids[..n]| && ids[..n][p] == front[j] && ids[..n][q] == front[k];
      assert ids[p] == front[j] && ids[q] == front[k];
    } else {
      assert front[j] in front;
      var p :| 0 <= p < |ids[..n]| && ids[..n][p] == front[j];
      assert ids[p] == front[j];
    }
  }

  // The ids of one list come in the order in which another first names them.
  ghost predicate FirstOrder(all: seq<Id>, ids: seq<Id>) {
    forall i, j :: 0 <= i < j < |ids| ==> Before(all, ids[i], ids[j])
  }

  lemma OrderIsFirst(all: seq<Id>, nodeIds: seq<Id>, rank: map<Id, nat>, buckets: seq<(nat, seq<Id>)>, g: Geometry,
                     maxNodes: nat, n: LayoutNode, m: LayoutNode)
    requires FirstOrder(all, nodeIds) && RankBuckets(nodeIds, rank, buckets)
    requires PlacedAt(g, buckets, maxNodes, n) && PlacedAt(g, buckets, maxNodes, m)
    requires n.rank == m.rank && n.order < m.order
    ensures Before(all, n.id, m.id)
  {
    hide Cross, Main;
    BucketOrder(nodeIds, rank, n.rank, n.order, m.order);
    var p, q :| 0 <= p < q < |nodeIds| && nodeIds[p] == n.id && nodeIds[q] == m.id;
  }

  lemma CrossStep(g: Geometry, maxNodes: nat, n: nat, o: nat)
    ensures Cross(g, maxNodes, n, o + 1) == Cross(g, maxNodes, n, o) + g.CrossSize() + g.nodeGap
  {
    TimesNext(o, g.CrossSize() + g.nodeGap);
  }

  // The last box of a lane ends where the lane does.
  lemma LaneEnd(g: Geometry, maxNodes: nat, n: nat)
    requires n >= 1
    ensures Cross(g, maxNodes, n, n - 1) + g.CrossSize()
         == Cross(g, maxNodes, n, 0) + Extent(n, g.CrossSize(), g.nodeGap)
  {
    TimesNext(n - 1, g.CrossSize() + g.nodeGap);
    ExtentSteps(n, g.CrossSize(), g.nodeGap);
    assert Offset(0, g.CrossSize(), g.nodeGap) == 0.0;
  }

  // A lane is as far from the end of the frame as from its start.
  lemma LaneMiddle(g: Geometry, maxNodes: nat, n: nat)
    ensures var lane, all := Extent(n, g.CrossSize(), g.nodeGap), Extent(maxNodes, g.CrossSize(), g.nodeGap);
            Cross(g, maxNodes, n, 0) == (g.padding * 2.0 + all) - (Cross(g, maxNodes, n, 0) + lane)
  {
    assert Offset(0, g.CrossSize(), g.nodeGap) == 0.0;
  }

  lemma NeighboursSpaced(g: Geometry, buckets: seq<(nat, seq<Id>)>, maxNodes: nat, n: LayoutNode, m: LayoutNode)
    requires PlacedAt(g, buckets, maxNodes, n) && PlacedAt(g, buckets, maxNodes, m)
    requires n.rank == m.rank && m.order == n.order + 1
    ensures if g.direction.Vertical? then m.x == n.x + g.nodeWidth + g.nodeGap else m.y == n.y + g.nodeHeight + g.nodeGap
  {
    hide Cross, Main;
    CrossStep(g, maxNodes, |buckets[n.rank].1|, n.order);
  }

  lemma LaneSpans(g: Geometry, buckets: seq<(nat, seq<Id>)>, maxNodes: nat, n: LayoutNode, l: LayoutRank)
    requires PlacedAt(g, buckets, maxNodes, n) && LaneAt(g, buckets, maxNodes, l) && l.rank == n.rank
    ensures if g.direction.Vertical? then l.y == n.y && l.height == g.nodeHeight else l.x == n.x && l.width == g.nodeWidth
    ensures n.order == 0 ==> if g.direction.Vertical? then l.x == n.x else l.y == n.y
    ensures n.order == |l.nodeIds| - 1 ==>
      if g.direction.Vertical? then l.x + l.width == n.x + g.nodeWidth else l.y + l.height == n.y + g.nodeHeight
  {
    hide Cross, Main, Extent;
    LaneEnd(g, maxNodes, |l.nodeIds|);
  }

  lemma RankStarts(g: Geometry, buckets: seq<(nat, seq<Id>)>, maxNodes: nat, n: LayoutNode)
    requires PlacedAt(g, buckets, maxNodes, n)
    ensures if g.direction.Vertical? then n.y == g.padding + n.rank as real * (g.nodeHeight + g.rankGap)
            else n.x == g.padding + n.rank as real * (g.nodeWidth + g.rankGap)
  {
    hide Cross;
  }

  lemma LaneIsCentred(g: Geometry, buckets: seq<(nat, seq<Id>)>, maxNodes: nat, count: nat, l: LayoutRank, layout: Layout)
    requires LaneAt(g, buckets, maxNodes, l)
    requires layout.width == TotalWidth(g, maxNodes, count) && layout.height == TotalHeight(g, maxNodes, count)
    ensures if g.direction.Vertical? then l.x == layout.width - (l.x + l.width) else l.y == layout.height - (l.y + l.height)
  {
    hide Cross, Main, Extent;
    LaneMiddle(g, maxNodes, |l.nodeIds|);
  }

  lemma AssembledSpaced(g: Geometry, buckets: seq<(nat, seq<Id>)>, maxNodes: nat, count: nat, layout: Layout)
    requires LanesAt(g, buckets, maxNodes, layout.ranks)
    requires forall i :: 0 <= i < |layout.nodes| ==> PlacedAt(g, buckets, maxNodes, layout.nodes[i])
    requires layout.width == TotalWidth(g, maxNodes, count) && layout.height == TotalHeight(g, maxNodes, count)
    ensures Spaced(g, layout)
  {
    hide PlacedAt, LaneAt, TotalWidth, TotalHeight;
    forall n | n in layout.nodes
      ensures if g.direction.Vertical? then n.y == g.padding + n.rank as real * (g.nodeHeight + g.rankGap)
              else n.x == g.padding + n.rank as real * (g.nodeWidth + g.rankGap)
    {
      RankStarts(g, buckets, maxNodes, n);
    }
    forall n, m | n in layout.nodes && m in layout.nodes && n.rank == m.rank && m.order == n.order + 1
      ensures if g.direction.Vertical? then m.x == n.x + g.nodeWidth + g.nodeGap else m.y == n.y + g.nodeHeight + g.nodeGap
    {
      NeighboursSpaced(g, buckets, maxNodes, n, m);
    }
    forall n, l | n in layout.nodes && l in layout.ranks && l.rank == n.rank
      ensures if g.direction.Vertical? then l.y == n.y && l.height == g.nodeHeight else l.x == n.x && l.width == g.nodeWidth
      ensures n.order == 0 ==> if g.direction.Vertical? then l.x == n.x else l.y == n.y
      ensures n.order == |l.nodeIds| - 1 ==>
        if g.direction.Vertical? then l.x + l.width == n.x + g.nodeWidth else l.y + l.height == n.y + g.nodeHeight
    {
      LaneSpans(g, buckets, maxNodes, n, l);
    }
    forall l | l in layout.ranks
      ensures if g.direction.Vertical? then l.x == layout.width - (l.x + l.width) else l.y == layout.height - (l.y + l.height)
    {
      LaneIsCentred(g, buckets, maxNodes, count, l, layout);
    }
  }

  // The widest lane, and the last rank.
  ghost predicate Widest(buckets: seq<(nat, seq<Id>)>, maxNodes: nat) {
    if buckets == [] then maxNodes == 1 else exists r :: 0 <= r < |buckets| && |buckets[r].1| == maxNodes
  }

  lemma AssembledTight(nodeIds: seq<Id>, rank: map<Id, nat>, g: Geometry, edges: seq<Edge>, keys: set<string>,
                       buckets: seq<(nat, seq<Id>)>, maxNodes: nat, layout: Layout)
    requires Assembled(g, edges, keys, buckets, maxNodes, layout) && RankBuckets(nodeIds, rank, buckets)
    requires Widest(buckets, maxNodes) && forall r :: 0 <= r < |buckets| ==> buckets[r].1 != []
    ensures Tight(g, layout)
  {
    if buckets == [] {
      assert |Ids(layout.nodes)| == 0;
      OneBox(g);
    } else {
      var w :| 0 <= w < |buckets| && |buckets[w].1| == maxNodes;
      var last := |buckets| - 1;
      var first := NodeOfEntry(nodeIds, rank, buckets, g, maxNodes, layout.nodes, w, 0);
      var final := NodeOfEntry(nodeIds, rank, buckets, g, maxNodes, layout.nodes, w, maxNodes - 1);
      var top := NodeOfEntry(nodeIds, rank, buckets, g, maxNodes, layout.nodes, 0, 0);
      var bottom := NodeOfEntry(nodeIds, rank, buckets, g, maxNodes, layout.nodes, last, 0);
      assert PlacedAt(g, buckets, maxNodes, first) && PlacedAt(g, buckets, maxNodes, final);
      assert PlacedAt(g, buckets, maxNodes, top) && PlacedAt(g, buckets, maxNodes, bottom);
      FullLane(g, maxNodes);
      FullDepth(g, |buckets|);
      if g.direction.Vertical? {
        assert first.x == g.padding && final.x + g.nodeWidth == layout.width - g.padding;
        assert top.y == g.padding && bottom.y + g.nodeHeight == layout.height - g.padding;
      } else {
        assert first.y == g.padding && final.y + g.nodeHeight == layout.height - g.padding;
        assert top.x == g.padding && bottom.x + g.nodeWidth == layout.width - g.padding;
      }
    }
  }

  lemma OneBox(g: Geometry)
    ensures Extent(1, g.nodeWidth, g.nodeGap) == Extent(1, g.nodeWidth, g.rankGap) == g.nodeWidth
    ensures Extent(1, g.nodeHeight, g.nodeGap) == Extent(1, g.nodeHeight, g.rankGap) == g.nodeHeight
  {
  }

  // The widest lane fills the frame across the ranks.
  lemma FullLane(g: Geometry, maxNodes: nat)
    requires maxNodes >= 1
    ensures Cross(g, maxNodes, maxNodes, 0) == g.padding
    ensures Cross(g, maxNodes, maxNodes, maxNodes - 1) + g.CrossSize()
         == g.padding + Extent(maxNodes, g.CrossSize(), g.nodeGap)
  {
    assert Offset(0, g.CrossSize(), g.nodeGap) == 0.0;
    LaneEnd(g, maxNodes, maxNodes);
  }

  // The ranks fill it along the other axis.
  lemma FullDepth(g: Geometry, count: nat)
    requires count >= 1
    ensures Main(g, 0) == g.padding
    ensures Main(g, count - 1) + g.MainSize() == g.padding + Extent(count, g.MainSize(), g.rankGap)
  {
    TimesNext(count - 1, g.MainSize() + g.rankGap);
    ExtentSteps(count, g.MainSize(), g.rankGap);
    assert Offset(0, g.MainSize(), g.rankGap) == 0.0;
  }

  lemma BoxesOverInput(o: Options, nodeIds: seq<Id>, rank: map<Id, nat>, buckets: seq<(nat, seq<Id>)>, g: Geometry,
                       maxNodes: nat, layout: Layout)
    requires (forall id :: id in nodeIds <==> id in o.nodes && id != "") && FirstOrder(o.nodes, nodeIds)
    requires RankBuckets(nodeIds, rank, buckets) && EveryIdOnce(layout.nodes, Elements(nodeIds))
    requires forall i :: 0 <= i < |layout.nodes| ==> PlacedAt(g, buckets, maxNodes, layout.nodes[i])
    ensures forall id :: id in o.nodes && id != "" <==> exists n :: n in layout.nodes && n.id == id
    ensures forall n, m :: n in layout.nodes && m in layout.nodes && n.rank == m.rank && n.order < m.order ==>
              Before(o.nodes, n.id, m.id)
  {
    hide PlacedAt, RankBuckets, FirstOrder, Before;
    forall id ensures id in o.nodes && id != "" <==> exists n :: n in layout.nodes && n.id == id {
      assert id in nodeIds <==> id in Elements(nodeIds);
      if id in nodeIds {
        var i :| 0 <= i < |layout.nodes| && layout.nodes[i].id == id;
        assert layout.nodes[i] in layout.nodes;
      }
    }
    forall n, m | n in layout.nodes && m in layout.nodes && n.rank == m.rank && n.order < m.order
      ensures Before(o.nodes, n.id, m.id)
    {
      OrderIsFirst(o.nodes, nodeIds, rank, buckets, g, maxNodes, n, m);
    }
  }

  lemma AssembledOnce(nodeIds: seq<Id>, edges: seq<Edge>, keys: set<string>, back: Edges, rank: map<Id, nat>,
                      buckets: seq<(nat, seq<Id>)>, g: Geometry, maxNodes: nat, layout: Layout)
    requires RankingOk(nodeIds, edges, keys, back, rank, buckets) && Assembled(g, edges, keys, buckets, maxNodes, layout)
    requires forall e :: e in edges ==> e.from in nodeIds && e.to in nodeIds
    ensures EveryIdOnce(layout.nodes, Elements(nodeIds)) && EndsOnBoxes(g, layout)
  {
    hide PlacedAt, LanesAt, EndsOnBoxes, MinimalFeedback, Closing, LocalRank, LongestPathRank, TotalWidth, TotalHeight;
    FlattenIsIds(nodeIds, rank, buckets);
    PlacedOnce(layout.nodes, Flatten(buckets));
    DrawnEnds(g, edges, keys, nodeIds, layout);
  }

  lemma LayoutMeetsInput(o: Options, nodeIds: seq<Id>, edges: seq<Edge>, keys: set<string>, back: Edges,
                         rank: map<Id, nat>, buckets: seq<(nat, seq<Id>)>, maxNodes: nat, layout: Layout)
    requires (forall id :: id in nodeIds <==> id in o.nodes && id != "") && FirstOrder(o.nodes, nodeIds)
    requires edges == NormalizeEdges(o.edges, Elements(nodeIds))
    requires RankingOk(nodeIds, edges, keys, back, rank, buckets) && Widest(buckets, maxNodes)
    requires Assembled(GeometryOf(o), edges, keys, buckets, maxNodes, layout) && ListedByRank(layout.nodes)
    ensures LayoutOverInput(o, layout)
  {
    hide PlacedAt, LanesAt, Spaced, Tight, EndsOnBoxes, ListedByRank, FirstOrder, Before, DrawsEdges, NormalizeEdges,
         MinimalFeedback, Closing, LocalRank, LongestPathRank, RankBuckets, Widest, TotalWidth, TotalHeight, DrawEdge;
    var g := GeometryOf(o);
    KeptEnds(o.edges, Elements(nodeIds));
    AssembledOnce(nodeIds, edges, keys, back, rank, buckets, g, maxNodes, layout);
    BoxesOverInput(o, nodeIds, rank, buckets, g, maxNodes, layout);
    AssembledSpaced(g, buckets, maxNodes, if |buckets| < 1 then 1 else |buckets|, layout);
    AssembledTight(nodeIds, rank, g, edges, keys, buckets, maxNodes, layout);
    EdgesAreDrawn(o, g, Elements(nodeIds), edges, layout, keys);
  }

  lemma KeptEnds(edges: seq<Edge>, ids: set<Id>)
    ensures forall e :: e in NormalizeEdges(edges, ids) ==> e.from in ids && e.to in ids
  {
  }

  // Placement and drawing, once ranks and back edges are known.
  method PlaceAndDraw(g: Geometry, edges: seq<Edge>, backEdges: set<string>, sortedRanks: seq<(nat, seq<Id>)>)
    returns (layout: Layout, ghost maxNodes: nat)
    requires forall r :: 0 <= r < |sortedRanks| ==> sortedRanks[r].0 == r && sortedRanks[r].1 != []
    ensures Assembled(g, edges, backEdges, sortedRanks, maxNodes, layout)
    ensures ListedByRank(layout.nodes) && Widest(sortedRanks, maxNodes)
  {
    hide PlacedAt, LaneAt, TotalWidth, TotalHeight, DrawEdge, ListedByRank, Widest, Flatten;
    var widest := MaxNodesInRank(sortedRanks);
    var rankCount := if |sortedRanks| < 1 then 1 else |sortedRanks|;
    var nodes, lanes := PlaceNodes(g, sortedRanks, widest);
    var drawn := DrawEdges(g, edges, MapById(nodes), backEdges);
    layout := Layout(nodes, drawn, lanes, g.direction,
                     TotalWidth(g, widest, rankCount), TotalHeight(g, widest, rankCount));
    maxNodes := widest;
  }

  method ComputeDAGLayout(o: Options) returns (layout: Layout)
    ensures exists rank, back :: LayoutSpec(o, layout, rank, back)
    ensures LayoutOverInput(o, layout)
  {
    hide LayoutSpec, LayoutOverInput, Assembled, Widest, ListedByRank, FirstOrder, MinimalFeedback, Closing, LocalRank,
         LongestPathRank;
    var g := GeometryOf(o);
    var nodeIds := UniqueNodes(o.nodes);
    assert Elements(nodeIds) == NodeIds(o);
    var edges := NormalizeEdges(o.edges, Elements(nodeIds));
    KeptEnds(o.edges, Elements(nodeIds));
    var backEdges, ranksByNode, sortedRanks, back := RankGraph(nodeIds, edges);
    ghost var maxNodes;
    layout, maxNodes := PlaceAndDraw(g, edges, backEdges, sortedRanks);
    LayoutIsCorrect(o, nodeIds, edges, backEdges, back, ranksByNode, sortedRanks, maxNodes, layout);
    LayoutMeetsInput(o, nodeIds, edges, backEdges, back, ranksByNode, sortedRanks, maxNodes, layout);
  }

  // ---- Ids with the separator ----

  const AB := "a" + [NUL] + "b"
  const BC := "b" + [NUL] + "c"
  const CA := "c" + [NUL] + "a"

  // A cycle of two edges, each of which shares its key with an edge on no cycle.
  const COLLIDING := Options(
    [AB, "c", "a", BC, CA, "b"],
    [Edge(AB, "c"), Edge("c", AB), Edge("a", BC), Edge(CA, "b")],
    None, None, None, None, None, None)

  // Whatever the search finds, the layout of this graph flags an edge that is on no cycle.
  lemma CollidingIdsMisflag(layout: Layout, rank: map<Id, nat>, back: Edges)
    requires LayoutSpec(COLLIDING, layout, rank, back)
    ensures !BackEdgesExact(LayoutEdges(COLLIDING), layout, rank)
    ensures exists e :: e in layout.edges && e.isBackEdge && e.from in {"a", CA}
  {
    CollidingEdges();
    var e := CollidingFlagged(EdgeSet(LayoutEdges(COLLIDING)), back);
    assert e in Drawn(layout.edges, true);
  }

  lemma CollidingFlagged(E: Edges, back: Edges) returns (e: (Id, Id))
    requires E == {(AB, "c"), ("c", AB), ("a", BC), (CA, "b")} && Feedback(E, back)
    ensures !KeysApart(E, back) && e in Flagged(E, back) && e.0 in {"a", CA}
  {
    CollidingBack(E, back);
    CollidingKeys();
    e := if (AB, "c") in back then ("a", BC) else (CA, "b");
    var f := if (AB, "c") in back then (AB, "c") else ("c", AB);
    assert EdgeKey(e) == EdgeKey(f) && f in back && e in E - back;
  }

  lemma CollidingKeys()
    ensures EdgeKey((AB, "c")) == EdgeKey(("a", BC)) && EdgeKey(("c", AB)) == EdgeKey((CA, "b"))
  {
  }

  lemma CollidingNodes()
    ensures forall id :: id in [AB, "c", "a", BC, CA, "b"] ==> id in NodeIds(COLLIDING)
    ensures AB != "c" && BC != "a" && CA != "b"
  {
    assert |AB| == 3 && |BC| == 3 && |CA| == 3;
  }

  lemma CollidingEdges()
    ensures EdgeSet(LayoutEdges(COLLIDING)) == {(AB, "c"), ("c", AB), ("a", BC), (CA, "b")}
  {
    var edges := LayoutEdges(COLLIDING);
    CollidingNodes();
    assert COLLIDING.edges == [Edge(AB, "c"), Edge("c", AB), Edge("a", BC), Edge(CA, "b")];
    forall e ensures e in edges <==> e in COLLIDING.edges {
    }
  }

  lemma CollidingBack(E: Edges, back: Edges)
    requires E == {(AB, "c"), ("c", AB), ("a", BC), (CA, "b")} && Feedback(E, back)
    ensures ("a", BC) !in back && (CA, "b") !in back
    ensures (AB, "c") in back || ("c", AB) in back
  {
    assert |AB| == |BC| == |CA| == 3 && AB[0] == 'a' && BC[0] == 'b' && CA[0] == 'c';
    ReachEdge(E, "c", AB);
    assert OnCycle(E, AB);
    NoBackEdgesIffAcyclic(E, back);
    forall e | e in back ensures Reach(E, e.1, e.0) {
      ReachMono(E - back, E, e.1, e.0);
    }
    if Reach(E, BC, "a") {
      ClosedReach(E, {BC}, BC, "a");
    }
    if Reach(E, "b", CA) {
      ClosedReach(E, {"b"}, "b", CA);
    }
  }
}
