// The stable sort of the JavaScript runtime, as far as the callers rely on it:
// a permutation of its input, ordered whenever the comparison is a total preorder.
module Sorting {
  import opened Graphs

  ghost predicate TotalPreorder<T(!new)>(le: (T, T) -> bool) {
    && (forall x, y :: le(x, y) || le(y, x))
    && (forall x, y, z :: le(x, y) && le(y, z) ==> le(x, z))
  }

  ghost predicate SortedBy<T>(s: seq<T>, le: (T, T) -> bool) {
    forall i, j :: 0 <= i < j < |s| ==> le(s[i], s[j])
  }

  // Insertion before the first element that is not smaller keeps equal elements in order
  // when the sort below inserts from the right.
  function Insert<T>(x: T, s: seq<T>, le: (T, T) -> bool): (r: seq<T>)
    ensures |r| == |s| + 1
    ensures multiset(r) == multiset(s) + multiset{x}
  {
    if s == [] then [x]
    else if le(x, s[0]) then [x] + s
    else
      assert s == [s[0]] + s[1..];
      [s[0]] + Insert(x, s[1..], le)
  }

  function SortBy<T>(s: seq<T>, le: (T, T) -> bool): (r: seq<T>)
    ensures |r| == |s|
    ensures multiset(r) == multiset(s)
  {
    if s == [] then []
    else
      assert s == [s[0]] + s[1..];
      Insert(s[0], SortBy(s[1..], le), le)
  }

  lemma InsertMember<T>(x: T, s: seq<T>, le: (T, T) -> bool, y: T)
    requires y in Insert(x, s, le)
    ensures y == x || y in s
  {
    assert y in multiset(Insert(x, s, le));
    assert y in multiset(s) + multiset{x};
  }

  // An element that is not above any other comes first in an ordered sequence.
  lemma SortedFront<T>(x: T, s: seq<T>, le: (T, T) -> bool)
    requires SortedBy(s, le) && forall k :: 0 <= k < |s| ==> le(x, s[k])
    ensures SortedBy([x] + s, le)
  {
  }

  lemma {:induction false} InsertSorted<T(!new)>(x: T, s: seq<T>, le: (T, T) -> bool)
    requires TotalPreorder(le) && SortedBy(s, le)
    ensures SortedBy(Insert(x, s, le), le)
  {
    if s != [] {
      if le(x, s[0]) {
        forall k | 0 <= k < |s| ensures le(x, s[k]) {
          assert k == 0 || le(s[0], s[k]);
        }
        SortedFront(x, s, le);
      } else {
        var r := Insert(x, s[1..], le);
        InsertSorted(x, s[1..], le);
        forall k | 0 <= k < |r| ensures le(s[0], r[k]) {
          InsertMember(x, s[1..], le, r[k]);
        }
        SortedFront(s[0], r, le);
      }
    }
  }

  lemma {:induction false} SortBySorted<T(!new)>(s: seq<T>, le: (T, T) -> bool)
    requires TotalPreorder(le)
    ensures SortedBy(SortBy(s, le), le)
  {
    if s != [] {
      SortBySorted(s[1..], le);
      InsertSorted(s[0], SortBy(s[1..], le), le);
    }
  }

  lemma SortByMember<T>(s: seq<T>, le: (T, T) -> bool, x: T)
    ensures x in SortBy(s, le) <==> x in s
  {
    assert x in multiset(SortBy(s, le)) <==> x in multiset(s);
  }

  // Strings in dictionary order of their characters, standing for the default comparison of Array.prototype.sort.
  predicate StringLe(a: string, b: string) {
    if a == [] then true
    else if b == [] then false
    else if a[0] == b[0] then StringLe(a[1..], b[1..])
    else a[0] < b[0]
  }

  // At the first character in which they differ, a has the smaller one.
  ghost predicate DiffersBelow(a: string, b: string) {
    exists k: nat :: SmallerAt(a, b, k)
  }

  ghost predicate SmallerAt(a: string, b: string, k: nat) {
    k < |a| && k < |b| && a[..k] == b[..k] && a[k] < b[k]
  }

  lemma SmallerBehind(a: string, b: string, k: nat)
    requires a != [] && b != [] && a[0] == b[0]
    ensures SmallerAt(a, b, k + 1) <==> SmallerAt(a[1..], b[1..], k)
  {
    if k < |a| - 1 && k < |b| - 1 {
      assert a[..k + 1] == [a[0]] + a[1..][..k] && b[..k + 1] == [b[0]] + b[1..][..k];
      assert a[..k + 1][1..] == a[1..][..k] && b[..k + 1][1..] == b[1..][..k];
    }
  }

  lemma DiffersBehind(a: string, b: string)
    requires a != [] && b != [] && a[0] == b[0]
    ensures DiffersBelow(a, b) <==> DiffersBelow(a[1..], b[1..])
  {
    if k: nat :| SmallerAt(a, b, k) {
      assert k > 0;
      SmallerBehind(a, b, k - 1);
    }
    if k: nat :| SmallerAt(a[1..], b[1..], k) {
      SmallerBehind(a, b, k);
    }
  }

  lemma PrefixBehind(a: string, b: string)
    requires a != [] && b != [] && a[0] == b[0]
    ensures a <= b <==> a[1..] <= b[1..]
  {
    assert a == [a[0]] + a[1..] && b == [b[0]] + b[1..];
  }

  // One is a prefix of the other, or the characters at the first difference decide.
  lemma {:induction false} StringLeMeaning(a: string, b: string)
    ensures StringLe(a, b) <==> a <= b || DiffersBelow(a, b)
    decreases |a|
  {
    if a != [] && b != [] {
      if a[0] == b[0] {
        StringLeMeaning(a[1..], b[1..]);
        DiffersBehind(a, b);
        PrefixBehind(a, b);
      } else {
        assert SmallerAt(a, b, 0) <==> a[0] < b[0];
        assert forall k: nat :: SmallerAt(a, b, k) ==> k == 0 || a[..k][0] == b[..k][0];
      }
    }
  }

  lemma {:induction false} StringLeTotal(a: string, b: string)
    ensures StringLe(a, b) || StringLe(b, a)
    ensures StringLe(a, b) && StringLe(b, a) ==> a == b
  {
    if a != [] && b != [] && a[0] == b[0] {
      StringLeTotal(a[1..], b[1..]);
      assert a == [a[0]] + a[1..] && b == [b[0]] + b[1..];
    }
  }

  lemma {:induction false} StringLeTransitive(a: string, b: string, c: string)
    requires StringLe(a, b) && StringLe(b, c)
    ensures StringLe(a, c)
  {
    if a != [] && a[0] == b[0] == c[0] {
      StringLeTransitive(a[1..], b[1..], c[1..]);
    }
  }

  lemma StringLePreorder()
    ensures TotalPreorder(StringLe)
  {
    forall x, y ensures StringLe(x, y) || StringLe(y, x) {
      StringLeTotal(x, y);
    }
    forall x, y, z | StringLe(x, y) && StringLe(y, z) ensures StringLe(x, z) {
      StringLeTransitive(x, y, z);
    }
  }

  function SortStrings(s: seq<string>): (r: seq<string>)
    ensures multiset(r) == multiset(s)
    ensures |r| == |s|
  {
    SortBy(s, StringLe)
  }

  lemma SortStringsSorted(s: seq<string>)
    ensures SortedBy(SortStrings(s), StringLe)
  {
    StringLePreorder();
    SortBySorted(s, StringLe);
  }

  lemma {:induction false} DistinctCounts<T>(s: seq<T>, x: T)
    requires NoDup(s)
    ensures multiset(s)[x] <= 1
  {
    if s != [] {
      assert s == [s[0]] + s[1..];
      DistinctCounts(s[1..], x);
      if s[0] == x {
        assert x !in s[1..];
        assert x !in multiset(s[1..]);
      }
    }
  }

  // Being free of duplicates depends only on the multiset of elements.
  lemma PermutationDistinct<T>(s: seq<T>, t: seq<T>)
    requires NoDup(s) && multiset(s) == multiset(t)
    ensures NoDup(t)
  {
    forall i, j | 0 <= i < j < |t| ensures t[i] != t[j] {
      DistinctCounts(s, t[i]);
      CountedTwice(t, i, j);
    }
  }

  lemma CountedTwice<T>(t: seq<T>, i: nat, j: nat)
    requires i < j < |t|
    ensures t[i] == t[j] ==> multiset(t)[t[i]] >= 2
  {
    assert t == t[..j] + [t[j]] + t[j + 1..];
    assert t[..j][i] == t[i];
  }

  // ---- Stability ----

  lemma {:induction false} InsertAt<T>(x: T, s: seq<T>, le: (T, T) -> bool) returns (p: nat)
    ensures p <= |s| && Insert(x, s, le) == s[..p] + [x] + s[p..]
    ensures forall i :: 0 <= i < p ==> !le(x, s[i])
  {
    if s == [] || le(x, s[0]) {
      p := 0;
      assert s[..0] + [x] + s[0..] == [x] + s;
    } else {
      var q := InsertAt(x, s[1..], le);
      p := q + 1;
      ConsInsert(x, s, q);
    }
  }

  lemma ConsInsert<T>(x: T, s: seq<T>, q: nat)
    requires s != [] && q <= |s| - 1
    ensures [s[0]] + (s[1..][..q] + [x] + s[1..][q..]) == s[..q + 1] + [x] + s[q + 1..]
  {
    assert s == [s[0]] + s[1..];
    assert s[..q + 1] == [s[0]] + s[1..][..q] && s[q + 1..] == s[1..][q..];
  }

  // The positions in the input of the elements of the output; equal elements keep their order.
  ghost predicate Keeps<T>(s: seq<T>, r: seq<T>, order: seq<nat>, i: nat) {
    i < |order| && i < |r| && order[i] < |s| && r[i] == s[order[i]]
  }

  ghost predicate InPlace<T>(r: seq<T>, le: (T, T) -> bool, order: seq<nat>, i: nat, j: nat) {
    i < |order| && j < |order| && i < |r| && j < |r|
    && order[i] != order[j] && (le(r[j], r[i]) ==> order[i] < order[j])
  }

  ghost predicate StableOrder<T>(s: seq<T>, r: seq<T>, le: (T, T) -> bool, order: seq<nat>) {
    && |order| == |s| == |r|
    && (forall i: nat :: i < |s| ==> Keeps(s, r, order, i))
    && forall i: nat, j: nat :: i < j < |s| ==> InPlace(r, le, order, i, j)
  }

  function Shifted(order: seq<nat>): (r: seq<nat>)
    ensures |r| == |order| && forall i :: 0 <= i < |r| ==> r[i] == order[i] + 1
  {
    if order == [] then [] else [order[0] + 1] + Shifted(order[1..])
  }

  lemma {:induction false} SortByStable<T>(s: seq<T>, le: (T, T) -> bool) returns (order: seq<nat>)
    ensures StableOrder(s, SortBy(s, le), le, order)
  {
    if s == [] {
      order := [];
    } else {
      var rest := SortByStable(s[1..], le);
      var r := SortBy(s[1..], le);
      var p := InsertAt(s[0], r, le);
      order := Shifted(rest)[..p] + [0] + Shifted(rest)[p..];
      InsertStable(s, r, le, rest, p, r[..p] + [s[0]] + r[p..], order);
    }
  }

  lemma InsertedAt<T>(r: seq<T>, p: nat, x: T, i: nat)
    requires p <= |r| && i <= |r|
    ensures |r[..p] + [x] + r[p..]| == |r| + 1
    ensures (r[..p] + [x] + r[p..])[i] == if i < p then r[i] else if i == p then x else r[i - 1]
  {
  }

  ghost predicate Inserted<T>(s: seq<T>, r: seq<T>, le: (T, T) -> bool, rest: seq<nat>, p: nat, t: seq<T>, order: seq<nat>) {
    && s != [] && StableOrder(s[1..], r, le, rest) && p <= |r| && t == r[..p] + [s[0]] + r[p..]
    && (forall i :: 0 <= i < p ==> !le(s[0], r[i]))
    && order == Shifted(rest)[..p] + [0] + Shifted(rest)[p..]
  }

  lemma InsertPlace<T>(s: seq<T>, r: seq<T>, le: (T, T) -> bool, rest: seq<nat>, p: nat, t: seq<T>, order: seq<nat>, i: nat)
    requires Inserted(s, r, le, rest, p, t, order) && i < |s|
    ensures |order| == |t| == |s|
    ensures if i == p then order[i] == 0 && t[i] == s[0]
            else var k := if i < p then i else i - 1; order[i] == rest[k] + 1 && t[i] == r[k]
  {
    InsertedAt(r, p, s[0], i);
    InsertedAt(Shifted(rest), p, 0, i);
  }

  lemma InsertKeeps<T>(s: seq<T>, r: seq<T>, le: (T, T) -> bool, rest: seq<nat>, p: nat, t: seq<T>, order: seq<nat>, i: nat)
    requires Inserted(s, r, le, rest, p, t, order) && i < |s|
    ensures Keeps(s, t, order, i)
  {
    InsertPlace(s, r, le, rest, p, t, order, i);
    if i != p {
      assert Keeps(s[1..], r, rest, if i < p then i else i - 1);
    }
  }

  lemma InsertPair<T>(s: seq<T>, r: seq<T>, le: (T, T) -> bool, rest: seq<nat>, p: nat, t: seq<T>, order: seq<nat>,
                      i: nat, j: nat)
    requires Inserted(s, r, le, rest, p, t, order) && i < j < |s|
    ensures InPlace(t, le, order, i, j)
  {
    InsertPlace(s, r, le, rest, p, t, order, i);
    InsertPlace(s, r, le, rest, p, t, order, j);
    if i != p && j != p {
      assert InPlace(r, le, rest, if i < p then i else i - 1, if j < p then j else j - 1);
    }
  }

  lemma InsertStable<T>(s: seq<T>, r: seq<T>, le: (T, T) -> bool, rest: seq<nat>, p: nat, t: seq<T>, order: seq<nat>)
    requires Inserted(s, r, le, rest, p, t, order)
    ensures StableOrder(s, t, le, order)
  {
    InsertPlace(s, r, le, rest, p, t, order, 0);
    forall i: nat | i < |s| ensures Keeps(s, t, order, i) {
      InsertKeeps(s, r, le, rest, p, t, order, i);
    }
    forall i: nat, j: nat | i < j < |s| ensures InPlace(t, le, order, i, j) {
      InsertPair(s, r, le, rest, p, t, order, i, j);
    }
  }
}
