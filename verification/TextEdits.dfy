// The codemod's text edits: collecting disjoint ranges from the syntax tree, naming imports, and
// applying the edits back to front.
module TextEdits {
  import opened Sorting

  datatype TextEdit = TextEdit(start: nat, end: nat, text: string)

  // ---- Applying edits ----

  // slice(0, n) and slice(n), which clamp at the end of the string.
  function Take(s: string, n: nat): string {
    if n <= |s| then s[..n] else s
  }

  function Drop(s: string, n: nat): string {
    if n <= |s| then s[n..] else ""
  }

  function ApplyOne(s: string, e: TextEdit): string {
    Take(s, e.start) + e.text + Drop(s, e.end)
  }

  function Reduce(s: string, edits: seq<TextEdit>): string
    decreases |edits|
  {
    if edits == [] then s else Reduce(ApplyOne(s, edits[0]), edits[1..])
  }

  predicate LaterFirst(a: TextEdit, b: TextEdit) {
    b.start <= a.start
  }

  function ApplyTextEdits(text: string, edits: seq<TextEdit>): string {
    if edits == [] then text else Reduce(text, SortBy(edits, LaterFirst))
  }

  function Slice(s: string, from: nat, to: nat): string {
    if from <= to <= |s| then s[from..to] else ""
  }

  // Replacing all ranges of the original text at once: copy up to the next range, put its text,
  // go on behind it.
  function Substitute(text: string, pos: nat, ascending: seq<TextEdit>): string
    decreases |ascending|
  {
    if ascending == [] then Drop(text, pos)
    else
      var e := ascending[0];
      Slice(text, pos, e.start) + e.text + Substitute(text, e.end, ascending[1..])
  }

  predicate Bounded(text: string, edits: seq<TextEdit>) {
    forall i :: 0 <= i < |edits| ==> edits[i].start <= edits[i].end <= |text|
  }

  // Each edit starts behind the end of the one before.
  predicate Ascending(edits: seq<TextEdit>) {
    && (forall i :: 0 <= i < |edits| ==> edits[i].start <= edits[i].end)
    && forall i, j :: 0 <= i < j < |edits| ==> edits[i].end <= edits[j].start
  }

  predicate Descending(edits: seq<TextEdit>) {
    && (forall i :: 0 <= i < |edits| ==> edits[i].start <= edits[i].end)
    && forall i, j :: 0 <= i < j < |edits| ==> edits[j].end <= edits[i].start
  }

  // Ranges that do not overlap. Two ranges may start together when the later one in the list is
  // empty: it is then applied last, in front of the other.
  predicate Separate(edits: seq<TextEdit>) {
    && (forall i :: 0 <= i < |edits| ==> edits[i].start <= edits[i].end)
    && forall i, j :: 0 <= i < j < |edits| ==>
         || edits[j].end <= edits[i].start
         || (edits[i].end <= edits[j].start && edits[i].start < edits[j].start)
  }

  predicate StartsDiffer(edits: seq<TextEdit>) {
    forall i, j :: 0 <= i < j < |edits| ==> edits[i].start != edits[j].start
  }

  function Reverse(edits: seq<TextEdit>): seq<TextEdit> {
    if edits == [] then [] else Reverse(edits[1..]) + [edits[0]]
  }

  lemma {:induction false} ReverseAt(edits: seq<TextEdit>, i: nat)
    requires i < |edits|
    ensures |Reverse(edits)| == |edits| && Reverse(edits)[i] == edits[|edits| - 1 - i]
  {
    if |edits| > 1 {
      ReverseAt(edits[1..], if i < |edits| - 1 then i else 0);
    }
  }

  lemma ReverseAscends(edits: seq<TextEdit>)
    requires Descending(edits)
    ensures Ascending(Reverse(edits)) && |Reverse(edits)| == |edits|
    ensures forall i :: 0 <= i < |edits| ==> Reverse(edits)[i] == edits[|edits| - 1 - i]
  {
    assert edits == [] ==> Reverse(edits) == [];
    forall i | 0 <= i < |edits| ensures |Reverse(edits)| == |edits| && Reverse(edits)[i] == edits[|edits| - 1 - i] {
      ReverseAt(edits, i);
    }
  }

  // Text behind every edit is carried along unchanged.
  lemma {:induction false} ReduceSuffix(a: string, b: string, edits: seq<TextEdit>)
    requires Descending(edits) && Bounded(a, edits)
    ensures Reduce(a + b, edits) == Reduce(a, edits) + b
    decreases |edits|
  {
    if edits != [] {
      var e := edits[0];
      assert Take(a + b, e.start) == Take(a, e.start);
      assert Drop(a + b, e.end) == Drop(a, e.end) + b;
      assert ApplyOne(a + b, e) == ApplyOne(a, e) + b;
      ReduceSuffix(ApplyOne(a, e), b, edits[1..]);
    }
  }

  lemma FrontFits(front: seq<TextEdit>, e: TextEdit)
    requires Ascending(front + [e])
    ensures e.start <= e.end && Ascending(front) && forall i :: 0 <= i < |front| ==> front[i].end <= e.start
    ensures front != [] ==> Ascending(front[1..] + [e])
  {
    var all := front + [e];
    assert all[|front|] == e;
    assert forall i :: 0 <= i < |front| ==> all[i] == front[i];
    if front != [] {
      assert all[1..] == front[1..] + [e];
    }
  }

  lemma SliceWithin(text: string, limit: nat, from: nat, to: nat)
    requires from <= to <= limit <= |text|
    ensures Slice(text, from, to) == Slice(text[..limit], from, to)
  {
  }

  lemma SecondStart(front: seq<TextEdit>, e: TextEdit)
    requires Ascending(front + [e]) && front != []
    ensures (front[1..] + [e])[0].start >= front[0].end
  {
    assert (front + [e])[1].start >= (front + [e])[0].end;
  }

  // The last range of a substitution can be split off.
  lemma {:induction false} SubstituteLast(text: string, pos: nat, front: seq<TextEdit>, e: TextEdit)
    requires Ascending(front + [e]) && e.end <= |text| && pos <= (front + [e])[0].start
    ensures pos <= e.start <= |text|
    ensures Substitute(text, pos, front + [e]) == Substitute(text[..e.start], pos, front) + e.text + Drop(text, e.end)
    decreases |front|
  {
    FrontFits(front, e);
    if front == [] {
      assert front + [e] == [e] && [e][1..] == [];
      assert Slice(text, pos, e.start) == Drop(text[..e.start], pos);
    } else {
      var f := front[0];
      assert (front + [e])[0] == f && (front + [e])[1..] == front[1..] + [e];
      SecondStart(front, e);
      SubstituteLast(text, f.end, front[1..], e);
      SliceWithin(text, e.start, pos, f.start);
      FourParts(Slice(text, pos, f.start) + f.text, Substitute(text[..e.start], f.end, front[1..]), e.text, Drop(text, e.end));
    }
  }

  lemma FourParts(a: string, b: string, c: string, d: string)
    ensures a + (b + c + d) == (a + b) + c + d
  {
  }

  lemma ReduceStep(text: string, e: TextEdit, rest: seq<TextEdit>)
    requires Descending([e] + rest) && Bounded(text, [e] + rest)
    ensures e.start <= e.end <= |text| && Descending(rest) && Bounded(text[..e.start], rest)
    ensures Reduce(text, [e] + rest) == Reduce(text[..e.start], rest) + e.text + text[e.end..]
  {
    var edits := [e] + rest;
    assert edits[0] == e && edits[1..] == rest;
    assert forall i :: 0 <= i < |rest| ==> edits[i + 1] == rest[i];
    var a, b := text[..e.start], e.text + text[e.end..];
    assert ApplyOne(text, e) == a + b;
    ReduceSuffix(a, b, rest);
    assert Reduce(a, rest) + b == Reduce(a, rest) + e.text + text[e.end..];
  }

  // Applying descending edits one after the other is substituting them all at once.
  lemma {:induction false} ReduceIsSubstitute(text: string, edits: seq<TextEdit>)
    requires Descending(edits) && Bounded(text, edits)
    ensures Reduce(text, edits) == Substitute(text, 0, Reverse(edits))
    decreases |edits|
  {
    if edits == [] {
      assert text[0..] == text;
    } else {
      var e, rest := edits[0], edits[1..];
      assert edits == [e] + rest;
      ReduceStep(text, e, rest);
      ReduceIsSubstitute(text[..e.start], rest);
      ReverseAscends(edits);
      SubstituteLast(text, 0, Reverse(rest), e);
    }
  }

  // The sort is stable, so of two edits with one start the later one in the list stays behind.
  lemma SortedIsDescending(edits: seq<TextEdit>)
    requires Separate(edits)
    ensures Descending(SortBy(edits, LaterFirst))
    ensures forall e :: e in SortBy(edits, LaterFirst) <==> e in edits
  {
    var s := SortBy(edits, LaterFirst);
    SortBySorted(edits, LaterFirst);
    var order := SortByStable(edits, LaterFirst);
    forall e ensures e in s <==> e in edits {
      SortByMember(edits, LaterFirst, e);
    }
    forall i, j | 0 <= i < j < |s| ensures s[j].end <= s[i].start {
      PairDescends(edits, s, order, i, j);
    }
    forall i | 0 <= i < |s| ensures s[i].start <= s[i].end {
      assert s[i] in edits;
    }
  }

  lemma PairDescends(edits: seq<TextEdit>, s: seq<TextEdit>, order: seq<nat>, i: nat, j: nat)
    requires Separate(edits) && StableOrder(edits, s, LaterFirst, order)
    requires i < j < |s| && LaterFirst(s[i], s[j])
    ensures s[j].end <= s[i].start
  {
    var k, l := order[i], order[j];
    assert Keeps(edits, s, order, i) && Keeps(edits, s, order, j) && InPlace(s, LaterFirst, order, i, j);
    assert LaterFirst(s[j], s[i]) <==> edits[k].start <= edits[l].start;
  }

  predicate StartsDescend(s: seq<TextEdit>) {
    forall i, j :: 0 <= i < j < |s| ==> s[j].start < s[i].start
  }

  // Two strictly descending sequences with the same members are the same.
  lemma {:induction false} DescendingUnique(s: seq<TextEdit>, t: seq<TextEdit>)
    requires StartsDescend(s) && StartsDescend(t)
    requires forall e :: e in s <==> e in t
    ensures s == t
    decreases |s|
  {
    assert |t| > 0 ==> t[0] in t;
    if s != [] {
      assert s[0] in s && s[0] in t && t[0] in t && t[0] in s;
      assert s[0] == t[0];
      assert s == [s[0]] + s[1..] && t == [t[0]] + t[1..];
      forall e ensures e in s[1..] <==> e in t[1..] {
        if e in s[1..] {
          assert e in s && e.start < s[0].start;
        }
        if e in t[1..] {
          assert e in t && e.start < t[0].start;
        }
      }
      DescendingUnique(s[1..], t[1..]);
    }
  }

  lemma SortedStartsDiffer(edits: seq<TextEdit>)
    requires StartsDiffer(edits)
    ensures StartsDescend(SortBy(edits, LaterFirst))
  {
    var s := SortBy(edits, LaterFirst);
    SortBySorted(edits, LaterFirst);
    var order := SortByStable(edits, LaterFirst);
    forall i, j | 0 <= i < j < |s| ensures s[j].start < s[i].start {
      assert LaterFirst(s[i], s[j]) && InPlace(s, LaterFirst, order, i, j);
      assert Keeps(edits, s, order, i) && Keeps(edits, s, order, j);
    }
  }

  lemma {:induction false} ReverseMembers(edits: seq<TextEdit>)
    ensures forall e :: e in Reverse(edits) <==> e in edits
  {
    if edits != [] {
      ReverseMembers(edits[1..]);
      assert edits == [edits[0]] + edits[1..];
    }
  }

  lemma SortedIsBounded(text: string, edits: seq<TextEdit>)
    requires Bounded(text, edits)
    ensures Bounded(text, SortBy(edits, LaterFirst))
  {
    var s := SortBy(edits, LaterFirst);
    forall i | 0 <= i < |s| ensures s[i].start <= s[i].end <= |text| {
      SortByMember(edits, LaterFirst, s[i]);
    }
  }

  // For separate ranges the back-to-front application is the simultaneous substitution.
  lemma AppliesAllAtOnce(text: string, edits: seq<TextEdit>) returns (ascending: seq<TextEdit>)
    requires Separate(edits) && Bounded(text, edits)
    ensures Ascending(ascending) && Bounded(text, ascending) && forall e :: e in ascending <==> e in edits
    ensures ApplyTextEdits(text, edits) == Substitute(text, 0, ascending)
  {
    var s := SortBy(edits, LaterFirst);
    SortedIsDescending(edits);
    SortedIsBounded(text, edits);
    ReduceIsSubstitute(text, s);
    ascending := Reverse(s);
    ReverseAscends(s);
    ReverseMembers(s);
    if edits == [] {
      assert text[0..] == text;
    }
  }

  // With different starts, the order in which the edits were collected does not matter.
  lemma OrderDoesNotMatter(text: string, edits: seq<TextEdit>, others: seq<TextEdit>)
    requires Separate(edits) && Separate(others) && StartsDiffer(edits) && StartsDiffer(others)
    requires forall e :: e in edits <==> e in others
    ensures ApplyTextEdits(text, edits) == ApplyTextEdits(text, others)
  {
    SortedIsDescending(edits);
    SortedIsDescending(others);
    SortedStartsDiffer(edits);
    SortedStartsDiffer(others);
    var s, t := SortBy(edits, LaterFirst), SortBy(others, LaterFirst);
    forall e ensures e in s <==> e in t {
      assert (e in s <==> e in edits) && (e in t <==> e in others);
    }
    DescendingUnique(s, t);
    assert |s| == |t|;
  }

  // ---- Where the edits land ----

  // By how much the edits make the text longer.
  function Growth(edits: seq<TextEdit>): int {
    if edits == [] then 0 else |edits[0].text| - (edits[0].end - edits[0].start) + Growth(edits[1..])
  }

  // Where the kept stretch before edit k begins, and where it ends.
  function StretchStart(edits: seq<TextEdit>, pos: nat, k: nat): nat
    requires k <= |edits|
  {
    if k == 0 then pos else edits[k - 1].end
  }

  function StretchEnd(text: string, edits: seq<TextEdit>, k: nat): nat
    requires k <= |edits|
  {
    if k == |edits| then |text| else edits[k].start
  }

  predicate From(text: string, pos: nat, edits: seq<TextEdit>) {
    Ascending(edits) && Bounded(text, edits) && pos <= |text| && (edits != [] ==> pos <= edits[0].start)
  }

  lemma GrowthTail(edits: seq<TextEdit>, k: nat)
    requires 0 < k <= |edits|
    ensures Growth(edits[..k]) == |edits[0].text| - (edits[0].end - edits[0].start) + Growth(edits[1..][..k - 1])
  {
    assert edits[..k][1..] == edits[1..][..k - 1];
  }

  lemma {:induction false} SubstituteSize(text: string, pos: nat, edits: seq<TextEdit>)
    requires From(text, pos, edits)
    ensures |Substitute(text, pos, edits)| == |text| - pos + Growth(edits)
    decreases |edits|
  {
    if edits != [] {
      SubstituteSize(text, edits[0].end, edits[1..]);
    }
  }

  // The piece stands in the text at this place.
  predicate Holds(text: string, at: int, piece: string) {
    0 <= at <= at + |piece| <= |text| && text[at..at + |piece|] == piece
  }

  lemma HoldsBehind(a: string, b: string, c: string, at: int, piece: string)
    requires Holds(c, at, piece)
    ensures Holds(a + b + c, |a| + |b| + at, piece)
  {
    assert (a + b + c)[|a| + |b| + at..|a| + |b| + at + |piece|] == c[at..at + |piece|];
  }

  lemma HoldsBefore(a: string, b: string, c: string)
    ensures Holds(a + b + c, 0, a) && Holds(a + b + c, |a|, b)
  {
    assert (a + b + c)[0..|a|] == a && (a + b + c)[|a|..|a| + |b|] == b;
  }

  lemma FromTail(text: string, pos: nat, edits: seq<TextEdit>)
    requires From(text, pos, edits) && edits != []
    ensures From(text, edits[0].end, edits[1..]) && pos <= edits[0].start <= edits[0].end <= |text|
    ensures Slice(text, pos, edits[0].start) == text[pos..edits[0].start]
  {
  }

  lemma SubstituteFirst(text: string, pos: nat, edits: seq<TextEdit>)
    requires From(text, pos, edits) && edits != []
    ensures Substitute(text, pos, edits)
         == text[pos..edits[0].start] + edits[0].text + Substitute(text, edits[0].end, edits[1..])
  {
    hide Substitute;
    FromTail(text, pos, edits);
    SubstituteParts(text, pos, edits);
  }

  lemma SubstituteParts(text: string, pos: nat, edits: seq<TextEdit>)
    requires edits != []
    ensures Substitute(text, pos, edits)
         == Slice(text, pos, edits[0].start) + edits[0].text + Substitute(text, edits[0].end, edits[1..])
  {
  }

  // What holds behind the first edit holds in the whole, moved by that edit.
  lemma HoldsLater(text: string, pos: nat, edits: seq<TextEdit>, k: nat, from: int, piece: string)
    requires From(text, pos, edits) && 0 < k <= |edits|
    requires Holds(Substitute(text, edits[0].end, edits[1..]), from - edits[0].end + Growth(edits[1..][..k - 1]), piece)
    ensures Holds(Substitute(text, pos, edits), from - pos + Growth(edits[..k]), piece)
  {
    FromTail(text, pos, edits);
    GrowthTail(edits, k);
    SubstituteFirst(text, pos, edits);
    hide Holds, From, Growth, Substitute;
    HoldsBehind(text[pos..edits[0].start], edits[0].text, Substitute(text, edits[0].end, edits[1..]),
                from - edits[0].end + Growth(edits[1..][..k - 1]), piece);
  }

  // The text of edit k stands where the edit starts, moved by what the edits before it added or took.
  ghost predicate Lands(text: string, pos: nat, edits: seq<TextEdit>, k: nat)
    requires k < |edits|
  {
    Holds(Substitute(text, pos, edits), edits[k].start - pos + Growth(edits[..k]), edits[k].text)
  }

  lemma FirstLands(text: string, pos: nat, edits: seq<TextEdit>)
    requires From(text, pos, edits) && edits != []
    ensures Lands(text, pos, edits, 0)
  {
    FromTail(text, pos, edits);
    SubstituteFirst(text, pos, edits);
    hide Holds, From, Substitute;
    assert edits[..0] == [];
    HoldsBefore(text[pos..edits[0].start], edits[0].text, Substitute(text, edits[0].end, edits[1..]));
  }

  lemma LaterLands(text: string, pos: nat, edits: seq<TextEdit>, k: nat)
    requires From(text, pos, edits) && 0 < k < |edits| && Lands(text, edits[0].end, edits[1..], k - 1)
    ensures Lands(text, pos, edits, k)
  {
    hide Holds, From, Substitute, Growth;
    assert edits[1..][k - 1] == edits[k];
    HoldsLater(text, pos, edits, k, edits[k].start, edits[k].text);
  }

  lemma {:induction false} EditLands(text: string, pos: nat, edits: seq<TextEdit>, k: nat)
    requires From(text, pos, edits) && k < |edits|
    ensures Lands(text, pos, edits, k)
    decreases |edits|
  {
    FromTail(text, pos, edits);
    hide Lands, From;
    if k == 0 {
      FirstLands(text, pos, edits);
    } else {
      EditLands(text, edits[0].end, edits[1..], k - 1);
      LaterLands(text, pos, edits, k);
    }
  }

  // The kept stretch before edit k stands where it did, moved by the same amount.
  ghost predicate Stays(text: string, pos: nat, edits: seq<TextEdit>, k: nat)
    requires k <= |edits|
  {
    StaysFrom(text, pos, edits, k, StretchStart(edits, pos, k), StretchEnd(text, edits, k))
  }

  ghost predicate StaysFrom(text: string, pos: nat, edits: seq<TextEdit>, k: nat, from: nat, to: nat)
    requires k <= |edits|
  {
    from <= to <= |text| && Holds(Substitute(text, pos, edits), from - pos + Growth(edits[..k]), text[from..to])
  }

  lemma HoldsItself(text: string)
    ensures Holds(text, 0, text)
  {
  }

  lemma AllStays(text: string, pos: nat)
    requires pos <= |text|
    ensures Stays(text, pos, [], 0)
  {
    var none: seq<TextEdit> := [];
    assert none[..0] == none && Growth(none) == 0;
    assert Substitute(text, pos, none) == text[pos..];
    assert text[pos..|text|] == text[pos..];
    hide Holds, Substitute, Growth;
    HoldsItself(text[pos..]);
  }

  lemma FirstStays(text: string, pos: nat, edits: seq<TextEdit>)
    requires From(text, pos, edits) && edits != []
    ensures Stays(text, pos, edits, 0)
  {
    FromTail(text, pos, edits);
    SubstituteFirst(text, pos, edits);
    hide Holds, From, Substitute;
    assert edits[..0] == [];
    HoldsBefore(text[pos..edits[0].start], edits[0].text, Substitute(text, edits[0].end, edits[1..]));
  }

  lemma EndsOfTail(text: string, pos: nat, edits: seq<TextEdit>, k: nat)
    requires edits != [] && 0 < k <= |edits|
    ensures StretchStart(edits, pos, k) == StretchStart(edits[1..], edits[0].end, k - 1)
    ensures StretchEnd(text, edits, k) == StretchEnd(text, edits[1..], k - 1)
  {
  }

  lemma LaterStays(text: string, pos: nat, edits: seq<TextEdit>, k: nat)
    requires From(text, pos, edits) && 0 < k <= |edits| && Stays(text, edits[0].end, edits[1..], k - 1)
    ensures Stays(text, pos, edits, k)
  {
    EndsOfTail(text, pos, edits, k);
    hide StaysFrom, From, StretchStart, StretchEnd;
    LaterStaysFrom(text, pos, edits, k, StretchStart(edits, pos, k), StretchEnd(text, edits, k));
  }

  lemma LaterStaysFrom(text: string, pos: nat, edits: seq<TextEdit>, k: nat, from: nat, to: nat)
    requires From(text, pos, edits) && 0 < k <= |edits| && StaysFrom(text, edits[0].end, edits[1..], k - 1, from, to)
    ensures StaysFrom(text, pos, edits, k, from, to)
  {
    hide Holds, From, Growth, Substitute;
    HoldsLater(text, pos, edits, k, from, text[from..to]);
  }

  // What lies between the edits is kept.
  lemma {:induction false} StretchStays(text: string, pos: nat, edits: seq<TextEdit>, k: nat)
    requires From(text, pos, edits) && k <= |edits|
    ensures Stays(text, pos, edits, k)
    decreases |edits|
  {
    hide Stays;
    if edits == [] {
      AllStays(text, pos);
    } else if k == 0 {
      FirstStays(text, pos, edits);
    } else {
      FromTail(text, pos, edits);
      StretchStays(text, edits[0].end, edits[1..], k - 1);
      LaterStays(text, pos, edits, k);
    }
  }
}
