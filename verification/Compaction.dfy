// The keyset-pagination loop shared by compactSessionMessageRows and compactAcpSessionHistoryRows.
// The filter may read the payload the loop rewrites; parsing and compacting are given functions.
module Compaction {
  import opened Wrappers
  import opened Seqs

  datatype Row = Row(id: string, eventType: string, payload: string)
  type Rows = map<int, Row>

  datatype Stats = Stats(scanned: nat, changed: nat, skippedInvalidJson: nat, beforeBytes: nat, afterBytes: nat)

  // The filter of the query, the compaction (None for invalid JSON), and the size of a text in bytes.
  datatype Task = Task(matches: Row -> bool, compact: string -> Option<string>, size: string -> nat)

  // ---- Ordered visits ----

  lemma Pick<T>(s: set<T>) returns (x: T)
    requires s != {}
    ensures x in s
  {
    x :| x in s;
  }

  lemma {:induction false} HasMin(ids: set<int>) returns (m: int)
    requires ids != {}
    ensures m in ids && forall y :: y in ids ==> m <= y
    decreases |ids|
  {
    var x := Pick(ids);
    assert ids == {x} + (ids - {x});
    if ids - {x} == {} {
      m := x;
    } else {
      var n := HasMin(ids - {x});
      m := if x < n then x else n;
    }
  }

  function Least(ids: set<int>): (m: int)
    requires ids != {}
    ensures m in ids && forall y :: y in ids ==> m <= y
  {
    assert exists m :: m in ids && forall y :: y in ids ==> m <= y by { var m := HasMin(ids); }
    var x :| x in ids && forall y :: y in ids ==> x <= y;
    x
  }

  lemma LeastFirst(ids: set<int>, m: int, rest: seq<int>)
    requires m in ids && (forall y :: y in ids ==> m <= y)
    requires Increasing(rest) && forall x :: x in rest <==> x in ids - {m}
    ensures Increasing([m] + rest) && forall x :: x in [m] + rest <==> x in ids
  {
    forall k | 0 <= k < |rest| ensures m < rest[k] {
      var x := rest[k];
      assert x in rest;
    }
  }

  function Ordered(ids: set<int>): (s: seq<int>)
    ensures forall x :: x in s <==> x in ids
    ensures Increasing(s)
  {
    if ids == {} then []
    else
      var m := Least(ids);
      var rest := Ordered(ids - {m});
      LeastFirst(ids, m, rest);
      [m] + rest
  }

  // Two increasing sequences over the same numbers are the same.
  lemma {:induction false} IncreasingUnique(s: seq<int>, t: seq<int>)
    requires Increasing(s) && Increasing(t)
    requires forall x :: x in s <==> x in t
    ensures s == t
    decreases |s|
  {
    assert |t| > 0 ==> t[0] in t;
    if s != [] {
      assert s[0] in s && s[0] in t;
      assert t[0] in t && t[0] in s;
      assert s[0] == t[0];
      assert s == [s[0]] + s[1..] && t == [t[0]] + t[1..];
      forall x ensures x in s[1..] <==> x in t[1..] {
        if x in s[1..] {
          assert x in s && x != s[0];
        }
        if x in t[1..] {
          assert x in t && x != t[0];
        }
      }
      IncreasingUnique(s[1..], t[1..]);
    }
  }

  // The rows the filter selects above the cursor.
  function Matching(rows: Rows, task: Task, last: int): set<int> {
    set r | r in rows && r > last && task.matches(rows[r])
  }

  // The first of them in rowid order.
  function Page(rows: Rows, task: Task, last: int, limit: nat): seq<int> {
    var all := Ordered(Matching(rows, task, last));
    if |all| <= limit then all else all[..limit]
  }

  // ---- One row ----

  function After(task: Task, payload: string): string {
    match task.compact(payload)
    case Some(json) => json
    case None => payload
  }

  function Accumulate(stats: Stats, task: Task, payload: string): Stats {
    match task.compact(payload)
    case None => stats.(scanned := stats.scanned + 1, skippedInvalidJson := stats.skippedInvalidJson + 1)
    case Some(json) =>
      Stats(stats.scanned + 1, stats.changed + (if json != payload then 1 else 0), stats.skippedInvalidJson,
            stats.beforeBytes + task.size(payload), stats.afterBytes + task.size(json))
  }

  function StatsOf(rows: Rows, task: Task, visited: seq<int>): Stats
    requires forall r :: r in visited ==> r in rows
  {
    if visited == [] then Stats(0, 0, 0, 0, 0)
    else
      var n := |visited| - 1;
      var r := visited[n];
      assert r in visited;
      Accumulate(StatsOf(rows, task, visited[..n]), task, rows[r].payload)
  }

  // Every matching row with a positive rowid up to `upto` compacted, the others as they were.
  function CompactedUpTo(rows: Rows, task: Task, upto: int): Rows {
    map r | r in rows ::
      if 0 < r <= upto && task.matches(rows[r]) then rows[r].(payload := After(task, rows[r].payload)) else rows[r]
  }

  function Compacted(rows: Rows, task: Task): Rows {
    map r | r in rows :: if r > 0 && task.matches(rows[r]) then rows[r].(payload := After(task, rows[r].payload)) else rows[r]
  }

  ghost predicate UniqueIds(rows: Rows) {
    forall r, s :: r in rows && s in rows && rows[r].id == rows[s].id ==> r == s
  }

  // Gives the row of this id a new payload.
  function Update(rows: Rows, id: string, payload: string): Rows {
    map r | r in rows :: if rows[r].id == id then rows[r].(payload := payload) else rows[r]
  }

  class Table {
    var rows: Rows

    constructor (rows: Rows)
      ensures this.rows == rows
    {
      this.rows := rows;
    }

    method Select(task: Task, last: int, limit: nat) returns (page: seq<(int, string, string)>)
      ensures |page| == |Page(rows, task, last, limit)|
      ensures forall i :: 0 <= i < |page| ==>
        var r := Page(rows, task, last, limit)[i];
        r in rows && page[i] == (r, rows[r].id, rows[r].payload)
    {
      var ids := Page(rows, task, last, limit);
      page := [];
      for i := 0 to |ids|
        invariant |page| == i
        invariant forall k :: 0 <= k < i ==> ids[k] in rows && page[k] == (ids[k], rows[ids[k]].id, rows[ids[k]].payload)
      {
        assert ids[i] in Ordered(Matching(rows, task, last));
        page := page + [(ids[i], rows[ids[i]].id, rows[ids[i]].payload)];
      }
    }

    method Flush(pending: seq<(string, string)>)
      modifies this
      ensures rows == UpdateAll(old(rows), pending)
    {
      for i := 0 to |pending|
        invariant rows == UpdateAll(old(rows), pending[..i])
      {
        assert pending[..i + 1][..i] == pending[..i];
        rows := Update(rows, pending[i].0, pending[i].1);
      }
      assert pending[..|pending|] == pending;
    }
  }

  function UpdateAll(rows: Rows, pending: seq<(string, string)>): Rows {
    if pending == [] then rows
    else Update(UpdateAll(rows, pending[..|pending| - 1]), pending[|pending| - 1].0, pending[|pending| - 1].1)
  }

  // ---- The loop ----

  function Progress(rows: Rows, task: Task, apply: bool, upto: int): Rows {
    if apply then CompactedUpTo(rows, task, upto) else rows
  }

  // Rewriting rows at or below the cursor does not change what is still to be visited.
  lemma MatchingStable(rows: Rows, task: Task, apply: bool, last: int)
    ensures Matching(Progress(rows, task, apply, last), task, last) == Matching(rows, task, last)
  {
  }

  // The cursor at position i of the ordered matching rowids above `last`.
  function CursorAt(ids: seq<int>, last: int, i: nat): int
    requires i <= |ids|
  {
    if i == 0 then last else ids[i - 1]
  }

  // No matching row lies between two neighbours of the order.
  lemma NoneBetween(rows: Rows, task: Task, last: int, i: nat, x: int)
    requires i < |Ordered(Matching(rows, task, last))|
    requires x in Matching(rows, task, last)
    ensures var ids := Ordered(Matching(rows, task, last));
            CursorAt(ids, last, i) < x <= ids[i] ==> x == ids[i]
  {
    var ids := Ordered(Matching(rows, task, last));
    var k :| 0 <= k < |ids| && ids[k] == x;
    if k < i {
      assert k == i - 1 || ids[k] < ids[i - 1];
    } else if k > i {
      assert ids[i] < ids[k];
    }
  }

  lemma AboveCursor(rows: Rows, task: Task, last: int, i: nat, x: int)
    requires i <= |Ordered(Matching(rows, task, last))|
    ensures var ids := Ordered(Matching(rows, task, last));
            x in Matching(rows, task, CursorAt(ids, last, i)) ==> x in ids[i..]
  {
    var ids := Ordered(Matching(rows, task, last));
    var cursor := CursorAt(ids, last, i);
    CursorBounds(rows, task, last, i);
    if x in Matching(rows, task, cursor) {
      assert x in Matching(rows, task, last);
      assert x in ids;
      var k :| 0 <= k < |ids| && ids[k] == x;
      assert ids[i..][k - i] == x;
    }
  }

  lemma CursorBounds(rows: Rows, task: Task, last: int, i: nat)
    requires i <= |Ordered(Matching(rows, task, last))|
    ensures var ids := Ordered(Matching(rows, task, last));
            var cursor := CursorAt(ids, last, i);
            cursor >= last && forall k :: 0 <= k < |ids| ==> (ids[k] > cursor <==> k >= i)
  {
    var ids := Ordered(Matching(rows, task, last));
    forall k | 0 <= k < |ids| ensures ids[k] > last {
      var x := ids[k];
      assert x in ids;
    }
  }

  lemma BelowRest(rows: Rows, task: Task, last: int, i: nat, x: int)
    requires i <= |Ordered(Matching(rows, task, last))|
    ensures var ids := Ordered(Matching(rows, task, last));
            x in ids[i..] ==> x in Matching(rows, task, CursorAt(ids, last, i))
  {
    var ids := Ordered(Matching(rows, task, last));
    CursorBounds(rows, task, last, i);
    if x in ids[i..] {
      var k :| 0 <= k < |ids[i..]| && ids[i..][k] == x;
      assert ids[i + k] == x;
      assert x in ids;
    }
  }

  // Above the cursor remain exactly the later rowids of the order.
  lemma RestOfOrder(rows: Rows, task: Task, last: int, i: nat)
    requires i <= |Ordered(Matching(rows, task, last))|
    ensures var ids := Ordered(Matching(rows, task, last));
            Ordered(Matching(rows, task, CursorAt(ids, last, i))) == ids[i..] && CursorAt(ids, last, i) >= last
  {
    var ids := Ordered(Matching(rows, task, last));
    var cursor := CursorAt(ids, last, i);
    CursorBounds(rows, task, last, i);
    forall x ensures x in Ordered(Matching(rows, task, cursor)) <==> x in ids[i..] {
      AboveCursor(rows, task, last, i, x);
      BelowRest(rows, task, last, i, x);
    }
    IncreasingUnique(Ordered(Matching(rows, task, cursor)), ids[i..]);
  }

  // Compacting the one matching row between two cursors.
  lemma UpdateOne(rows: Rows, task: Task, cursor: int, r: int)
    requires UniqueIds(rows) && r in rows && 0 <= cursor < r && task.matches(rows[r])
    requires forall x :: x in rows && cursor < x < r ==> !task.matches(rows[x])
    ensures var now := CompactedUpTo(rows, task, cursor);
            var json := After(task, rows[r].payload);
            (if json != rows[r].payload then Update(now, rows[r].id, json) else now) == CompactedUpTo(rows, task, r)
  {
    var now := CompactedUpTo(rows, task, cursor);
    var json := After(task, rows[r].payload);
    var next := if json != rows[r].payload then Update(now, rows[r].id, json) else now;
    assert forall x :: x in rows ==> now[x].id == rows[x].id;
    assert next.Keys == rows.Keys;
    forall x | x in rows ensures next[x] == CompactedUpTo(rows, task, r)[x] {
      assert now[x].id == rows[r].id <==> x == r;
    }
  }

  // Handling one row of a page moves the table to the next cursor.
  lemma RowStep(rows: Rows, task: Task, apply: bool, last: int, i: nat)
    requires UniqueIds(rows) && last >= 0 && i < |Ordered(Matching(rows, task, last))|
    ensures var ids := Ordered(Matching(rows, task, last));
            var now := Progress(rows, task, apply, CursorAt(ids, last, i));
            var r := ids[i];
            && r in rows && r > last
            && var json := After(task, rows[r].payload);
               (if apply && json != rows[r].payload then Update(now, rows[r].id, json) else now)
                 == Progress(rows, task, apply, r)
  {
    var ids := Ordered(Matching(rows, task, last));
    var r := ids[i];
    assert r in ids;
    assert i > 0 ==> ids[i - 1] in ids;
    var cursor := CursorAt(ids, last, i);
    forall x | x in rows && cursor < x < r ensures !task.matches(rows[x]) {
      if task.matches(rows[x]) {
        assert x in Matching(rows, task, last);
        NoneBetween(rows, task, last, i, x);
      }
    }
    if apply {
      UpdateOne(rows, task, cursor, r);
    }
  }

  lemma StatsSame(rows: Rows, task: Task, a: seq<int>, r: int)
    requires (forall x :: x in a ==> x in rows) && r in rows
    ensures StatsOf(rows, task, a + [r]) == Accumulate(StatsOf(rows, task, a), task, rows[r].payload)
  {
    assert (a + [r])[..|a|] == a;
  }

  lemma NothingLeft(rows: Rows, task: Task, last: int)
    requires last >= 0 && Ordered(Matching(rows, task, last)) == []
    ensures CompactedUpTo(rows, task, last) == Compacted(rows, task)
  {
    var left := Matching(rows, task, last);
    assert left == {};
    assert forall x :: x in rows && x > last && task.matches(rows[x]) ==> x in left;
  }

  lemma UpdateAllAppend(rows: Rows, pending: seq<(string, string)>, p: (string, string))
    ensures UpdateAll(rows, pending + [p]) == Update(UpdateAll(rows, pending), p.0, p.1)
  {
    assert (pending + [p])[..|pending|] == pending;
  }

  // The page read above cursor `last`.
  ghost predicate IsPage(rows: Rows, task: Task, last: int, page: seq<(int, string, string)>) {
    && |page| <= |Ordered(Matching(rows, task, last))|
    && forall i :: 0 <= i < |page| ==>
         var r := Ordered(Matching(rows, task, last))[i];
         r in rows && page[i] == (r, rows[r].id, rows[r].payload)
  }

  // After i rows of a page; `now` is the table when the page was read.
  ghost predicate PageState(rows: Rows, task: Task, apply: bool, last: int, now: Rows, visited: seq<int>, i: nat,
                            stats: Stats, cursor: int, pending: seq<(string, string)>) {
    var ids := Ordered(Matching(rows, task, last));
    && i <= |ids| && cursor == CursorAt(ids, last, i)
    && UpdateAll(now, pending) == Progress(rows, task, apply, cursor)
    && (forall r :: r in visited + ids[..i] ==> r in rows)
    && stats == StatsOf(rows, task, visited + ids[..i])
  }

  lemma TakeNext(a: seq<int>, b: seq<int>, i: nat)
    requires i < |b|
    ensures a + b[..i + 1] == (a + b[..i]) + [b[i]]
  {
  }

  lemma PageStep(rows: Rows, task: Task, apply: bool, last: int, now: Rows, visited: seq<int>, i: nat,
                 stats: Stats, cursor: int, pending: seq<(string, string)>, row: (int, string, string))
    requires UniqueIds(rows) && last >= 0 && i < |Ordered(Matching(rows, task, last))|
    requires PageState(rows, task, apply, last, now, visited, i, stats, cursor, pending)
    requires var r := Ordered(Matching(rows, task, last))[i]; r in rows && row == (r, rows[r].id, rows[r].payload)
    ensures var json := After(task, row.2);
            PageState(rows, task, apply, last, now, visited, i + 1, Accumulate(stats, task, row.2), row.0,
                      if json != row.2 && apply then pending + [(row.1, json)] else pending)
  {
    var ids := Ordered(Matching(rows, task, last));
    RowStep(rows, task, apply, last, i);
    TakeNext(visited, ids, i);
    StatsSame(rows, task, visited + ids[..i], row.0);
    UpdateAllAppend(now, pending, (row.1, After(task, row.2)));
  }

  // One page: what is counted and scheduled for writing.
  method CompactPage(ghost rows: Rows, task: Task, apply: bool, last: int, ghost now: Rows, ghost visited: seq<int>,
                     page: seq<(int, string, string)>, stats0: Stats)
    returns (stats: Stats, lastRowId: int, pending: seq<(string, string)>)
    requires UniqueIds(rows) && last >= 0 && IsPage(rows, task, last, page)
    requires PageState(rows, task, apply, last, now, visited, 0, stats0, last, [])
    ensures PageState(rows, task, apply, last, now, visited, |page|, stats, lastRowId, pending)
  {
    stats, lastRowId, pending := stats0, last, [];
    for i := 0 to |page|
      invariant PageState(rows, task, apply, last, now, visited, i, stats, lastRowId, pending)
    {
      var (rowid, id, payload) := page[i];
      PageStep(rows, task, apply, last, now, visited, i, stats, lastRowId, pending, page[i]);
      lastRowId := rowid;
      stats := Accumulate(stats, task, payload);
      var json := After(task, payload);
      if json != payload && apply {
        pending := pending + [(id, json)];
      }
    }
  }

  // Between pages: the table and the statistics have reached the cursor.
  ghost predicate LoopState(rows: Rows, task: Task, apply: bool, now: Rows, visited: seq<int>, stats: Stats, cursor: int) {
    && cursor >= 0 && now == Progress(rows, task, apply, cursor)
    && visited + Ordered(Matching(rows, task, cursor)) == Ordered(Matching(rows, task, 0))
    && (forall r :: r in visited ==> r in rows) && stats == StatsOf(rows, task, visited)
  }

  lemma PageRead(rows: Rows, task: Task, apply: bool, now: Rows, visited: seq<int>, stats: Stats, cursor: int,
                 limit: nat, page: seq<(int, string, string)>)
    requires LoopState(rows, task, apply, now, visited, stats, cursor)
    requires |page| == |Page(now, task, cursor, limit)|
    requires forall i :: 0 <= i < |page| ==>
      var r := Page(now, task, cursor, limit)[i];
      r in now && page[i] == (r, now[r].id, now[r].payload)
    ensures IsPage(rows, task, cursor, page)
    ensures PageState(rows, task, apply, cursor, now, visited, 0, stats, cursor, [])
    ensures limit >= 1 && page == [] ==> Ordered(Matching(rows, task, cursor)) == []
  {
    MatchingStable(rows, task, apply, cursor);
    var ids := Ordered(Matching(rows, task, cursor));
    assert visited + ids[..0] == visited;
    forall i | 0 <= i < |page|
      ensures i < |ids| && ids[i] in rows && page[i] == (ids[i], rows[ids[i]].id, rows[ids[i]].payload)
    {
      assert ids[i] in ids && ids[i] in Matching(rows, task, cursor);
    }
  }

  lemma PageDone(rows: Rows, task: Task, apply: bool, now: Rows, visited: seq<int>, cursor: int,
                 n: nat, stats: Stats, next: int, pending: seq<(string, string)>, visited': seq<int>)
    requires cursor >= 0 && n > 0 && PageState(rows, task, apply, cursor, now, visited, n, stats, next, pending)
    requires visited + Ordered(Matching(rows, task, cursor)) == Ordered(Matching(rows, task, 0))
    requires visited' == visited + Ordered(Matching(rows, task, cursor))[..n]
    ensures LoopState(rows, task, apply, UpdateAll(now, pending), visited', stats, next)
    ensures |Ordered(Matching(rows, task, next))| < |Ordered(Matching(rows, task, cursor))|
  {
    var ids := Ordered(Matching(rows, task, cursor));
    RestOfOrder(rows, task, cursor, n);
    CutLater(visited, ids, n);
    assert next == CursorAt(ids, cursor, n);
    assert Ordered(Matching(rows, task, next)) == ids[n..];
  }

  lemma CutLater(a: seq<int>, b: seq<int>, n: nat)
    requires n <= |b|
    ensures a + b == (a + b[..n]) + b[n..]
  {
  }

  // ---- What a run counts and writes ----

  // Valid JSON of a positive row that the filter takes is replaced; every other row stays.
  ghost predicate Rewritten(rows: Rows, task: Task, after: Rows) {
    && (forall r :: r in after <==> r in rows)
    && forall r :: r in rows ==>
         if r > 0 && task.matches(rows[r]) && task.compact(rows[r].payload).Some?
         then after[r] == Row(rows[r].id, rows[r].eventType, task.compact(rows[r].payload).value)
         else after[r] == rows[r]
  }

  lemma CompactedIsRewritten(rows: Rows, task: Task)
    ensures Rewritten(rows, task, Compacted(rows, task))
  {
  }

  function TotalSize(texts: map<int, string>, size: string -> nat): nat
    decreases |texts|
  {
    if texts == map[] then 0
    else
      var r := Least(texts.Keys);
      assert r in texts && |(texts - {r}).Keys| < |texts.Keys| by { FewerKeys(texts, r); }
      size(texts[r]) + TotalSize(texts - {r}, size)
  }

  lemma FewerKeys(texts: map<int, string>, r: int)
    requires r in texts
    ensures |texts - {r}| < |texts|
  {
    assert (texts - {r}).Keys == texts.Keys - {r};
  }

  lemma {:induction false} OneMore(texts: map<int, string>, r: int, text: string, size: string -> nat)
    requires r !in texts
    ensures TotalSize(texts[r := text], size) == TotalSize(texts, size) + size(text)
    decreases |texts|
  {
    var more := texts[r := text];
    var k := Least(more.Keys);
    if k == r {
      assert more - {r} == texts;
    } else {
      assert k in texts.Keys && Least(texts.Keys) in more.Keys;
      assert more - {k} == (texts - {k})[r := text];
      FewerKeys(texts, k);
      OneMore(texts - {k}, r, text, size);
    }
  }

  // The rows whose payload is no valid JSON.
  ghost function Invalid(rows: Rows, task: Task, ids: set<int>): set<int>
    requires forall r :: r in ids ==> r in rows
  {
    set r | r in ids && task.compact(rows[r].payload).None?
  }

  predicate Changes(task: Task, payload: string) {
    task.compact(payload).Some? && task.compact(payload).value != payload
  }

  // The rows whose payload changes.
  ghost function Changing(rows: Rows, task: Task, ids: set<int>): set<int>
    requires forall r :: r in ids ==> r in rows
  {
    set r | r in ids && Changes(task, rows[r].payload)
  }

  // The payloads that are valid JSON, and what they become.
  ghost function Before(rows: Rows, task: Task, ids: set<int>): map<int, string>
    requires forall r :: r in ids ==> r in rows
  {
    map r | r in ids && task.compact(rows[r].payload).Some? :: rows[r].payload
  }

  ghost function Become(rows: Rows, task: Task, ids: set<int>): map<int, string>
    requires forall r :: r in ids ==> r in rows
  {
    map r | r in ids && task.compact(rows[r].payload).Some? :: task.compact(rows[r].payload).value
  }

  // The statistics over the rows `ids`: how many there are, how many change, how many are no valid JSON, and
  // the bytes of those that are, before and after.
  ghost predicate Counts(rows: Rows, task: Task, ids: set<int>, stats: Stats)
    requires forall r :: r in ids ==> r in rows
  {
    && stats.scanned == |ids|
    && stats.skippedInvalidJson == |Invalid(rows, task, ids)|
    && stats.changed == |Changing(rows, task, ids)|
    && stats.beforeBytes == TotalSize(Before(rows, task, ids), task.size)
    && stats.afterBytes == TotalSize(Become(rows, task, ids), task.size)
  }

  lemma InvalidOfOneMore(rows: Rows, task: Task, ids: set<int>, r: int)
    requires r in rows && r !in ids && forall k :: k in ids ==> k in rows
    ensures |Invalid(rows, task, ids + {r})| == |Invalid(rows, task, ids)| + if task.compact(rows[r].payload).None? then 1 else 0
  {
    var s, t := Invalid(rows, task, ids), Invalid(rows, task, ids + {r});
    assert t == if task.compact(rows[r].payload).None? then s + {r} else s;
  }

  lemma ChangingOfOneMore(rows: Rows, task: Task, ids: set<int>, r: int)
    requires r in rows && r !in ids && forall k :: k in ids ==> k in rows
    ensures |Changing(rows, task, ids + {r})|
         == |Changing(rows, task, ids)| + if Changes(task, rows[r].payload) then 1 else 0
  {
    var s, t := Changing(rows, task, ids), Changing(rows, task, ids + {r});
    assert t == if Changes(task, rows[r].payload) then s + {r} else s;
  }

  lemma BeforeOfOneMore(rows: Rows, task: Task, ids: set<int>, r: int)
    requires r in rows && r !in ids && forall k :: k in ids ==> k in rows
    ensures TotalSize(Before(rows, task, ids + {r}), task.size)
         == TotalSize(Before(rows, task, ids), task.size)
            + if task.compact(rows[r].payload).Some? then task.size(rows[r].payload) else 0
  {
    hide TotalSize;
    var b, c := Before(rows, task, ids), Before(rows, task, ids + {r});
    if task.compact(rows[r].payload).Some? {
      assert c == b[r := rows[r].payload];
      OneMore(b, r, rows[r].payload, task.size);
    } else {
      assert c == b;
    }
  }

  lemma BecomeOfOneMore(rows: Rows, task: Task, ids: set<int>, r: int)
    requires r in rows && r !in ids && forall k :: k in ids ==> k in rows
    ensures TotalSize(Become(rows, task, ids + {r}), task.size)
         == TotalSize(Become(rows, task, ids), task.size)
            + var json := task.compact(rows[r].payload); if json.Some? then task.size(json.value) else 0
  {
    hide TotalSize;
    var b, c := Become(rows, task, ids), Become(rows, task, ids + {r});
    if task.compact(rows[r].payload).Some? {
      assert c == b[r := task.compact(rows[r].payload).value];
      OneMore(b, r, task.compact(rows[r].payload).value, task.size);
    } else {
      assert c == b;
    }
  }

  lemma CountOne(rows: Rows, task: Task, ids: set<int>, stats: Stats, r: int)
    requires r in rows && r !in ids && (forall k :: k in ids ==> k in rows) && Counts(rows, task, ids, stats)
    ensures Counts(rows, task, ids + {r}, Accumulate(stats, task, rows[r].payload))
  {
    hide Invalid, Changing, Before, Become, TotalSize;
    InvalidOfOneMore(rows, task, ids, r);
    ChangingOfOneMore(rows, task, ids, r);
    BeforeOfOneMore(rows, task, ids, r);
    BecomeOfOneMore(rows, task, ids, r);
  }

  ghost function SetOf(ids: seq<int>): set<int> {
    set r | r in ids
  }

  lemma SetOfSnoc(ids: seq<int>, r: int)
    ensures SetOf(ids + [r]) == SetOf(ids) + {r}
  {
  }

  // The last of the visited rows is none of those before it.
  lemma LastIsNew(visited: seq<int>)
    requires Increasing(visited) && visited != []
    ensures var n := |visited| - 1;
            visited == visited[..n] + [visited[n]] && visited[n] !in SetOf(visited[..n]) && Increasing(visited[..n])
  {
  }

  lemma {:induction false} VisitCounts(rows: Rows, task: Task, visited: seq<int>)
    requires Increasing(visited) && forall r :: r in visited ==> r in rows
    ensures Counts(rows, task, SetOf(visited), StatsOf(rows, task, visited))
    decreases |visited|
  {
    hide Counts, Increasing;
    if visited == [] {
      NothingCounted(rows, task);
      assert SetOf(visited) == {};
    } else {
      var n := |visited| - 1;
      LastIsNew(visited);
      SetOfSnoc(visited[..n], visited[n]);
      assert visited[n] in visited;
      VisitCounts(rows, task, visited[..n]);
      CountOne(rows, task, SetOf(visited[..n]), StatsOf(rows, task, visited[..n]), visited[n]);
    }
  }

  lemma NothingCounted(rows: Rows, task: Task)
    ensures Counts(rows, task, {}, Stats(0, 0, 0, 0, 0))
  {
    assert Before(rows, task, {}) == map[] && Become(rows, task, {}) == map[];
    assert Invalid(rows, task, {}) == {} && Changing(rows, task, {}) == {};
  }

  // The rows that a run reads.
  ghost function Read(rows: Rows, task: Task): set<int> {
    set r | r in rows && r > 0 && task.matches(rows[r])
  }

  lemma RunCounts(rows: Rows, task: Task)
    ensures Counts(rows, task, Read(rows, task), StatsOf(rows, task, Ordered(Matching(rows, task, 0))))
  {
    var visited := Ordered(Matching(rows, task, 0));
    VisitCounts(rows, task, visited);
    assert SetOf(visited) == Read(rows, task);
  }

  // Every matching row above rowid 0 is visited once, in order, and rewritten once, for every
  // batch size; the statistics do not depend on the batch size or on whether changes are written.
  method CompactRows(table: Table, task: Task, apply: bool, batchSize: nat) returns (stats: Stats)
    requires batchSize >= 1 && UniqueIds(table.rows)
    modifies table
    ensures table.rows == if apply then Compacted(old(table.rows), task) else old(table.rows)
    ensures stats == StatsOf(old(table.rows), task, Ordered(Matching(old(table.rows), task, 0)))
    ensures if apply then Rewritten(old(table.rows), task, table.rows) else table.rows == old(table.rows)
    ensures Counts(old(table.rows), task, Read(old(table.rows), task), stats)
  {
    hide Counts, Rewritten, Read;
    ghost var rows := table.rows;
    ghost var visited: seq<int> := [];
    stats := Stats(0, 0, 0, 0, 0);
    var lastRowId := 0;
    assert [] + Ordered(Matching(rows, task, 0)) == Ordered(Matching(rows, task, 0));
    while true
      invariant LoopState(rows, task, apply, table.rows, visited, stats, lastRowId)
      decreases |Ordered(Matching(rows, task, lastRowId))|
    {
      var page := table.Select(task, lastRowId, batchSize);
      PageRead(rows, task, apply, table.rows, visited, stats, lastRowId, batchSize, page);
      if |page| == 0 { break; }
      ghost var cursor, visited' := lastRowId, visited + Ordered(Matching(rows, task, lastRowId))[..|page|];
      var pending;
      stats, lastRowId, pending := CompactPage(rows, task, apply, lastRowId, table.rows, visited, page, stats);
      PageDone(rows, task, apply, table.rows, visited, cursor, |page|, stats, lastRowId, pending, visited');
      visited := visited';
      if pending != [] {
        table.Flush(pending);
      }
    }
    NothingLeft(rows, task, lastRowId);
    assert visited + [] == visited;
    RunCounts(rows, task);
    CompactedIsRewritten(rows, task);
  }

  // ---- What the result means ----

  ghost predicate FullyCompacted(before: Rows, after: Rows, task: Task) {
    after.Keys == before.Keys && forall r :: r in before ==>
      after[r] == if task.matches(before[r]) then before[r].(payload := After(task, before[r].payload)) else before[r]
  }

  // Every matching row is compacted exactly when no matching row at or below rowid 0 would change.
  lemma CompactsEverythingIff(rows: Rows, task: Task)
    ensures FullyCompacted(rows, Compacted(rows, task), task)
       <==> forall r :: r in rows && r <= 0 && task.matches(rows[r]) ==> After(task, rows[r].payload) == rows[r].payload
  {
    var after := Compacted(rows, task);
    if FullyCompacted(rows, after, task) {
      forall r | r in rows && r <= 0 && task.matches(rows[r]) ensures After(task, rows[r].payload) == rows[r].payload {
        assert after[r] == rows[r];
      }
    }
  }

  // A table whose one row has rowid 0 and would change is not compacted.
  lemma ZeroRowIsMissed(row: Row, task: Task)
    requires task.matches(row) && After(task, row.payload) != row.payload
    ensures !FullyCompacted(map[0 := row], Compacted(map[0 := row], task), task)
  {
    var rows := map[0 := row];
    assert 0 in rows;
    CompactsEverythingIff(rows, task);
  }

  // A second pass over a compacted table changes nothing when compacting twice is compacting once.
  lemma SecondPassIsStill(rows: Rows, task: Task)
    requires forall p :: After(task, After(task, p)) == After(task, p)
    ensures Compacted(Compacted(rows, task), task) == Compacted(rows, task)
  {
    var once := Compacted(rows, task);
    var twice := Compacted(once, task);
    forall r | r in rows ensures twice[r] == once[r] {
      if r > 0 && task.matches(rows[r]) && task.matches(once[r]) {
        assert After(task, once[r].payload) == once[r].payload;
      }
    }
  }
}
