// The A2UI message processor: path updates of a surface's data model and the per-surface fold.
// Values are trees. An array is kept as the properties it holds under string keys; no path reads its length.
module A2uiSurfaces {
  import opened Wrappers
  import opened Text
  import opened Seqs
  import Framing

  datatype Value = Null | Leaf(text: string) | List(items: map<string, Value>) | Object(fields: map<string, Value>)

  // Reading gives a value or undefined; an update gives the new value or throws.
  datatype Read = Undefined | Found(value: Value)
  datatype Update = Updated(value: Value) | Throws

  // What happens at the end of a path. `length` is the assigned value as the length of an array, if it can be one.
  datatype Change = Delete | Assign(value: Value, length: Option<nat>)

  type Path = seq<string>

  // Array indices are below this number.
  const INDEX_END := 0xFFFF_FFFF

  // The key an array is read under: the segment is parsed as an integer first.
  function IndexKey(seg: string): Option<string> {
    var index := ParseInt(seg);
    if index.None? then None
    else Some(if index.value < 0 then "-" + Decimal(-index.value) else Decimal(index.value))
  }

  // The key is an array index not below n.
  predicate Beyond(key: string, n: nat) {
    var index := ParseInt(key);
    index.Some? && n <= index.value < INDEX_END && key == Decimal(index.value)
  }

  predicate Container(v: Value) {
    v.Object? || v.List?
  }

  // The properties of an object or array.
  function Properties(v: Value): map<string, Value>
    requires Container(v)
  {
    if v.Object? then v.fields else v.items
  }

  function With(v: Value, properties: map<string, Value>): Value
    requires Container(v)
  {
    if v.Object? then Object(properties) else List(properties)
  }

  function ReadKey(v: Value, seg: string): Option<string> {
    if v.List? then IndexKey(seg) else Some(seg)
  }

  // resolvePath over the segments.
  function Get(v: Value, path: Path): Read
    decreases |path|
  {
    if path == [] then Found(v)
    else if !Container(v) then Undefined
    else
      var key := ReadKey(v, path[0]);
      if key.Some? && key.value in Properties(v) then Get(Properties(v)[key.value], path[1..]) else Undefined
  }

  function Put(properties: map<string, Value>, key: string, x: Change): map<string, Value> {
    if x.Assign? then properties[key := x.value] else properties - {key}
  }

  // Setting the length of an array to n drops the indices from n on.
  function Trim(items: map<string, Value>, n: nat): map<string, Value> {
    map key | key in items && !Beyond(key, n) :: items[key]
  }

  // The container found or created below a segment: anything that is not an object in the sense of
  // typeof is replaced by {}; null and arrays count as objects.
  function Child(properties: map<string, Value>, seg: string): Value {
    if seg in properties && !properties[seg].Leaf? then properties[seg] else Object(map[])
  }

  // The update loop over the segments. Deleting from a data model that is itself a leaf does nothing; any
  // other step on a leaf or on null throws. The length of an array can neither be deleted nor become an object.
  function Set(v: Value, path: Path, x: Change): Update
    requires path != []
    decreases |path|
  {
    if v.Leaf? then
      if |path| == 1 && x.Delete? then Updated(v) else Throws
    else if v.Null? then Throws
    else if v.List? && path[0] == "length" then
      if |path| == 1 && x.Assign? && x.length.Some? then Updated(List(Trim(v.items, x.length.value))) else Throws
    else if |path| == 1 then
      Updated(With(v, Put(Properties(v), path[0], x)))
    else
      match Set(Child(Properties(v), path[0]), path[1..], x)
      case Updated(w) => Updated(With(v, Properties(v)[path[0] := w]))
      case Throws => Throws
  }

  predicate Independent(p: Path, q: Path) {
    !(p <= q) && !(q <= p)
  }

  // ---- What an update writes ----

  // Setting the length to n keeps every entry but those under the numerals of n and above.
  ghost predicate Cut(items: map<string, Value>, n: nat, kept: map<string, Value>) {
    && (forall key :: key in kept ==> key in items && kept[key] == items[key])
    && forall key :: key in items ==>
         (key !in kept <==> exists i: nat :: n <= i < 4294967295 && key == Decimal(i))
  }

  // Everything else that v holds, w holds too, and nothing more.
  ghost predicate SameBut(v: map<string, Value>, w: map<string, Value>, key: string) {
    forall k :: k != key ==> (k in v <==> k in w) && (k in v ==> w[k] == v[k])
  }

  // What is at the end of the path is assigned or gone in w. On the way there, what is missing or a leaf
  // becomes an object, and everything off the path stays.
  ghost predicate Writes(v: Value, path: Path, x: Change, w: Value)
    requires path != []
    decreases |path|
  {
    match v
    case Null => false
    case Leaf(_) => |path| == 1 && x.Delete? && w == v
    case Object(fields) => w.Object? && WritesKey(fields, path, x, w.fields)
    case List(items) =>
      if path[0] == "length" then |path| == 1 && x.Assign? && x.length.Some? && w.List? && Cut(items, x.length.value, w.items)
      else w.List? && WritesKey(items, path, x, w.items)
  }

  ghost predicate WritesKey(v: map<string, Value>, path: Path, x: Change, w: map<string, Value>)
    requires path != []
    decreases |path|, 0
  {
    var key := path[0];
    && SameBut(v, w, key)
    && if |path| > 1 then
         key in w && Writes(if key in v && !v[key].Leaf? then v[key] else Object(map[]), path[1..], x, w[key])
       else if x.Delete? then key !in w
       else key in w && w[key] == x.value
  }

  lemma BeyondIsNumeral(key: string, n: nat)
    ensures Beyond(key, n) <==> exists i: nat :: n <= i < 4294967295 && key == Decimal(i)
  {
    if Beyond(key, n) {
      var i: nat := ParseInt(key).value;
      assert n <= i < 4294967295 && key == Decimal(i);
    }
    if i: nat :| n <= i < 4294967295 && key == Decimal(i) {
      ParseDecimal(i);
    }
  }

  lemma TrimIsCut(items: map<string, Value>, n: nat, kept: map<string, Value>)
    ensures kept == Trim(items, n) <==> Cut(items, n, kept)
  {
    hide Beyond;
    forall key ensures Beyond(key, n) <==> exists i: nat :: n <= i < 4294967295 && key == Decimal(i) {
      BeyondIsNumeral(key, n);
    }
    if Cut(items, n, kept) {
      assert forall key :: key in kept <==> key in Trim(items, n);
    }
  }

  // An update gives the one value that shows what it writes, and throws when there is none.
  lemma {:induction false} UpdateWrites(v: Value, path: Path, x: Change, w: Value)
    requires path != []
    ensures Set(v, path, x) == Updated(w) <==> Writes(v, path, x, w)
    decreases |path|
  {
    hide Cut, Trim;
    if v.List? && path[0] == "length" {
      if |path| == 1 && x.Assign? && x.length.Some? && w.List? {
        TrimIsCut(v.items, x.length.value, w.items);
      }
    } else if Container(v) {
      if |path| > 1 {
        UpdateBelow(v, path, x, w);
      } else if v.Object? == w.Object? && v.List? == w.List? {
        assert Properties(w) == Put(Properties(v), path[0], x) <==> WritesKey(Properties(v), path, x, Properties(w));
      }
    }
  }

  lemma WritesMeans(v: Value, path: Path, x: Change, w: Value)
    requires path != [] && Container(v) && !(v.List? && path[0] == "length")
    ensures Writes(v, path, x, w)
       <==> v.Object? == w.Object? && v.List? == w.List? && WritesKey(Properties(v), path, x, Properties(w))
  {
  }

  lemma {:induction false} UpdateBelow(v: Value, path: Path, x: Change, w: Value)
    requires |path| > 1 && Container(v) && !(v.List? && path[0] == "length")
    ensures Set(v, path, x) == Updated(w) <==> Writes(v, path, x, w)
    decreases |path|, 0
  {
    hide Writes;
    var key, m := path[0], Properties(v);
    WritesMeans(v, path, x, w);
    var r := Set(Child(m, key), path[1..], x);
    if r.Updated? {
      UpdateWrites(Child(m, key), path[1..], x, r.value);
    }
    if Writes(v, path, x, w) {
      UpdateWrites(Child(m, key), path[1..], x, Properties(w)[key]);
      assert m[key := Properties(w)[key]] == Properties(w);
    }
  }

  // ---- Path laws ----

  // Every container the update walks through is an object or an array, and none is asked for its length.
  ghost predicate Walkable(v: Value, path: Path)
    requires path != []
    decreases |path|
  {
    && (v.Object? || (v.List? && path[0] != "length"))
    && (|path| > 1 ==> Walkable(Child(Properties(v), path[0]), path[1..]))
  }

  // The update ends at the length of an array.
  ghost predicate EndsAtLength(v: Value, path: Path)
    requires path != []
    decreases |path|
  {
    if |path| == 1 then v.List? && path[0] == "length"
    else
      && (v.Object? || (v.List? && path[0] != "length"))
      && EndsAtLength(Child(Properties(v), path[0]), path[1..])
  }

  // Some assignment to the path goes through.
  ghost predicate Assignable(v: Value, path: Path)
    requires path != []
  {
    Walkable(v, path) || EndsAtLength(v, path)
  }

  // Which updates go through; all others throw.
  lemma {:induction false} SetSucceedsIff(v: Value, path: Path, x: Change)
    requires path != []
    ensures Set(v, path, x).Updated? <==>
      || Walkable(v, path)
      || (v.Leaf? && |path| == 1 && x.Delete?)
      || (EndsAtLength(v, path) && x.Assign? && x.length.Some?)
    decreases |path|
  {
    if Container(v) && |path| > 1 {
      SetSucceedsIff(Child(Properties(v), path[0]), path[1..], x);
    }
  }

  lemma AssignGoesThrough(v: Value, path: Path, x: Change)
    requires path != [] && Assignable(v, path) && x.Assign? && (x.length.Some? || Walkable(v, path))
    ensures Container(v) && Set(v, path, x).Updated?
  {
    SetSucceedsIff(v, path, x);
  }

  lemma {:induction false} NeverBoth(v: Value, path: Path)
    requires path != [] && Walkable(v, path)
    ensures !EndsAtLength(v, path)
    decreases |path|
  {
    if |path| > 1 {
      NeverBoth(Child(Properties(v), path[0]), path[1..]);
    }
  }

  // A created container is an object all the way down.
  lemma {:induction false} CreatedIsWalkable(path: Path)
    requires path != []
    ensures Walkable(Object(map[]), path)
    decreases |path|
  {
    if |path| > 1 {
      CreatedIsWalkable(path[1..]);
    }
  }

  // Where the path meets an array its segment is the numeral of an index, as it will be read.
  ghost predicate PlainIndices(v: Value, path: Path)
    decreases |path|
  {
    path != [] && Container(v) ==>
      && ReadKey(v, path[0]) == Some(path[0])
      && (path[0] in Properties(v) ==> PlainIndices(Properties(v)[path[0]], path[1..]))
  }

  lemma NumeralsArePlain(n: nat)
    ensures IndexKey(Decimal(n)) == Some(Decimal(n))
    ensures Beyond(Decimal(n), 0) <==> n < INDEX_END
  {
    ParseDecimal(n);
  }

  lemma PlainChild(v: Value, path: Path)
    requires path != [] && Container(v) && ReadKey(v, path[0]) == Some(path[0])
    ensures PlainIndices(Child(Properties(v), path[0]), path[1..]) <==> PlainIndices(v, path)
  {
    assert PlainIndices(Object(map[]), path[1..]);
  }

  // What was set is read back; what was deleted reads as undefined.
  lemma {:induction false} GetAfterSet(v: Value, path: Path, x: Change)
    requires path != [] && Set(v, path, x).Updated? && PlainIndices(v, path)
    ensures Get(Set(v, path, x).value, path) == if x.Assign? then Found(x.value) else Undefined
    decreases |path|
  {
    LengthIsNoIndex();
    if Container(v) && |path| > 1 {
      PlainChild(v, path);
      GetAfterSet(Child(Properties(v), path[0]), path[1..], x);
    }
  }

  lemma LengthIsNoIndex()
    ensures IndexKey("length") == None && forall n :: !Beyond("length", n)
  {
    assert !IsSpace("length"[0]) && !IsDigit("length"[0]);
    assert ParseInt("length") == None;
  }

  // Where following the path through the value leads, if it leads anywhere.
  ghost predicate LeadsTo(v: Value, path: Path, w: Value)
    decreases |path|
  {
    if path == [] then w == v
    else
      match v
      case Object(fields) => path[0] in fields && LeadsTo(fields[path[0]], path[1..], w)
      case List(items) => exists key :: IndexKey(path[0]) == Some(key) && key in items && LeadsTo(items[key], path[1..], w)
      case _ => false
  }

  lemma {:induction false} GetLeads(v: Value, path: Path, w: Value)
    ensures Get(v, path) == Found(w) <==> LeadsTo(v, path, w)
    decreases |path|
  {
    if path != [] && Container(v) {
      var key := ReadKey(v, path[0]);
      if key.Some? && key.value in Properties(v) {
        GetLeads(Properties(v)[key.value], path[1..], w);
      }
    }
  }

  // A segment is read as an index by its leading white space, sign and digits; what follows is ignored.
  lemma IndexRead(space: string, sign: string, digits: string, rest: string)
    requires forall c :: c in space ==> IsSpace(c)
    requires sign in ["", "+", "-"]
    requires (forall c :: c in digits ==> IsDigit(c)) && (rest == "" || !IsDigit(rest[0]))
    requires digits == "" && sign == "" && rest != "" ==> !IsSpace(rest[0]) && rest[0] != '+' && rest[0] != '-'
    ensures IndexKey(space + (sign + (digits + rest)))
         == if digits == "" then None
            else Some((if sign == "-" && ValueOf(digits) > 0 then "-" else "") + Decimal(ValueOf(digits)))
  {
    hide IsSpace;
    ParseIntReads(space, sign, digits, rest);
    if digits != "" {
      assert "" + Decimal(ValueOf(digits)) == Decimal(ValueOf(digits));
    }
  }

  // Reading `other` after the length of the array is set gives what it gave before, whatever the length.
  ghost predicate KeepsIndices(items: map<string, Value>, other: Path) {
    if other == [] then forall key :: key in items ==> !Beyond(key, 0)
    else
      var key := IndexKey(other[0]);
      key.None? || !Beyond(key.value, 0) || Get(List(items), other).Undefined?
  }

  // Resolved against the value as it is, `other` reads past what updates of `path` write.
  ghost predicate Avoids(v: Value, path: Path, other: Path)
    requires path != []
    decreases |path|
  {
    Container(v) ==>
      if v.List? && path[0] == "length" then KeepsIndices(v.items, other)
      else if other != [] && ReadKey(v, other[0]) != Some(path[0]) then true
      else |path| > 1 && Avoids(Child(Properties(v), path[0]), path[1..], if other == [] then [] else other[1..])
  }

  lemma {:induction false} AvoidsWhole(v: Value, path: Path, x: Change)
    requires path != [] && Container(v) && Avoids(v, path, []) && Set(v, path, x).Updated?
    ensures EndsAtLength(v, path) && Set(v, path, x).value == v
    decreases |path|
  {
    if v.List? && path[0] == "length" {
      assert Trim(v.items, x.length.value) == v.items;
    } else {
      var c := Child(Properties(v), path[0]);
      AvoidsWhole(c, path[1..], x);
      if c == Object(map[]) {
        CreatedIsWalkable(path[1..]);
        NeverBoth(c, path[1..]);
      }
      assert Properties(v)[path[0] := c] == Properties(v);
    }
  }

  // Trimming leaves what is read under other keys.
  lemma TrimKeeps(items: map<string, Value>, n: nat, other: Path)
    requires KeepsIndices(items, other)
    ensures Get(List(Trim(items, n)), other) == Get(List(items), other)
  {
    if other == [] {
      assert Trim(items, n) == items;
    }
  }

  // Paths that avoid the updated one read as before.
  lemma {:induction false} AvoidsKeeps(v: Value, path: Path, x: Change, other: Path)
    requires path != [] && Set(v, path, x).Updated? && Avoids(v, path, other)
    ensures Get(Set(v, path, x).value, other) == Get(v, other)
    decreases |path|
  {
    if Container(v) {
      if v.List? && path[0] == "length" {
        TrimKeeps(v.items, x.length.value, other);
      } else if other == [] {
        AvoidsWhole(v, path, x);
      } else if ReadKey(v, other[0]) == Some(path[0]) {
        var c := Child(Properties(v), path[0]);
        AvoidsKeeps(c, path[1..], x, other[1..]);
        if other[1..] == [] {
          AvoidsWhole(c, path[1..], x);
          if c == Object(map[]) {
            CreatedIsWalkable(path[1..]);
            NeverBoth(c, path[1..]);
          }
        }
      }
    }
  }

  // A value that holds a leaf at the end of the path.
  function Nest(path: Path): Value {
    if path == [] then Leaf("") else Object(map[path[0] := Nest(path[1..])])
  }

  lemma {:induction false} GetNest(path: Path)
    ensures Get(Nest(path), path) == Found(Leaf(""))
    decreases |path|
  {
    if path != [] {
      GetNest(path[1..]);
    }
  }

  lemma {:induction false} SetInjective(v: Value, path: Path, x: Change, y: Change)
    requires path != [] && Walkable(v, path) && x.Assign? && y.Assign? && x.value != y.value
    ensures Set(v, path, x) != Set(v, path, y)
    decreases |path|
  {
    SetSucceedsIff(v, path, x);
    SetSucceedsIff(v, path, y);
    var a, b := Properties(Set(v, path, x).value), Properties(Set(v, path, y).value);
    if |path| > 1 {
      SetInjective(Child(Properties(v), path[0]), path[1..], x, y);
    }
    assert a[path[0]] != b[path[0]];
  }

  // The value that shows a clash between `path` and `other`.
  function Telling(path: Path, other: Path): Value {
    if |path| <= |other| then Nest(other[|path|..]) else Leaf("")
  }

  lemma {:induction false} Clash(v: Value, path: Path, other: Path)
    requires path != [] && Walkable(v, path) && !Avoids(v, path, other)
    ensures var x, y := Assign(Null, None), Assign(Telling(path, other), None);
            && Set(v, path, x).Updated? && Set(v, path, y).Updated?
            && Get(Set(v, path, x).value, other) != Get(Set(v, path, y).value, other)
    decreases |path|
  {
    var x, y := Assign(Null, None), Assign(Telling(path, other), None);
    SetSucceedsIff(v, path, x);
    SetSucceedsIff(v, path, y);
    if other == [] {
      SetInjective(v, path, x, y);
    } else if |path| == 1 {
      GetNest(other[1..]);
    } else {
      assert |path| <= |other| ==> other[|path|..] == other[1..][|path[1..]|..];
      Clash(Child(Properties(v), path[0]), path[1..], other[1..]);
    }
  }

  lemma {:induction false} LengthClash(v: Value, path: Path, other: Path, x: Change)
    requires path != [] && EndsAtLength(v, path) && !Avoids(v, path, other) && x == Assign(Null, Some(0))
    ensures Set(v, path, x).Updated? && Get(Set(v, path, x).value, other) != Get(v, other)
    decreases |path|
  {
    SetSucceedsIff(v, path, x);
    if |path| == 1 {
      if other == [] {
        var key :| key in v.items && Beyond(key, 0);
        assert key !in Trim(v.items, 0);
      }
    } else {
      var c := Child(Properties(v), path[0]);
      if c == Object(map[]) {
        CreatedIsWalkable(path[1..]);
        NeverBoth(c, path[1..]);
      }
      var rest := if other == [] then [] else other[1..];
      LengthClash(c, path[1..], rest, x);
      if other == [] {
        assert Properties(Set(v, path, x).value)[path[0]] != Properties(v)[path[0]];
      }
    }
  }

  // `other` reads the same after every update of `path` exactly when it avoids it.
  lemma ElsewhereIff(v: Value, path: Path, other: Path)
    requires path != [] && Assignable(v, path)
    ensures (forall x :: Set(v, path, x).Updated? ==> Get(Set(v, path, x).value, other) == Get(v, other))
       <==> Avoids(v, path, other)
  {
    if Avoids(v, path, other) {
      forall x | Set(v, path, x).Updated? ensures Get(Set(v, path, x).value, other) == Get(v, other) {
        AvoidsKeeps(v, path, x, other);
      }
    } else if Walkable(v, path) {
      Clash(v, path, other);
    } else {
      LengthClash(v, path, other, Assign(Null, Some(0)));
    }
  }

  // Independent paths whose own segments are plain avoid each other, lengths aside.
  lemma {:induction false} IndependentAvoids(v: Value, path: Path, other: Path)
    requires path != [] && Independent(path, other) && PlainIndices(v, other) && !EndsAtLength(v, path)
    requires Assignable(v, path)
    ensures Avoids(v, path, other)
    decreases |path|
  {
    assert other != [];
    if path[0] == other[0] {
      assert path == [path[0]] + path[1..] && other == [other[0]] + other[1..];
      assert |path| > 1;
      PlainChild(v, other);
      IndependentAvoids(Child(Properties(v), path[0]), path[1..], other[1..]);
    }
  }

  lemma GetElsewhere(v: Value, path: Path, x: Change, other: Path)
    requires path != [] && Set(v, path, x).Updated? && !EndsAtLength(v, path)
    requires Independent(path, other) && PlainIndices(v, other)
    ensures Get(Set(v, path, x).value, other) == Get(v, other)
  {
    SetSucceedsIff(v, path, x);
    if Container(v) {
      IndependentAvoids(v, path, other);
      AvoidsKeeps(v, path, x, other);
    }
  }

  lemma PaddedReads(a: Value)
    ensures IndexKey("01") == Some("1") && IndexKey("1") == Some("1")
    ensures Get(List(map["1" := a]), ["01"]) == Found(a)
  {
    assert forall c :: c in "01" ==> IsDigit(c);
    ParseDigits("01");
    assert "01"[..1] == "0" && "0"[..0] == "";
    assert ValueOf("0") == 0;
    assert ValueOf("01") == 1;
    assert Decimal(1) == "1";
    NumeralsArePlain(1);
    assert Get(a, ["01"][1..]) == Found(a);
  }

  // One array and one padded segment: the value set is not the one read, and a path independent of "01"
  // changes what "01" reads.
  lemma PaddedIndexMissed(a: Value, b: Value)
    ensures var v := List(map["1" := a]);
            && Set(v, ["01"], Assign(b, None)).Updated?
            && Get(Set(v, ["01"], Assign(b, None)).value, ["01"]) == Found(a)
            && Independent(["1"], ["01"])
            && Set(v, ["1"], Assign(b, None)).Updated?
            && Get(Set(v, ["1"], Assign(b, None)).value, ["01"]) == Found(b)
  {
    var v := List(map["1" := a]);
    PaddedReads(a);
    PaddedReads(b);
    var w := Set(v, ["01"], Assign(b, None)).value;
    assert "1" in w.items && w.items["1"] == a;
    assert Get(a, ["01"][1..]) == Found(a);
    assert Set(v, ["1"], Assign(b, None)).value == List(map["1" := b]);
    assert "1"[0] != "01"[0];
  }

  // An update is read past by its own path exactly when the path is not plain.
  lemma {:induction false} AvoidsItself(v: Value, path: Path)
    requires path != [] && Assignable(v, path)
    ensures Avoids(v, path, path) <==> !PlainIndices(v, path)
    decreases |path|
  {
    LengthIsNoIndex();
    if (v.List? && path[0] == "length") || ReadKey(v, path[0]) != Some(path[0]) {
      return;
    }
    if |path| > 1 {
      PlainChild(v, path);
      AvoidsItself(Child(Properties(v), path[0]), path[1..]);
    }
  }

  // Every value set is read back exactly when the segments that meet arrays are plain numerals.
  lemma ReadBackIff(v: Value, path: Path)
    requires path != [] && Assignable(v, path)
    ensures (forall x: Change :: x.Assign? && Set(v, path, x).Updated? ==> Get(Set(v, path, x).value, path) == Found(x.value))
       <==> PlainIndices(v, path)
  {
    if PlainIndices(v, path) {
      forall x: Change | x.Assign? && Set(v, path, x).Updated? ensures Get(Set(v, path, x).value, path) == Found(x.value) {
        GetAfterSet(v, path, x);
      }
    } else {
      AvoidsItself(v, path);
      var x, y := Assign(Null, Some(0)), Assign(Leaf(""), Some(0));
      AssignGoesThrough(v, path, x);
      AssignGoesThrough(v, path, y);
      AvoidsKeeps(v, path, x, path);
      AvoidsKeeps(v, path, y, path);
    }
  }

  lemma SetIsContainer(v: Value, path: Path, x: Change)
    requires path != [] && Set(v, path, x).Updated? && !v.Leaf?
    ensures var w := Set(v, path, x).value; Container(v) && (v.Object? ==> w.Object?) && (v.List? ==> w.List?)
  {
  }

  // The later of two updates of one path wins.
  lemma {:induction false} SetTwice(v: Value, path: Path, x: Change, y: Change)
    requires path != [] && Set(v, path, x).Updated? && !EndsAtLength(v, path)
    ensures Set(Set(v, path, x).value, path, y) == Set(v, path, y)
    decreases |path|
  {
    if v.Leaf? { return; }
    SetIsContainer(v, path, x);
    var f := Properties(v);
    if |path| > 1 {
      var c := Child(f, path[0]);
      SetTwice(c, path[1..], x, y);
      SetIsContainer(c, path[1..], x);
      var w := Set(c, path[1..], x).value;
      assert Child(f[path[0] := w], path[0]) == w;
      match Set(w, path[1..], y) {
        case Updated(u) => assert f[path[0] := w][path[0] := u] == f[path[0] := u];
        case Throws =>
      }
    } else {
      var g := Properties(Set(v, path, x).value);
      assert y.Assign? ==> g[path[0] := y.value] == f[path[0] := y.value];
      assert g - {path[0]} == f - {path[0]};
    }
  }

  // Of two lengths of one array the smaller wins: what the first one dropped is lost.
  lemma {:induction false} LengthsMin(v: Value, path: Path, m: nat, x: Value, n: nat, y: Value)
    requires path != [] && EndsAtLength(v, path)
    ensures Set(v, path, Assign(x, Some(m))).Updated?
    ensures Set(Set(v, path, Assign(x, Some(m))).value, path, Assign(y, Some(n)))
         == Set(v, path, Assign(y, Some(if m <= n then m else n)))
    decreases |path|
  {
    var a := Assign(x, Some(m));
    SetSucceedsIff(v, path, a);
    if |path| == 1 {
      assert Trim(Trim(v.items, m), n) == Trim(v.items, if m <= n then m else n);
    } else {
      var f := Properties(v);
      var c := Child(f, path[0]);
      LengthsMin(c, path[1..], m, x, n, y);
      SetIsContainer(c, path[1..], a);
      var w := Set(c, path[1..], a).value;
      assert Child(f[path[0] := w], path[0]) == w;
      SetSucceedsIff(c, path[1..], Assign(y, Some(if m <= n then m else n)));
      var u := Set(w, path[1..], Assign(y, Some(n))).value;
      assert f[path[0] := w][path[0] := u] == f[path[0] := u];
    }
  }

  // `p` sets the length of an array and `q` goes through one of its indices.
  ghost predicate Disturbs(v: Value, p: Path, q: Path)
    requires p != []
  {
    && EndsAtLength(v, p)
    && |p| <= |q| && p[..|p| - 1] == q[..|p| - 1] && Beyond(q[|p| - 1], 0)
  }

  lemma DisturbsBelow(v: Value, p: Path, q: Path)
    requires |p| > 1 && q != [] && p[0] == q[0] && Container(v) && !(v.List? && p[0] == "length")
    ensures Disturbs(v, p, q) <==> Disturbs(Child(Properties(v), p[0]), p[1..], q[1..])
  {
    if |p| <= |q| {
      var r, s := p[1..], q[1..];
      assert p[..|p| - 1] == [p[0]] + r[..|r| - 1] && q[..|p| - 1] == [q[0]] + s[..|r| - 1];
      assert p[..|p| - 1] == q[..|p| - 1] ==> r[..|r| - 1] == p[..|p| - 1][1..] == s[..|r| - 1];
    }
  }

  // Updates of independent paths commute.
  lemma {:induction false} SetsCommute(v: Value, p: Path, x: Change, q: Path, y: Change)
    requires Independent(p, q) && p != [] && q != [] && !Disturbs(v, p, q) && !Disturbs(v, q, p)
    requires Set(v, p, x).Updated? && Set(v, q, y).Updated?
    ensures Set(Set(v, p, x).value, q, y).Updated?
    ensures Set(Set(v, p, x).value, q, y) == Set(Set(v, q, y).value, p, x)
    decreases |p|
  {
    if v.Leaf? { return; }
    SetIsContainer(v, p, x);
    if p[0] == q[0] {
      assert p == [p[0]] + p[1..] && q == [q[0]] + q[1..];
      assert |p| > 1 && |q| > 1;
      var c := Child(Properties(v), p[0]);
      DisturbsBelow(v, p, q);
      DisturbsBelow(v, q, p);
      SetsCommute(c, p[1..], x, q[1..], y);
      SameHead(v, p, x, q, y);
    } else if v.List? && p[0] == "length" {
      LengthAndPut(v, p, x, q, y);
    } else if v.List? && q[0] == "length" {
      LengthAndPut(v, q, y, p, x);
    } else {
      IndependentHeads(v, p, x, q, y);
    }
  }

  lemma SameHead(v: Value, p: Path, x: Change, q: Path, y: Change)
    requires Container(v) && |p| > 1 && |q| > 1 && p[0] == q[0]
    requires Set(v, p, x).Updated? && Set(v, q, y).Updated?
    requires var c := Child(Properties(v), p[0]);
             && Set(Set(c, p[1..], x).value, q[1..], y).Updated?
             && Set(Set(c, p[1..], x).value, q[1..], y) == Set(Set(c, q[1..], y).value, p[1..], x)
    ensures Set(Set(v, p, x).value, q, y).Updated?
    ensures Set(Set(v, p, x).value, q, y) == Set(Set(v, q, y).value, p, x)
  {
    var f := Properties(v);
    var c := Child(f, p[0]);
    SetIsContainer(c, p[1..], x);
    SetIsContainer(c, q[1..], y);
    var wp, wq := Set(c, p[1..], x).value, Set(c, q[1..], y).value;
    assert Child(f[p[0] := wp], q[0]) == wp && Child(f[q[0] := wq], p[0]) == wq;
    assert f[p[0] := wp][q[0] := Set(wp, q[1..], y).value] == f[q[0] := wq][p[0] := Set(wq, p[1..], x).value];
  }

  // What an update puts under the first key depends on what was there alone.
  lemma PutAtHead(v: Value, w: Value, p: Path, x: Change) returns (r: Change)
    requires Container(v) && p != [] && Set(v, p, x).Updated? && !(v.List? && p[0] == "length")
    requires Container(w) && (w.List? <==> v.List?) && Child(Properties(w), p[0]) == Child(Properties(v), p[0])
    ensures r.Assign? ==> r.length == None
    ensures Set(v, p, x) == Updated(With(v, Put(Properties(v), p[0], r)))
    ensures Set(w, p, x) == Updated(With(w, Put(Properties(w), p[0], r)))
  {
    r := if |p| > 1 then Assign(Set(Child(Properties(v), p[0]), p[1..], x).value, None)
         else if x.Delete? then Delete else Assign(x.value, None);
  }

  lemma PutsCommute(m: map<string, Value>, j: string, x: Change, k: string, y: Change)
    requires j != k
    ensures Put(Put(m, j, x), k, y) == Put(Put(m, k, y), j, x)
    ensures Child(Put(m, j, x), k) == Child(m, k)
  {
  }

  lemma IndependentHeads(v: Value, p: Path, x: Change, q: Path, y: Change)
    requires Container(v) && p != [] && q != [] && p[0] != q[0]
    requires v.List? ==> p[0] != "length" && q[0] != "length"
    requires Set(v, p, x).Updated? && Set(v, q, y).Updated?
    ensures Set(Set(v, p, x).value, q, y).Updated?
    ensures Set(Set(v, p, x).value, q, y) == Set(Set(v, q, y).value, p, x)
  {
    var f := Properties(v);
    var r := PutAtHead(v, v, p, x);
    var s := PutAtHead(v, v, q, y);
    PutsCommute(f, p[0], r, q[0], s);
    PutsCommute(f, q[0], s, p[0], r);
    var a, b := With(v, Put(f, p[0], r)), With(v, Put(f, q[0], s));
    var s' := PutAtHead(v, a, q, y);
    var r' := PutAtHead(v, b, p, x);
    SamePut(f, q[0], s, s');
    SamePut(f, p[0], r, r');
  }

  lemma SamePut(m: map<string, Value>, k: string, x: Change, y: Change)
    requires Put(m, k, x) == Put(m, k, y)
    requires (x.Assign? ==> x.length == None) && (y.Assign? ==> y.length == None)
    ensures x == y
  {
    assert x.Assign? <==> k in Put(m, k, x);
    assert y.Assign? <==> k in Put(m, k, y);
    assert x.Assign? ==> Put(m, k, x)[k] == x.value;
    assert y.Assign? ==> Put(m, k, y)[k] == y.value;
  }

  // Setting the length of an array commutes with writing to it under a key that is no index.
  lemma LengthAndPut(v: Value, p: Path, x: Change, q: Path, y: Change)
    requires v.List? && p != [] && q != [] && p[0] == "length" && q[0] != "length" && !Beyond(q[0], 0)
    requires Set(v, p, x).Updated? && Set(v, q, y).Updated?
    ensures Set(Set(v, p, x).value, q, y).Updated?
    ensures Set(Set(v, p, x).value, q, y) == Set(Set(v, q, y).value, p, x)
  {
    var n := x.length.value;
    var w := List(Trim(v.items, n));
    assert Child(Trim(v.items, n), q[0]) == Child(v.items, q[0]);
    var s := PutAtHead(v, w, q, y);
    assert Put(Trim(v.items, n), q[0], s) == Trim(Put(v.items, q[0], s), n);
  }

  // Both orders of two updates go through and agree.
  ghost predicate Commute(v: Value, p: Path, x: Change, q: Path, y: Change)
    requires p != [] && q != [] && Set(v, p, x).Updated? && Set(v, q, y).Updated?
  {
    && Set(Set(v, p, x).value, q, y).Updated?
    && Set(Set(v, p, x).value, q, y) == Set(Set(v, q, y).value, p, x)
  }

  // Emptying an array and writing into it depend on the order.
  lemma {:induction false} DisturbedDiffer(v: Value, p: Path, q: Path, x: Change)
    requires p != [] && q != [] && Disturbs(v, p, q) && Assignable(v, q) && x == Assign(Null, Some(0))
    ensures Set(v, p, x).Updated? && Set(v, q, x).Updated? && !Commute(v, p, x, q, x)
    decreases |p|
  {
    SetSucceedsIff(v, p, x);
    SetSucceedsIff(v, q, x);
    var a, b := Set(v, p, x).value, Set(v, q, x).value;
    if |p| == 1 {
      LengthIsNoIndex();
      assert q[0] !in Set(b, p, x).value.items;
      assert Set(a, q, x).Updated? ==> q[0] in Set(a, q, x).value.items;
    } else {
      assert p[0] == p[..|p| - 1][0] == q[..|p| - 1][0] == q[0];
      DisturbsBelow(v, p, q);
      var f := Properties(v);
      var c := Child(f, p[0]);
      DisturbedDiffer(c, p[1..], q[1..], x);
      DifferAtHead(v, p, q, x);
    }
  }

  lemma DifferAtHead(v: Value, p: Path, q: Path, x: Change)
    requires Container(v) && |p| > 1 && |q| > 1 && p[0] == q[0]
    requires Set(v, p, x).Updated? && Set(v, q, x).Updated?
    requires Set(Child(Properties(v), p[0]), p[1..], x).Updated? && Set(Child(Properties(v), q[0]), q[1..], x).Updated?
    requires !Commute(Child(Properties(v), p[0]), p[1..], x, q[1..], x)
    ensures !Commute(v, p, x, q, x)
  {
    var f := Properties(v);
    var c := Child(f, p[0]);
    SetIsContainer(c, p[1..], x);
    SetIsContainer(c, q[1..], x);
    var wp, wq := Set(c, p[1..], x).value, Set(c, q[1..], x).value;
    assert Child(f[p[0] := wp], q[0]) == wp && Child(f[q[0] := wq], p[0]) == wq;
    assert Set(wq, p[1..], x).Updated? ==>
      Properties(Set(Set(v, q, x).value, p, x).value)[p[0]] == Set(wq, p[1..], x).value;
    assert Set(wp, q[1..], x).Updated? ==>
      Properties(Set(Set(v, p, x).value, q, x).value)[q[0]] == Set(wp, q[1..], x).value;
  }

  // Independent paths commute under all updates exactly when neither sets the length of an array the
  // other goes into by an index.
  lemma CommuteIff(v: Value, p: Path, q: Path)
    requires p != [] && q != [] && Independent(p, q) && Assignable(v, p) && Assignable(v, q)
    ensures (forall x, y :: Set(v, p, x).Updated? && Set(v, q, y).Updated? ==> Commute(v, p, x, q, y))
       <==> !Disturbs(v, p, q) && !Disturbs(v, q, p)
  {
    var z := Assign(Null, Some(0));
    if Disturbs(v, p, q) {
      DisturbedDiffer(v, p, q, z);
    } else if Disturbs(v, q, p) {
      DisturbedDiffer(v, q, p, z);
      assert !Commute(v, p, z, q, z);
    } else {
      forall x, y | Set(v, p, x).Updated? && Set(v, q, y).Updated? ensures Commute(v, p, x, q, y) {
        SetsCommute(v, p, x, q, y);
      }
    }
  }

  // ---- Surfaces ----

  datatype Component = Component(id: string, body: string)

  datatype Surface = Surface(
    catalogId: string, theme: Option<string>, components: map<string, Component>, dataModel: Value, rootId: Option<string>)

  datatype Message =
    | CreateSurface(surfaceId: string, catalogId: string, theme: Option<string>)
    | UpdateComponents(surfaceId: string, components: seq<Component>)
    | UpdateDataModel(surfaceId: string, path: string, change: Change)
    | DeleteSurface(surfaceId: string)

  // Processing ends early when an update throws.
  datatype Result<T> = Ok(value: T) | Threw

  type Surfaces = map<string, Surface>

  function NonEmpty(parts: seq<string>): seq<string> {
    if parts == [] then []
    else (if parts[0] == "" then [] else [parts[0]]) + NonEmpty(parts[1..])
  }

  // The non-empty segments between slashes; a path of slashes only leaves no last segment, which
  // the update then takes as the key "undefined".
  function SegmentsOf(path: string): (segments: Path)
    ensures segments != []
  {
    var segments := NonEmpty(Framing.Split(path, "/"));
    if segments == [] then ["undefined"] else segments
  }

  function AddComponents(s: Surface, components: seq<Component>): Surface
    decreases |components|
  {
    if components == [] then s
    else
      var c := components[0];
      AddComponents(s.(components := s.components[c.id := c], rootId := if c.id == "root" then Some("root") else s.rootId),
                    components[1..])
  }

  // The effect of a message on the surface it names, absent surfaces included.
  function StepOne(current: Option<Surface>, msg: Message): Result<Option<Surface>> {
    match msg
    case CreateSurface(_, catalogId, theme) => Ok(Some(Surface(catalogId, theme, map[], Object(map[]), None)))
    case UpdateComponents(_, components) =>
      Ok(if current.Some? then Some(AddComponents(current.value, components)) else None)
    case UpdateDataModel(_, path, change) =>
      if current.None? then Ok(None)
      else if path == "" || path == "/" then
        Ok(Some(current.value.(dataModel := if change.Assign? && !change.value.Null? then change.value else Object(map[]))))
      else
        (match Set(current.value.dataModel, SegmentsOf(path), change)
         case Updated(model) => Ok(Some(current.value.(dataModel := model)))
         case Throws => Threw)
    case DeleteSurface(_) => Ok(None)
  }

  function Lookup(surfaces: Surfaces, id: string): Option<Surface> {
    if id in surfaces then Some(surfaces[id]) else None
  }

  function Store(surfaces: Surfaces, id: string, s: Option<Surface>): Surfaces {
    if s.Some? then surfaces[id := s.value] else surfaces - {id}
  }

  function Process(surfaces: Surfaces, messages: seq<Message>): Result<Surfaces>
    decreases |messages|
  {
    if messages == [] then Ok(surfaces)
    else
      var id := messages[0].surfaceId;
      var r := StepOne(Lookup(surfaces, id), messages[0]);
      if r.Ok? then Process(Store(surfaces, id, r.value), messages[1..]) else Threw
  }

  // ---- Segments ----

  predicate NoSlash(s: string) {
    '/' !in s
  }

  function Parts(path: string): Path {
    NonEmpty(Framing.Split(path, "/"))
  }

  lemma {:induction false} NonEmptyAppend(a: seq<string>, b: seq<string>)
    ensures NonEmpty(a + b) == NonEmpty(a) + NonEmpty(b)
  {
    if a == [] {
      assert a + b == b;
    } else {
      assert (a + b)[1..] == a[1..] + b;
      NonEmptyAppend(a[1..], b);
    }
  }

  lemma SlashAt(s: string, k: nat)
    ensures Framing.At(s, "/", k) <==> k < |s| && s[k] == '/'
  {
    if k < |s| {
      assert s[k..k + 1] == [s[k]];
    }
  }

  lemma SplitClean(s: string)
    requires NoSlash(s)
    ensures Framing.Split(s, "/") == [s]
  {
    SlashAt(s, Framing.IndexOf(s, "/"));
  }

  lemma SplitAtSlash(s: string, rest: string)
    requires NoSlash(s)
    ensures Framing.Split(s + "/" + rest, "/") == [s] + Framing.Split(rest, "/")
  {
    var t := s + "/" + rest;
    forall k: nat {:trigger Framing.At(t, "/", k)} | k <= |s| ensures Framing.At(t, "/", k) <==> k == |s| {
      SlashAt(t, k);
    }
    Framing.IndexUnique(t, "/", |s|);
    assert t[..|s|] == s && t[|s| + 1..] == rest;
  }

  lemma PartsFirst(s: string, rest: string)
    requires NoSlash(s)
    ensures Parts(s + "/" + rest) == Parts(s) + Parts(rest)
  {
    SplitClean(s);
    SplitAtSlash(s, rest);
    NonEmptyAppend([s], Framing.Split(rest, "/"));
  }

  lemma {:induction false} FirstSlash(a: string) returns (head: string, tail: string)
    requires !NoSlash(a)
    ensures a == head + "/" + tail && NoSlash(head)
    decreases |a|
  {
    if a[0] == '/' {
      head, tail := "", a[1..];
      assert a == "/" + tail && "" + "/" == "/";
    } else {
      var h, t := FirstSlash(a[1..]);
      head, tail := [a[0]] + h, t;
      assert a == [a[0]] + a[1..];
      Associative([a[0]], h, "/");
      Associative([a[0]], h + "/", t);
    }
  }

  lemma Regroup(a: string, b: string, c: string)
    ensures (a + "/" + b) + "/" + c == a + "/" + (b + "/" + c)
  {
  }

  // A slash separates: the segments before it and those behind it are the segments.
  lemma {:induction false} PartsAroundSlash(a: string, b: string)
    ensures Parts(a + "/" + b) == Parts(a) + Parts(b)
    decreases |a|
  {
    hide Parts, NoSlash;
    if NoSlash(a) {
      PartsFirst(a, b);
    } else {
      var head, tail := FirstSlash(a);
      PartsFirst(head, tail);
      PartsFirst(head, tail + "/" + b);
      PartsAroundSlash(tail, b);
      Regroup(head, tail, b);
      Associative(Parts(head), Parts(tail), Parts(b));
    }
  }

  // Text without a slash is one segment, or none if it is empty.
  lemma PartsOfOne(s: string)
    requires NoSlash(s)
    ensures Parts(s) == if s == "" then [] else [s]
  {
    SplitClean(s);
    var none: Path := [];
    assert [s][1..] == none && [s] + none == [s];
    assert NonEmpty([s]) == (if s == "" then none else [s]) + NonEmpty(none);
  }

  // A path written with slashes is read as its segments.
  lemma SegmentsOfPath(p: Path)
    requires p != [] && forall i :: 0 <= i < |p| ==> p[i] != "" && NoSlash(p[i])
    ensures SegmentsOf("/" + Join(p, "/")) == p
  {
    PartsOfOne("");
    PartsAroundSlash("", Join(p, "/"));
    assert "" + "/" + Join(p, "/") == "/" + Join(p, "/");
    PartsOfJoin(p);
  }

  lemma {:induction false} PartsOfJoin(p: Path)
    requires p != [] && forall i :: 0 <= i < |p| ==> p[i] != "" && NoSlash(p[i])
    ensures Parts(Join(p, "/")) == p
  {
    PartsOfOne(p[0]);
    if |p| > 1 {
      PartsOfJoin(p[1..]);
      PartsAroundSlash(p[0], Join(p[1..], "/"));
    }
  }

  // A path of slashes only names the key "undefined".
  lemma SlashesOnly(path: string)
    requires forall c :: c in path ==> c == '/'
    ensures SegmentsOf(path) == ["undefined"]
  {
    NoParts(path);
  }

  lemma {:induction false} NoParts(path: string)
    requires forall c :: c in path ==> c == '/'
    ensures Parts(path) == []
  {
    hide Parts;
    PartsOfOne("");
    if path != "" {
      assert path[0] in path;
      assert path == "" + "/" + path[1..];
      PartsAroundSlash("", path[1..]);
      assert forall c :: c in path[1..] ==> c in path;
      NoParts(path[1..]);
    }
  }

  // ---- What a message does ----

  // Of the components with one id the last one stays; the others are kept.
  ghost predicate Adds(a: map<string, Component>, components: seq<Component>, b: map<string, Component>) {
    && (forall key :: key in b <==> key in a || Brings(components, key))
    && (forall k :: 0 <= k < |components| && (forall j :: k < j < |components| ==> components[j].id != components[k].id)
          ==> components[k].id in b && b[components[k].id] == components[k])
    && forall key :: key in a && !Brings(components, key) ==> key in b && b[key] == a[key]
  }

  ghost predicate Brings(components: seq<Component>, key: string) {
    exists k :: 0 <= k < |components| && components[k].id == key
  }

  // The message turns the surface s into t.
  ghost predicate Turns(s: Surface, msg: Message, t: Surface) {
    match msg
    case UpdateComponents(_, components) =>
      && t.catalogId == s.catalogId && t.theme == s.theme && t.dataModel == s.dataModel
      && Adds(s.components, components, t.components)
      && t.rootId == if Brings(components, "root") then Some("root") else s.rootId
    case UpdateDataModel(_, path, change) =>
      && t.catalogId == s.catalogId && t.theme == s.theme && t.components == s.components && t.rootId == s.rootId
      && (if path == "" || path == "/"
          then t.dataModel == if change.Delete? || change.value == Null then Object(map[]) else change.value
          else Writes(s.dataModel, SegmentsOf(path), change, t.dataModel))
    case _ => false
  }

  // The message turns the surfaces a into b.
  ghost predicate Handles(a: Surfaces, msg: Message, b: Surfaces) {
    var id := msg.surfaceId;
    && (forall other :: other != id ==> (other in a <==> other in b) && (other in a ==> b[other] == a[other]))
    && match msg
       case CreateSurface(_, catalogId, theme) => id in b && b[id] == Surface(catalogId, theme, map[], Object(map[]), None)
       case DeleteSurface(_) => id !in b
       case _ => if id in a then id in b && Turns(a[id], msg, b[id]) else id !in b
  }

  lemma {:induction false} ComponentsAdded(s: Surface, components: seq<Component>)
    ensures var t := AddComponents(s, components);
            && t == s.(components := t.components, rootId := t.rootId)
            && t.rootId == (if Brings(components, "root") then Some("root") else s.rootId)
    decreases |components|
  {
    if components != [] {
      var c := components[0];
      ComponentsAdded(s.(components := s.components[c.id := c], rootId := if c.id == "root" then Some("root") else s.rootId),
                      components[1..]);
      if k :| 0 <= k < |components| && components[k].id == "root" {
        assert k > 0 ==> components[1..][k - 1].id == "root";
      }
    }
  }

  lemma {:induction false} LastComponentWins(s: Surface, components: seq<Component>)
    ensures Adds(s.components, components, AddComponents(s, components).components)
    decreases |components|
  {
    if components != [] {
      var c := components[0];
      var next := s.(components := s.components[c.id := c], rootId := if c.id == "root" then Some("root") else s.rootId);
      LastComponentWins(next, components[1..]);
      AddsFirst(s.components, components, AddComponents(s, components).components);
    }
  }

  lemma BringsFirst(components: seq<Component>, key: string)
    requires components != []
    ensures Brings(components, key) <==> key == components[0].id || Brings(components[1..], key)
  {
    var rest := components[1..];
    if k :| 0 <= k < |components| && components[k].id == key {
      assert k > 0 ==> rest[k - 1].id == key;
    }
    if k :| 0 <= k < |rest| && rest[k].id == key {
      assert components[k + 1].id == key;
    }
  }

  lemma LastStays(a: map<string, Component>, components: seq<Component>, b: map<string, Component>, k: nat)
    requires Adds(a, components, b)
    requires k < |components| && forall j :: k < j < |components| ==> components[j].id != components[k].id
    ensures components[k].id in b && b[components[k].id] == components[k]
  {
    hide Brings;
  }

  lemma OtherStays(a: map<string, Component>, components: seq<Component>, b: map<string, Component>, key: string)
    requires Adds(a, components, b) && key in a && !Brings(components, key)
    ensures key in b && b[key] == a[key]
  {
    hide Brings;
  }

  lemma LastIsBrought(a: map<string, Component>, components: seq<Component>, b: map<string, Component>, k: nat)
    requires components != [] && Adds(a[components[0].id := components[0]], components[1..], b)
    requires k < |components| && forall j :: k < j < |components| ==> components[j].id != components[k].id
    ensures components[k].id in b && b[components[k].id] == components[k]
  {
    hide Adds;
    var more, rest := a[components[0].id := components[0]], components[1..];
    assert forall j :: 0 <= j < |rest| ==> rest[j] == components[j + 1];
    if k > 0 {
      LastStays(more, rest, b, k - 1);
    } else {
      assert !Brings(rest, components[0].id);
      OtherStays(more, rest, b, components[0].id);
    }
  }

  lemma AddsFirst(a: map<string, Component>, components: seq<Component>, b: map<string, Component>)
    requires components != [] && Adds(a[components[0].id := components[0]], components[1..], b)
    ensures Adds(a, components, b)
  {
    hide Brings;
    forall key ensures Brings(components, key) <==> key == components[0].id || Brings(components[1..], key) {
      BringsFirst(components, key);
    }
    forall k | 0 <= k < |components| && forall j :: k < j < |components| ==> components[j].id != components[k].id
      ensures components[k].id in b && b[components[k].id] == components[k]
    {
      LastIsBrought(a, components, b, k);
    }
  }

  lemma MessageTurns(s: Surface, msg: Message)
    requires msg.UpdateComponents? || msg.UpdateDataModel?
    ensures var r := StepOne(Some(s), msg);
            && (r.Ok? ==> r.value.Some? && Turns(s, msg, r.value.value))
            && (r.Threw? ==> forall t :: !Turns(s, msg, t))
  {
    hide Adds, Brings, Writes, Set, SegmentsOf;
    match msg
    case UpdateComponents(_, components) =>
      ComponentsAdded(s, components);
      LastComponentWins(s, components);
    case UpdateDataModel(_, path, change) =>
      if path != "" && path != "/" {
        forall w ensures Set(s.dataModel, SegmentsOf(path), change) == Updated(w)
          <==> Writes(s.dataModel, SegmentsOf(path), change, w) {
          UpdateWrites(s.dataModel, SegmentsOf(path), change, w);
        }
      }
  }

  // A message goes through and does what it says, or throws when nothing would.
  lemma MessageHandled(surfaces: Surfaces, msg: Message)
    ensures var r := StepOne(Lookup(surfaces, msg.surfaceId), msg);
            && (r.Ok? ==> Handles(surfaces, msg, Store(surfaces, msg.surfaceId, r.value)))
            && (r.Threw? ==> forall b :: !Handles(surfaces, msg, b))
  {
    hide Turns, AddComponents;
    if msg.surfaceId in surfaces && (msg.UpdateComponents? || msg.UpdateDataModel?) {
      MessageTurns(surfaces[msg.surfaceId], msg);
    }
  }

  // The surfaces after each message, none first.
  ghost predicate Handled(messages: seq<Message>, states: seq<Surfaces>) {
    && |states| == |messages| + 1 && states[0] == map[]
    && forall k :: 0 <= k < |messages| ==> Handles(states[k], messages[k], states[k + 1])
  }

  // Every message was handled, or the first that nothing can handle ended the run.
  ghost predicate RunsTo(messages: seq<Message>, result: Result<Surfaces>) {
    match result
    case Ok(surfaces) => exists states :: Handled(messages, states) && states[|messages|] == surfaces
    case Threw => exists n: nat, states :: n < |messages| && Handled(messages[..n], states)
                                        && forall b :: !Handles(states[n], messages[n], b)
  }

  lemma HandledNext(messages: seq<Message>, states: seq<Surfaces>, msg: Message, b: Surfaces)
    requires Handled(messages, states) && Handles(states[|messages|], msg, b)
    ensures Handled(messages + [msg], states + [b])
  {
    hide Handles;
    var h, s := messages + [msg], states + [b];
    forall k | 0 <= k < |h| ensures Handles(s[k], h[k], s[k + 1]) {
      if k < |messages| {
        assert s[k] == states[k] && h[k] == messages[k] && s[k + 1] == states[k + 1];
      }
    }
  }

  function Naming(messages: seq<Message>, id: string): seq<Message> {
    if messages == [] then []
    else (if messages[0].surfaceId == id then [messages[0]] else []) + Naming(messages[1..], id)
  }

  // One surface on its own.
  function ProcessOne(current: Option<Surface>, messages: seq<Message>): Result<Option<Surface>>
    decreases |messages|
  {
    if messages == [] then Ok(current)
    else
      var r := StepOne(current, messages[0]);
      if r.Ok? then ProcessOne(r.value, messages[1..]) else Threw
  }

  lemma NamingStep(messages: seq<Message>, id: string, current: Option<Surface>)
    requires messages != []
    ensures messages[0].surfaceId == id ==>
      Naming(messages, id) == [messages[0]] + Naming(messages[1..], id)
      && var r := StepOne(current, messages[0]);
         ProcessOne(current, Naming(messages, id))
           == if r.Ok? then ProcessOne(r.value, Naming(messages[1..], id)) else Threw
    ensures messages[0].surfaceId != id ==> Naming(messages, id) == Naming(messages[1..], id)
  {
    if messages[0].surfaceId == id {
      assert Naming(messages, id)[1..] == Naming(messages[1..], id);
    }
  }

  // A surface ends up as if only the messages naming it had been processed.
  lemma {:induction false} SurfaceDependsOnOwnMessages(surfaces: Surfaces, messages: seq<Message>, id: string)
    requires Process(surfaces, messages).Ok?
    ensures ProcessOne(Lookup(surfaces, id), Naming(messages, id)) == Ok(Lookup(Process(surfaces, messages).value, id))
    decreases |messages|
  {
    if messages != [] {
      var named := messages[0].surfaceId;
      var s := StepOne(Lookup(surfaces, named), messages[0]).value;
      NamingStep(messages, id, Lookup(surfaces, id));
      SurfaceDependsOnOwnMessages(Store(surfaces, named, s), messages[1..], id);
    }
  }

  // Processing fails exactly when the messages of some surface fail on their own.
  lemma {:induction false} SucceedsIffEachSurfaceDoes(surfaces: Surfaces, messages: seq<Message>)
    ensures Process(surfaces, messages).Ok?
       <==> forall id :: ProcessOne(Lookup(surfaces, id), Naming(messages, id)).Ok?
    decreases |messages|
  {
    if Process(surfaces, messages).Ok? {
      forall id ensures ProcessOne(Lookup(surfaces, id), Naming(messages, id)).Ok? {
        SurfaceDependsOnOwnMessages(surfaces, messages, id);
      }
    }
    if forall id :: ProcessOne(Lookup(surfaces, id), Naming(messages, id)).Ok? {
      if messages != [] {
        var named := messages[0].surfaceId;
        NamingStep(messages, named, Lookup(surfaces, named));
        assert ProcessOne(Lookup(surfaces, named), Naming(messages, named)).Ok?;
        var s := StepOne(Lookup(surfaces, named), messages[0]).value;
        forall id ensures ProcessOne(Lookup(Store(surfaces, named, s), id), Naming(messages[1..], id)).Ok? {
          NamingStep(messages, id, Lookup(surfaces, id));
          assert ProcessOne(Lookup(surfaces, id), Naming(messages, id)).Ok?;
        }
        SucceedsIffEachSurfaceDoes(Store(surfaces, named, s), messages[1..]);
      }
    }
  }

  lemma {:induction false} ProcessAppend(surfaces: Surfaces, messages: seq<Message>, msg: Message)
    ensures var r := Process(surfaces, messages);
            Process(surfaces, messages + [msg]) == if r.Ok? then Process(r.value, [msg]) else r
    decreases |messages|
  {
    if messages == [] {
      assert messages + [msg] == [msg];
    } else {
      assert (messages + [msg])[1..] == messages[1..] + [msg];
      var id := messages[0].surfaceId;
      var r := StepOne(Lookup(surfaces, id), messages[0]);
      if r.Ok? {
        ProcessAppend(Store(surfaces, id, r.value), messages[1..], msg);
      }
    }
  }

  // processA2UIMessages.
  method ProcessMessages(messages: seq<Message>) returns (result: Result<Surfaces>)
    ensures result == Process(map[], messages)
    ensures RunsTo(messages, result)
    ensures result.Ok? ==> forall id :: ProcessOne(None, Naming(messages, id)) == Ok(Lookup(result.value, id))
  {
    hide StepOne, Handles;
    var surfaces: Surfaces := map[];
    ghost var states := [surfaces];
    for i := 0 to |messages|
      invariant Process(map[], messages[..i]) == Ok(surfaces)
      invariant Handled(messages[..i], states) && states[i] == surfaces
    {
      var msg := messages[i];
      assert messages[..i + 1] == messages[..i] + [msg];
      ProcessAppend(map[], messages[..i], msg);
      var step := StepOne(Lookup(surfaces, msg.surfaceId), msg);
      MessageHandled(surfaces, msg);
      if step.Threw? {
        FailedStays(map[], messages, i + 1);
        return Threw;
      }
      surfaces := Store(surfaces, msg.surfaceId, step.value);
      HandledNext(messages[..i], states, msg, surfaces);
      states := states + [surfaces];
      assert Process(surfaces, []) == Ok(surfaces);
    }
    assert messages[..|messages|] == messages;
    result := Ok(surfaces);
    forall id ensures ProcessOne(None, Naming(messages, id)) == Ok(Lookup(surfaces, id)) {
      SurfaceDependsOnOwnMessages(map[], messages, id);
    }
  }

  lemma {:induction false} FailedStays(surfaces: Surfaces, messages: seq<Message>, n: nat)
    requires n <= |messages| && Process(surfaces, messages[..n]).Threw?
    ensures Process(surfaces, messages) == Process(surfaces, messages[..n])
    decreases |messages| - n
  {
    if n < |messages| {
      assert messages[..n + 1] == messages[..n] + [messages[n]];
      ProcessAppend(surfaces, messages[..n], messages[n]);
      FailedStays(surfaces, messages, n + 1);
    } else {
      assert messages[..n] == messages;
    }
  }
}
