// The visitor of the icon codemod: which elements are replaced, and under which local names.
module IconCodemod {
  import opened Wrappers
  import opened TextEdits
  import opened Text
  import Graphs

  // A syntax tree node. JSX elements whose signature is known carry a mark, as do the statements
  // behind which an import may go: string directives and import declarations.
  datatype Mark = Plain | Ignored | Icon(name: string) | Directive | Import
  datatype Node = Node(start: nat, end: nat, mark: Mark, children: seq<Node>)

  predicate Leading(node: Node) {
    node.mark.Directive? || node.mark.Import?
  }

  // Children lie inside their parent, in source order, without overlap; icons and import
  // declarations are not empty; directives and import declarations hold no elements.
  predicate WellFormed(node: Node) {
    && node.start <= node.end && (node.mark.Icon? || Leading(node) ==> node.start < node.end)
    && (Leading(node) ==> node.children == [])
    && (forall i :: 0 <= i < |node.children| ==>
          node.start <= node.children[i].start && node.children[i].end <= node.end)
    && (forall i, j :: 0 <= i < j < |node.children| ==> node.children[i].end <= node.children[j].start)
    && forall c :: c in node.children ==> WellFormed(c)
  }

  // The elements that are replaced, in source order: an ignored or replaced element is not entered.
  function Icons(node: Node): seq<Node>
    decreases node, 1
  {
    match node.mark
    case Ignored => []
    case Icon(_) => [node]
    case _ => IconsOf(node.children)
  }

  function IconsOf(nodes: seq<Node>): seq<Node>
    decreases nodes, 0
  {
    if nodes == [] then [] else Icons(nodes[0]) + IconsOf(nodes[1..])
  }

  // The path of child positions leads from the node to an icon, past no ignored or replaced element.
  ghost predicate Exposed(node: Node, path: seq<nat>, icon: Node)
    decreases |path|
  {
    if path == [] then icon == node && node.mark.Icon?
    else node.mark != Ignored && !node.mark.Icon? && path[0] < |node.children|
         && Exposed(node.children[path[0]], path[1..], icon)
  }

  ghost predicate IsExposed(node: Node, icon: Node) {
    exists path: seq<nat> :: Exposed(node, path, icon)
  }

  // The replaced elements are the exposed icons.
  lemma {:induction false} IconsAreExposed(node: Node, icon: Node)
    ensures icon in Icons(node) <==> IsExposed(node, icon)
    decreases node, 1
  {
    if icon in Icons(node) {
      var path := ExposedPath(node, icon);
    }
    if path: seq<nat> :| Exposed(node, path, icon) {
      ExposedIsReplaced(node, path, icon);
    }
  }

  lemma {:induction false} ExposedPath(node: Node, icon: Node) returns (path: seq<nat>)
    requires icon in Icons(node)
    ensures Exposed(node, path, icon)
    decreases node, 1
  {
    if node.mark.Icon? {
      path := [];
    } else {
      var k := ExposedChild(node.children, icon);
      var rest := ExposedPath(node.children[k], icon);
      path := [k] + rest;
      assert path[1..] == rest;
    }
  }

  lemma {:induction false} ExposedChild(nodes: seq<Node>, icon: Node) returns (k: nat)
    requires icon in IconsOf(nodes)
    ensures k < |nodes| && icon in Icons(nodes[k])
    decreases |nodes|
  {
    if icon in Icons(nodes[0]) {
      k := 0;
    } else {
      var j := ExposedChild(nodes[1..], icon);
      k := j + 1;
    }
  }

  lemma {:induction false} ExposedIsReplaced(node: Node, path: seq<nat>, icon: Node)
    requires Exposed(node, path, icon)
    ensures icon in Icons(node)
    decreases |path|
  {
    if path != [] {
      ExposedIsReplaced(node.children[path[0]], path[1..], icon);
      ChildIcons(node.children, path[0], icon);
    }
  }

  lemma {:induction false} ChildIcons(nodes: seq<Node>, k: nat, icon: Node)
    requires k < |nodes| && icon in Icons(nodes[k])
    ensures icon in IconsOf(nodes)
    decreases |nodes|
  {
    if k > 0 {
      ChildIcons(nodes[1..], k - 1, icon);
    }
  }

  ghost predicate InOrder(icons: seq<Node>, from: nat, to: nat) {
    && (forall i :: 0 <= i < |icons| ==> from <= icons[i].start < icons[i].end <= to && icons[i].mark.Icon?)
    && forall i, j :: 0 <= i < j < |icons| ==> icons[i].end <= icons[j].start
  }

  lemma InOrderJoin(a: seq<Node>, b: seq<Node>, from: nat, mid: nat, mid': nat, to: nat)
    requires InOrder(a, from, mid) && InOrder(b, mid', to) && from <= mid' && mid <= mid' && mid <= to
    ensures InOrder(a + b, from, to)
  {
  }

  lemma {:induction false} IconsInOrder(node: Node)
    requires WellFormed(node)
    ensures InOrder(Icons(node), node.start, node.end)
    decreases node, 1
  {
    if !node.mark.Ignored? && !node.mark.Icon? {
      IconsOfInOrder(node.children, node.start, node.end);
    }
  }

  lemma {:induction false} IconsOfInOrder(nodes: seq<Node>, from: nat, to: nat)
    requires from <= to && forall c :: c in nodes ==> WellFormed(c)
    requires forall i :: 0 <= i < |nodes| ==> from <= nodes[i].start && nodes[i].end <= to
    requires forall i, j :: 0 <= i < j < |nodes| ==> nodes[i].end <= nodes[j].start
    ensures InOrder(IconsOf(nodes), from, to)
    decreases nodes, 0
  {
    if nodes != [] {
      assert nodes[0] in nodes;
      IconsInOrder(nodes[0]);
      assert forall c :: c in nodes[1..] ==> c in nodes;
      IconsOfInOrder(nodes[1..], nodes[0].end, to);
      InOrderJoin(Icons(nodes[0]), IconsOf(nodes[1..]), from, nodes[0].end, nodes[0].end, to);
    }
  }

  // ---- Names ----

  function Candidate(base: string, i: nat): string {
    base + "Icon" + Decimal(i)
  }

  lemma CandidatesDiffer(base: string, i: nat, j: nat)
    requires i != j
    ensures Candidate(base, i) != Candidate(base, j)
  {
    if Candidate(base, i) == Candidate(base, j) {
      assert Candidate(base, i)[|base + "Icon"|..] == Decimal(i);
      assert Candidate(base, j)[|base + "Icon"|..] == Decimal(j);
      DecimalInjective(i, j);
    }
  }

  // The candidates 1 .. i - 1 as a set.
  ghost function Tried(base: string, i: nat): set<string> {
    set k | 1 <= k < i :: Candidate(base, k)
  }

  // Pigeonhole: i - 1 different candidates cannot all be among fewer used names.
  lemma {:induction false} TriedSize(base: string, i: nat)
    requires i >= 1
    ensures |Tried(base, i)| == i - 1
    decreases i
  {
    if i == 1 {
      assert Tried(base, 1) == {};
    } else {
      TriedSize(base, i - 1);
      assert Tried(base, i) == Tried(base, i - 1) + {Candidate(base, i - 1)};
      if Candidate(base, i - 1) in Tried(base, i - 1) {
        var k :| 1 <= k < i - 1 && Candidate(base, k) == Candidate(base, i - 1);
        CandidatesDiffer(base, k, i - 1);
      }
    }
  }

  // Every name with a smaller number is used.
  ghost predicate TriedAll(base: string, i: nat, used: set<string>) {
    forall k: nat :: 1 <= k < i ==> base + "Icon" + Decimal(k) in used
  }

  // The base name, or the first numbered name that is not used.
  method PickName(base: string, used: set<string>) returns (name: string)
    ensures name !in used
    ensures base !in used ==> name == base
    ensures base in used ==> exists i: nat :: i >= 1 && name == base + "Icon" + Decimal(i) && TriedAll(base, i, used)
  {
    if base !in used { return base; }
    var i: nat := 1;
    while Candidate(base, i) in used
      invariant i >= 1 && Tried(base, i) <= used
      decreases |used| + 1 - i
    {
      assert Tried(base, i + 1) == Tried(base, i) + {Candidate(base, i)};
      TriedSize(base, i + 1);
      Graphs.SubsetSize(Tried(base, i + 1), used);
      i := i + 1;
    }
    name := Candidate(base, i);
    forall k: nat | 1 <= k < i ensures base + "Icon" + Decimal(k) in used {
      assert Candidate(base, k) in Tried(base, i);
    }
    assert TriedAll(base, i, used);
  }

  // ---- The transformer ----

  // `local` maps icon names to local names, `needed` those still to be imported.
  ghost predicate NamesOk(used0: set<string>, existing: map<string, string>,
                          used: set<string>, local: map<string, string>, needed: map<string, string>) {
    && used0 <= used && local.Values <= used
    && local.Keys == existing.Keys + needed.Keys && existing.Keys !! needed.Keys
    && (forall k :: k in existing ==> local[k] == existing[k])
    && (forall k :: k in needed ==> local[k] == needed[k] && needed[k] in used && needed[k] !in used0)
    && (forall k :: k in needed ==> NamedAfter(k, needed[k], used))
    && forall j, k :: j in needed && k in needed && needed[j] == needed[k] ==> j == k
  }

  // An icon goes by its own name, or by a numbered one if its own is in use.
  ghost predicate NamedAfter(name: string, local: string, used: set<string>) {
    local == name || (name in used && exists i: nat :: i >= 1 && local == name + "Icon" + Decimal(i))
  }

  ghost predicate Grown(a: map<string, string>, b: map<string, string>) {
    forall k :: k in a ==> k in b && b[k] == a[k]
  }

  class Transformer {
    ghost const used0: set<string>
    ghost const existing: map<string, string>
    const render: (string, Node) -> string
    var usedNames: set<string>
    var localByImported: map<string, string>
    var neededImports: map<string, string>
    var edits: seq<TextEdit>

    ghost predicate Valid()
      reads this
    {
      NamesOk(used0, existing, usedNames, localByImported, neededImports)
    }

    // The edit that replaces an icon element, under the names chosen so far.
    ghost predicate Replaces(e: TextEdit, icon: Node, local: map<string, string>) {
      icon.mark.Icon? && icon.mark.name in local
      && e == TextEdit(icon.start, icon.end, render(local[icon.mark.name], icon))
    }

    // The new edits replace exactly the given icons, in order.
    ghost predicate ReplacesAll(news: seq<TextEdit>, icons: seq<Node>, local: map<string, string>) {
      |news| == |icons| && forall i :: 0 <= i < |icons| ==> Replaces(news[i], icons[i], local)
    }

    constructor (used: set<string>, existing: map<string, string>, render: (string, Node) -> string)
      requires existing.Values <= used
      ensures Valid() && used0 == used && this.existing == existing && this.render == render
      ensures edits == [] && localByImported == existing && neededImports == map[]
    {
      this.used0, this.existing, this.render := used, existing, render;
      usedNames, localByImported, neededImports, edits := used, existing, map[], [];
    }

    method ResolveImportName(name: string) returns (local: string)
      requires Valid()
      modifies this`usedNames, this`localByImported, this`neededImports
      ensures Valid() && Grown(old(localByImported), localByImported)
      ensures name in localByImported && localByImported[name] == local
    {
      if name in localByImported {
        return localByImported[name];
      }
      if name in neededImports {
        // Names still to be imported are local names already, so this is never reached.
        assert false;
        return "";
      }
      local := PickName(name, usedNames);
      usedNames := usedNames + {local};
      localByImported := localByImported[name := local];
      neededImports := neededImports[name := local];
    }

    method Visit(node: Node)
      requires Valid()
      modifies this`usedNames, this`localByImported, this`neededImports, this`edits
      ensures Valid() && Grown(old(localByImported), localByImported)
      ensures |edits| >= |old(edits)| && edits[..|old(edits)|] == old(edits)
      ensures ReplacesAll(edits[|old(edits)|..], Icons(node), localByImported)
      decreases node
    {
      match node.mark {
        case Ignored => return;
        case Icon(name) =>
          var local := ResolveImportName(name);
          edits := edits + [TextEdit(node.start, node.end, render(local, node))];
          return;
        case _ =>
      }
      ghost var before := edits;
      for i := 0 to |node.children|
        invariant Valid() && Grown(old(localByImported), localByImported)
        invariant |edits| >= |before| && edits[..|before|] == before
        invariant ReplacesAll(edits[|before|..], IconsOf(node.children[..i]), localByImported)
      {
        ghost var local0, edits0 := localByImported, edits;
        Visit(node.children[i]);
        IconsOfSnoc(node.children, i);
        Extends(edits0[|before|..], IconsOf(node.children[..i]), local0,
                edits[|edits0|..], Icons(node.children[i]), localByImported);
        assert edits == edits0 + edits[|edits0|..];
        assert edits[|before|..] == edits0[|before|..] + edits[|edits0|..];
      }
      assert node.children[..|node.children|] == node.children;
    }

    lemma Extends(a: seq<TextEdit>, icons: seq<Node>, local0: map<string, string>,
                  b: seq<TextEdit>, more: seq<Node>, local: map<string, string>)
      requires ReplacesAll(a, icons, local0) && Grown(local0, local) && ReplacesAll(b, more, local)
      ensures ReplacesAll(a + b, icons + more, local)
    {
      forall i | 0 <= i < |icons + more| ensures Replaces((a + b)[i], (icons + more)[i], local) {
        if i < |icons| {
          assert Replaces(a[i], icons[i], local0);
        } else {
          assert Replaces(b[i - |icons|], more[i - |icons|], local);
        }
      }
    }
  }

  lemma {:induction false} IconsOfAppend(a: seq<Node>, b: seq<Node>)
    ensures IconsOf(a + b) == IconsOf(a) + IconsOf(b)
    decreases |a|
  {
    if a == [] {
      assert a + b == b;
    } else {
      assert (a + b)[1..] == a[1..] + b;
      IconsOfAppend(a[1..], b);
    }
  }

  lemma IconsOfSnoc(nodes: seq<Node>, i: nat)
    requires i < |nodes|
    ensures IconsOf(nodes[..i + 1]) == IconsOf(nodes[..i]) + Icons(nodes[i])
  {
    assert nodes[..i + 1] == nodes[..i] + [nodes[i]];
    IconsOfAppend(nodes[..i], [nodes[i]]);
    assert IconsOf([nodes[i]]) == Icons(nodes[i]) + IconsOf([]);
  }

  // ---- The import edit ----

  // The end of the last of the leading directives and imports.
  function InsertOffset(statements: seq<Node>, offset: nat): nat {
    if statements == [] || !Leading(statements[0]) then offset
    else InsertOffset(statements[1..], statements[0].end)
  }

  // The first k statements are directives and imports, no more follow, and the offset is where they end.
  ghost predicate BehindLeading(statements: seq<Node>, k: nat, offset: nat) {
    && k <= |statements|
    && (forall i :: 0 <= i < k ==> statements[i].mark == Directive || statements[i].mark == Import)
    && (k < |statements| ==> statements[k].mark != Directive && statements[k].mark != Import)
    && offset == if k == 0 then 0 else statements[k - 1].end
  }

  lemma {:induction false} LeadingCount(statements: seq<Node>, offset: nat) returns (k: nat)
    ensures k <= |statements|
    ensures forall i :: 0 <= i < k ==> statements[i].mark == Directive || statements[i].mark == Import
    ensures k < |statements| ==> statements[k].mark != Directive && statements[k].mark != Import
    ensures InsertOffset(statements, offset) == if k == 0 then offset else statements[k - 1].end
    decreases |statements|
  {
    if statements == [] || !Leading(statements[0]) {
      k := 0;
    } else {
      var j := LeadingCount(statements[1..], statements[0].end);
      k := j + 1;
    }
  }

  method FindImportInsertOffset(root: Node) returns (offset: nat)
    ensures offset == InsertOffset(root.children, 0)
    ensures exists k: nat :: BehindLeading(root.children, k, offset)
  {
    offset := 0;
    for i := 0 to |root.children|
      invariant InsertOffset(root.children, 0) == InsertOffset(root.children[i..], offset)
    {
      var statement := root.children[i];
      assert root.children[i..][1..] == root.children[i + 1..];
      if Leading(statement) {
        offset := statement.end;
        continue;
      }
      break;
    }
    ghost var k := LeadingCount(root.children, 0);
    assert BehindLeading(root.children, k, offset);
  }

  predicate NeedsNewline(text: string, offset: nat) {
    offset > 0 && !(Take(text, offset) != "" && Take(text, offset)[|Take(text, offset)| - 1] == '\n')
  }

  // The edit for the names still to be imported. `lucide` is the position of the declaration that
  // can take more names, if there is one; the texts of the declarations are given.
  function ImportEdit(text: string, root: Node, needed: map<string, string>, existing: map<string, string>,
                      lucide: Option<nat>, extended: (string, map<string, string>) -> string,
                      importLine: map<string, string> -> string): Option<TextEdit>
    requires lucide.Some? ==> lucide.value < |root.children|
  {
    if needed == map[] then None
    else if lucide.Some? then
      var declaration := root.children[lucide.value];
      if needed.Keys <= existing.Keys then None
      else Some(TextEdit(declaration.start, declaration.end,
                         extended(Slice(text, declaration.start, declaration.end), needed - existing.Keys)))
    else
      var offset := InsertOffset(root.children, 0);
      Some(TextEdit(offset, offset, (if NeedsNewline(text, offset) then "\n" else "") + importLine(needed)))
  }

  method BuildImportEdit(text: string, root: Node, needed: map<string, string>, existing: map<string, string>,
                         lucide: Option<nat>, extended: (string, map<string, string>) -> string,
                         importLine: map<string, string> -> string) returns (edit: Option<TextEdit>)
    requires lucide.Some? ==> lucide.value < |root.children|
    requires needed.Keys !! existing.Keys
    ensures edit == ImportEdit(text, root, needed, existing, lucide, extended, importLine)
    ensures edit.None? <==> needed == map[]
  {
    if needed == map[] { return None; }
    assert exists k :: k in needed;
    if lucide.Some? {
      var declaration := root.children[lucide.value];
      var toAdd := needed - existing.Keys;
      assert toAdd == needed;
      if toAdd == map[] { return None; }
      return Some(TextEdit(declaration.start, declaration.end,
                           extended(Slice(text, declaration.start, declaration.end), toAdd)));
    }
    var offset := FindImportInsertOffset(root);
    edit := Some(TextEdit(offset, offset, (if NeedsNewline(text, offset) then "\n" else "") + importLine(needed)));
  }

  // Leading statements end before any other statement starts.
  lemma {:induction false} OffsetBefore(statements: seq<Node>, offset: nat, m: nat)
    requires m < |statements| && !Leading(statements[m]) && offset <= statements[m].start
    requires forall i, j :: 0 <= i < j < |statements| ==> statements[i].end <= statements[j].start
    ensures InsertOffset(statements, offset) <= statements[m].start
    decreases |statements|
  {
    if Leading(statements[0]) {
      OffsetBefore(statements[1..], statements[0].end, m - 1);
    }
  }

  lemma {:induction false} OffsetWithin(statements: seq<Node>, offset: nat, limit: nat)
    requires offset <= limit && forall i :: 0 <= i < |statements| ==> statements[i].end <= limit
    ensures InsertOffset(statements, offset) <= limit
    decreases |statements|
  {
    if statements != [] && Leading(statements[0]) {
      OffsetWithin(statements[1..], statements[0].end, limit);
    }
  }

  lemma LeadingHasNoIcons(node: Node)
    requires WellFormed(node)
    ensures Leading(node) ==> Icons(node) == []
  {
    assert node.children == [] ==> IconsOf(node.children) == [];
  }

  // Each replaced element lies in one of the statements, which is not a leading one.
  lemma {:induction false} IconInStatement(statements: seq<Node>, i: nat) returns (m: nat)
    requires (forall c :: c in statements ==> WellFormed(c)) && i < |IconsOf(statements)|
    ensures m < |statements| && !Leading(statements[m])
    ensures statements[m].start <= IconsOf(statements)[i].start && IconsOf(statements)[i].end <= statements[m].end
    decreases |statements|
  {
    assert statements[0] in statements;
    var first, rest := Icons(statements[0]), statements[1..];
    assert IconsOf(statements) == first + IconsOf(rest);
    if i < |first| {
      m := 0;
      IconsInOrder(statements[0]);
      assert IconsOf(statements)[i] == first[i];
      LeadingHasNoIcons(statements[0]);
    } else {
      assert forall c :: c in rest ==> c in statements;
      var k := IconInStatement(rest, i - |first|);
      m := k + 1;
      assert statements[m] == rest[k] && IconsOf(statements)[i] == IconsOf(rest)[i - |first|];
    }
  }

  // ---- A whole file ----

  // The edit list handed over: the replaced icons, then the import edit if there is one.
  ghost predicate Collected(edits: seq<TextEdit>, icons: seq<Node>, importEdit: Option<TextEdit>) {
    && |edits| == |icons| + (if importEdit.Some? then 1 else 0)
    && (forall i :: 0 <= i < |icons| ==> edits[i].start == icons[i].start && edits[i].end == icons[i].end)
    && (importEdit.Some? ==> edits[|icons|] == importEdit.value)
  }

  // A whole source file; `lucide` is the position of an import declaration in it.
  predicate SourceFile(text: string, root: Node, lucide: Option<nat>) {
    && WellFormed(root) && root.mark.Plain? && root.end <= |text|
    && (lucide.Some? ==> lucide.value < |root.children| && root.children[lucide.value].mark.Import?)
  }

  // The import edit lies before or behind each replaced element; an empty one may start with it.
  ghost predicate ImportApart(icons: seq<Node>, importEdit: Option<TextEdit>) {
    importEdit.Some? ==>
      var e := importEdit.value;
      e.start <= e.end && forall i :: 0 <= i < |icons| ==>
        e.end <= icons[i].start || (icons[i].end <= e.start && icons[i].start < e.start)
  }

  lemma ImportIsApart(text: string, root: Node, needed: map<string, string>, existing: map<string, string>,
                      lucide: Option<nat>, extended: (string, map<string, string>) -> string,
                      importLine: map<string, string> -> string)
    requires SourceFile(text, root, lucide)
    ensures var edit := ImportEdit(text, root, needed, existing, lucide, extended, importLine);
            ImportApart(Icons(root), edit) && (edit.Some? ==> edit.value.end <= |text|)
  {
    var edit := ImportEdit(text, root, needed, existing, lucide, extended, importLine);
    if edit.Some? {
      OffsetWithin(root.children, 0, root.end);
      if lucide.Some? {
        assert root.children[lucide.value] in root.children;
        assert WellFormed(root.children[lucide.value]);
      }
      forall i | 0 <= i < |Icons(root)|
        ensures edit.value.end <= Icons(root)[i].start
             || (Icons(root)[i].end <= edit.value.start && Icons(root)[i].start < edit.value.start)
      {
        IconsInOrder(root);
        var m := IconInStatement(root.children, i);
        OffsetBefore(root.children, 0, m);
      }
    }
  }

  // What the import edit does: rewrite the declaration that takes more names, or put a line of its own
  // behind the leading statements. It is missing when no name is needed.
  ghost predicate ImportsNeeded(text: string, root: Node, needed: map<string, string>, lucide: Option<nat>,
                                extended: (string, map<string, string>) -> string,
                                importLine: map<string, string> -> string, edit: Option<TextEdit>)
  {
    && (edit.None? <==> needed == map[])
    && (edit.Some? && lucide.Some? ==>
          lucide.value < |root.children| && var d := root.children[lucide.value];
          d.start <= d.end <= |text| && edit.value == TextEdit(d.start, d.end, extended(text[d.start..d.end], needed)))
    && (edit.Some? && lucide.None? ==>
          exists k: nat, offset: nat :: BehindLeading(root.children, k, offset) && offset <= |text|
            && edit.value == TextEdit(offset, offset,
                 (if offset > 0 && text[offset - 1] != '\n' then "\n" else "") + importLine(needed)))
  }

  lemma ImportEditMeans(text: string, root: Node, needed: map<string, string>, existing: map<string, string>,
                        lucide: Option<nat>, extended: (string, map<string, string>) -> string,
                        importLine: map<string, string> -> string)
    requires SourceFile(text, root, lucide) && needed.Keys !! existing.Keys
    ensures ImportsNeeded(text, root, needed, lucide, extended, importLine,
                          ImportEdit(text, root, needed, existing, lucide, extended, importLine))
  {
    assert needed != map[] ==> exists name :: name in needed.Keys;
    if lucide.Some? {
      var d := root.children[lucide.value];
      assert d in root.children && WellFormed(d);
      assert needed - existing.Keys == needed;
    } else {
      var offset := InsertOffset(root.children, 0);
      OffsetWithin(root.children, 0, root.end);
      var k := LeadingCount(root.children, 0);
      assert BehindLeading(root.children, k, offset);
    }
  }

  lemma CollectedSeparate(edits: seq<TextEdit>, icons: seq<Node>, importEdit: Option<TextEdit>, from: nat, to: nat)
    requires InOrder(icons, from, to) && Collected(edits, icons, importEdit) && ImportApart(icons, importEdit)
    ensures Separate(edits)
  {
  }

  // The output is the text with all edits substituted at once.
  ghost predicate SubstitutesAll(text: string, edits: seq<TextEdit>, output: string) {
    exists ascending ::
      && Ascending(ascending) && (forall e :: e in ascending <==> e in edits)
      && output == Substitute(text, 0, ascending)
  }

  ghost predicate Named(edits: seq<TextEdit>, icons: seq<Node>, local: map<string, string>, render: (string, Node) -> string) {
    |icons| <= |edits| && forall i :: 0 <= i < |icons| ==>
      icons[i].mark.Icon? && icons[i].mark.name in local && edits[i].text == render(local[icons[i].mark.name], icons[i])
  }

  lemma CollectedSubstitute(text: string, root: Node, edits: seq<TextEdit>, importEdit: Option<TextEdit>)
    requires WellFormed(root) && root.end <= |text| && Collected(edits, Icons(root), importEdit)
    requires ImportApart(Icons(root), importEdit) && (importEdit.Some? ==> importEdit.value.end <= |text|)
    ensures SubstitutesAll(text, edits, ApplyTextEdits(text, edits))
  {
    hide Icons, Collected, ImportApart, Separate, Bounded, InOrder;
    IconsInOrder(root);
    CollectedSeparate(edits, Icons(root), importEdit, root.start, root.end);
    CollectedBounded(text, edits, Icons(root), importEdit, root.start, root.end);
    var ascending := AppliesAllAtOnce(text, edits);
  }

  lemma CollectedBounded(text: string, edits: seq<TextEdit>, icons: seq<Node>, importEdit: Option<TextEdit>, from: nat, to: nat)
    requires InOrder(icons, from, to) && to <= |text| && Collected(edits, icons, importEdit)
    requires ImportApart(icons, importEdit) && (importEdit.Some? ==> importEdit.value.end <= |text|)
    ensures Bounded(text, edits)
  {
  }

  // The visitor's edits: one for each icon, under the final names.
  method CollectEdits(root: Node, used: set<string>, existing: map<string, string>, render: (string, Node) -> string)
    returns (edits: seq<TextEdit>, needed: map<string, string>, ghost local: map<string, string>, ghost usedAfter: set<string>)
    requires existing.Values <= used
    ensures NamesOk(used, existing, usedAfter, local, needed)
    ensures Collected(edits, Icons(root), None) && Named(edits, Icons(root), local, render)
  {
    var transformer := new Transformer(used, existing, render);
    transformer.Visit(root);
    edits, needed := transformer.edits, transformer.neededImports;
    local, usedAfter := transformer.localByImported, transformer.usedNames;
    assert edits[0..] == edits;
    assert forall i :: 0 <= i < |Icons(root)| ==> transformer.Replaces(edits[i], Icons(root)[i], local);
  }

  // What becomes of a file: `local` are the names in use at the end, `edits` what was collected.
  ghost predicate Transformed(text: string, root: Node, used: set<string>, existing: map<string, string>,
                              render: (string, Node) -> string, importEdit: Option<TextEdit>,
                              output: string, needed: map<string, string>, local: map<string, string>, edits: seq<TextEdit>)
  {
    && (exists usedAfter :: NamesOk(used, existing, usedAfter, local, needed))
    && Collected(edits, Icons(root), importEdit) && Named(edits, Icons(root), local, render)
    && (importEdit.None? <==> needed == map[])
    && output == ApplyTextEdits(text, edits) && SubstitutesAll(text, edits, output)
  }

  // A declaration in the file or the import edit binds the icon as a value. `typeNames` are the names
  // of the declaration that are imported as types only.
  predicate BoundAsValue(name: string, existing: map<string, string>, typeNames: set<string>, needed: map<string, string>) {
    name in needed || (name in existing && name !in typeNames)
  }

  // All icons put into the file are bound as values exactly when it imports none of them as a type.
  lemma BoundAsValuesIff(text: string, root: Node, used: set<string>, existing: map<string, string>,
                         typeNames: set<string>, render: (string, Node) -> string, importEdit: Option<TextEdit>,
                         output: string, needed: map<string, string>, local: map<string, string>, edits: seq<TextEdit>)
    requires Transformed(text, root, used, existing, render, importEdit, output, needed, local, edits)
    requires typeNames <= existing.Keys
    ensures (forall i :: 0 <= i < |Icons(root)| ==> BoundAsValue(Icons(root)[i].mark.name, existing, typeNames, needed))
       <==> (forall i :: 0 <= i < |Icons(root)| ==> Icons(root)[i].mark.name !in typeNames)
  {
    var usedAfter :| NamesOk(used, existing, usedAfter, local, needed);
    forall i | 0 <= i < |Icons(root)|
      ensures BoundAsValue(Icons(root)[i].mark.name, existing, typeNames, needed) <==> Icons(root)[i].mark.name !in typeNames
    {
      assert Icons(root)[i].mark.name in local.Keys;
    }
  }

  // transformSourceFile, with the printer and the texts of import declarations as given functions.
  // `existing` are the names of the declaration found in the file.
  method TransformSourceFile(text: string, root: Node, used: set<string>, existing: map<string, string>,
                             render: (string, Node) -> string, lucide: Option<nat>,
                             extended: (string, map<string, string>) -> string,
                             importLine: map<string, string> -> string)
    returns (output: string, needed: map<string, string>)
    requires SourceFile(text, root, lucide) && existing.Values <= used
    ensures exists local, edits ::
      Transformed(text, root, used, existing, render,
                  ImportEdit(text, root, needed, existing, lucide, extended, importLine), output, needed, local, edits)
    ensures ImportsNeeded(text, root, needed, lucide, extended, importLine,
                          ImportEdit(text, root, needed, existing, lucide, extended, importLine))
    ensures forall icon :: icon in Icons(root) <==> IsExposed(root, icon)
  {
    hide WellFormed, ApplyTextEdits, Transformed, InsertOffset, ImportsNeeded, Icons, IsExposed;
    var all, names, locals, usedAfter := CollectEdits(root, used, existing, render);
    needed := names;
    var extra := BuildImportEdit(text, root, needed, existing, lucide, extended, importLine);
    if extra.Some? {
      all := all + [extra.value];
    }
    output := ApplyTextEdits(text, all);
    ImportIsApart(text, root, needed, existing, lucide, extended, importLine);
    ImportEditMeans(text, root, needed, existing, lucide, extended, importLine);
    forall icon ensures icon in Icons(root) <==> IsExposed(root, icon) {
      IconsAreExposed(root, icon);
    }
    EditsTransform(text, root, used, existing, render, extra, needed, locals, usedAfter, all);
  }

  lemma EditsTransform(text: string, root: Node, used: set<string>, existing: map<string, string>,
                       render: (string, Node) -> string, importEdit: Option<TextEdit>,
                       needed: map<string, string>, local: map<string, string>, usedAfter: set<string>, edits: seq<TextEdit>)
    requires WellFormed(root) && root.end <= |text| && NamesOk(used, existing, usedAfter, local, needed)
    requires Collected(edits, Icons(root), importEdit) && Named(edits, Icons(root), local, render)
    requires importEdit.None? <==> needed == map[]
    requires ImportApart(Icons(root), importEdit) && (importEdit.Some? ==> importEdit.value.end <= |text|)
    ensures Transformed(text, root, used, existing, render, importEdit, ApplyTextEdits(text, edits), needed, local, edits)
  {
    CollectedSubstitute(text, root, edits, importEdit);
  }
}
