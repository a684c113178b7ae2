/** The toolkit-free kernel of Peacock's input-file tree widget
    (gui/gui/InputFileTreeWidget.py): a forest of named items, each carrying a parameter
    table, parameter comments, a block comment and a check state.  Parsed input-file
    blocks are merged into it, hard syntax paths (with `*` wild cards) are materialised in
    it, and it is queried by name and by path.

    The tree is modelled on values: an item's children are a sequence of items, and a
    position in the tree is a sequence of child indices from the top level down. */
module InputFileTree {
  import opened Wrappers
  import opened PyStr

  /** One tree item: its text, `table_data`, `param_comments`, `comment`, check state and
      children, in display order. */
  datatype Item = Item(
    name: string,
    tableData: map<string, string>,
    paramComments: map<string, string>,
    comment: string,
    checked: bool,
    children: seq<Item>)

  /** A parsed input-file block (a `GPNode`): name, parameters, per-parameter comments,
      the comment lines above it and its sub-blocks in iteration order. */
  datatype Block = Block(
    name: string,
    params: map<string, string>,
    paramComments: map<string, string>,
    comments: seq<string>,
    children: seq<Block>)

  /** A freshly created item: unchecked, with empty data, comments and children. */
  function Blank(name: string): Item
  {
    Item(name, map[], map[], "", false, [])
  }

  /** The names of a list of sibling items, in order. */
  function Names(items: seq<Item>): (r: seq<string>)
    ensures |r| == |items|
    ensures forall i :: 0 <= i < |items| ==> r[i] == items[i].name
  {
    seq(|items|, i requires 0 <= i < |items| => items[i].name)
  }

  // ---------------------------------------------------------------------------------
  // Name lookup

  /** The position of the FIRST sibling with exactly this name (the lookup of
      `findChildItemWithName`). */
  function FirstIndex(items: seq<Item>, name: string): (r: Option<nat>)
    ensures r.Some? ==> r.value < |items| && items[r.value].name == name
    ensures r.Some? ==> forall j :: 0 <= j < r.value ==> items[j].name != name
    ensures r.None? ==> forall j :: 0 <= j < |items| ==> items[j].name != name
  {
    if items == [] then None
    else if items[0].name == name then Some(0)
    else match FirstIndex(items[1..], name)
      case None => None
      case Some(k) => Some(k + 1)
  }

  /** The position of the LAST sibling with this name (the scan of the hard-path insertion,
      which keeps overwriting its candidate). */
  function LastIndex(items: seq<Item>, name: string): (r: Option<nat>)
    ensures r.Some? ==> r.value < |items| && items[r.value].name == name
    ensures r.Some? ==> forall j :: r.value < j < |items| ==> items[j].name != name
    ensures r.None? ==> forall j :: 0 <= j < |items| ==> items[j].name != name
  {
    if items == [] then None
    else if items[|items| - 1].name == name then Some(|items| - 1)
    else LastIndex(items[..|items| - 1], name)
  }

  /** Both lookups depend on the sibling names alone. */
  lemma {:induction false} SameNamesSameIndex(a: seq<Item>, b: seq<Item>, name: string)
    requires Names(a) == Names(b)
    ensures FirstIndex(a, name) == FirstIndex(b, name)
    ensures LastIndex(a, name) == LastIndex(b, name)
  {
    assert |a| == |Names(a)| == |b|;
    forall i | 0 <= i < |a|
      ensures a[i].name == b[i].name
    {
      assert Names(a)[i] == Names(b)[i];
    }
    SameNamesFirst(a, b, name);
    SameNamesLast(a, b, name);
  }

  lemma {:induction false} SameNamesFirst(a: seq<Item>, b: seq<Item>, name: string)
    requires |a| == |b| && forall i :: 0 <= i < |a| ==> a[i].name == b[i].name
    ensures FirstIndex(a, name) == FirstIndex(b, name)
  {
    var fa, fb := FirstIndex(a, name), FirstIndex(b, name);
    if fa.Some? {
      assert b[fa.value].name == name;
    }
    if fb.Some? {
      assert a[fb.value].name == name;
    }
  }

  lemma {:induction false} SameNamesLast(a: seq<Item>, b: seq<Item>, name: string)
    requires |a| == |b| && forall i :: 0 <= i < |a| ==> a[i].name == b[i].name
    ensures LastIndex(a, name) == LastIndex(b, name)
  {
    var la, lb := LastIndex(a, name), LastIndex(b, name);
    if la.Some? {
      assert b[la.value].name == name;
    }
    if lb.Some? {
      assert a[lb.value].name == name;
    }
  }

  /** Appending a sibling does not move the first match of a name already present. */
  lemma {:induction false} FirstIndexAppend(items: seq<Item>, x: Item, name: string)
    requires FirstIndex(items, name).Some?
    ensures FirstIndex(items + [x], name) == FirstIndex(items, name)
  {
    assert forall i :: 0 <= i < |items| ==> (items + [x])[i] == items[i];
  }

  /** `findChildItemWithName`: scan the children in order and return the first whose name
      equals `name`, or nothing. */
  method FindChildItemWithName(children: seq<Item>, name: string) returns (r: Option<nat>)
    ensures r == FirstIndex(children, name)
  {
    for i := 0 to |children|
      invariant forall j :: 0 <= j < i ==> children[j].name != name
    {
      if children[i].name == name {
        return Some(i);
      }
    }
    return None;
  }

  /** `getChildNames`: the names of the children of an item, or the empty list when there
      is no item. */
  method GetChildNames(parent: Option<seq<Item>>) returns (names: seq<string>)
    ensures parent.None? ==> names == []
    ensures parent.Some? ==> names == Names(parent.value)
  {
    names := [];
    if parent.None? {
      return;
    }
    var children := parent.value;
    for i := 0 to |children|
      invariant names == Names(children[..i])
    {
      names := names + [children[i].name];
    }
    assert children[..|children|] == children;
  }

  // ---------------------------------------------------------------------------------
  // Positions and paths

  /** The item reached by following child indices from the top level, if they are in range. */
  function ItemAt(items: seq<Item>, idx: seq<nat>): Option<Item>
    decreases |idx|
  {
    if idx == [] || idx[0] >= |items| then None
    else if |idx| == 1 then Some(items[idx[0]])
    else ItemAt(items[idx[0]].children, idx[1..])
  }

  /** The names met along a position, from the top level down. */
  function NamesAlong(items: seq<Item>, idx: seq<nat>): Option<seq<string>>
    decreases |idx|
  {
    if idx == [] || idx[0] >= |items| then None
    else if |idx| == 1 then Some([items[idx[0]].name])
    else match NamesAlong(items[idx[0]].children, idx[1..])
      case None => None
      case Some(ns) => Some([items[idx[0]].name] + ns)
  }

  /** `generatePathFromItem` on the names from the top level down to the item: the
      parent's path, a slash, then the item's own text. */
  function GeneratePath(names: seq<string>): string
  {
    if names == [] then "" else GeneratePath(names[..|names| - 1]) + "/" + names[|names| - 1]
  }

  /** Joining one more part onto a non-empty join. */
  lemma {:induction false} JoinSnoc(parts: seq<string>, last: string, sep: string)
    requires |parts| >= 1
    ensures Join(parts + [last], sep) == Join(parts, sep) + sep + last
    decreases |parts|
  {
    if |parts| == 1 {
      assert (parts + [last])[1..] == [last];
    } else {
      assert (parts + [last])[1..] == parts[1..] + [last];
      JoinSnoc(parts[1..], last, sep);
    }
  }

  /** A generated path is a slash followed by the names joined with slashes. */
  lemma {:induction false} GeneratePathIsJoin(names: seq<string>)
    requires |names| >= 1
    ensures GeneratePath(names) == "/" + Join(names, "/")
    decreases |names|
  {
    if |names| == 1 {
      assert names[..0] == [];
    } else {
      var init := names[..|names| - 1];
      GeneratePathIsJoin(init);
      JoinSnoc(init, names[|names| - 1], "/");
      assert init + [names[|names| - 1]] == names;
    }
  }

  /** The characters `strip('/')` removes. */
  predicate IsSlash(ch: char)
  {
    ch == '/'
  }

  /** `getChildNamesOfPathRecurse`: walk the pieces by first-match name lookup and return
      the child names where the walk ends, or the empty list when a piece is missing. */
  function ChildNamesAlong(children: seq<Item>, pieces: seq<string>): seq<string>
    decreases |pieces|
  {
    if pieces == [] then Names(children)
    else match FirstIndex(children, pieces[0])
      case None => []
      case Some(k) => ChildNamesAlong(children[k].children, pieces[1..])
  }

  /** `getChildNamesOfPath`: strip slashes from both ends, split on slashes and walk from
      the top level. */
  function ChildNamesOfPath(items: seq<Item>, path: string): seq<string>
  {
    ChildNamesAlong(items, Split(Strip(path, IsSlash), '/'))
  }

  /** A missing piece anywhere on the walk gives the empty list. */
  lemma {:induction false} MissingPieceGivesNothing(children: seq<Item>, pieces: seq<string>)
    requires pieces != [] && FirstIndex(children, pieces[0]).None?
    ensures ChildNamesAlong(children, pieces) == []
  {
  }

  /** A name the path syntax can carry: non-empty and free of slashes. */
  predicate PathName(n: string)
  {
    n != [] && Free(n, '/')
  }

  /** A position whose every step is the first sibling of that name, so that a walk by
      name arrives there. */
  predicate FirstMatchPosition(items: seq<Item>, idx: seq<nat>)
    decreases |idx|
  {
    idx != [] && idx[0] < |items|
    && FirstIndex(items, items[idx[0]].name) == Some(idx[0])
    && PathName(items[idx[0]].name)
    && (|idx| > 1 ==> FirstMatchPosition(items[idx[0]].children, idx[1..]))
  }

  /** Walking the names along a first-match position ends at that item's children. */
  lemma {:induction false} WalkNamesAlong(items: seq<Item>, idx: seq<nat>)
    requires FirstMatchPosition(items, idx)
    ensures NamesAlong(items, idx).Some? && ItemAt(items, idx).Some?
    ensures ChildNamesAlong(items, NamesAlong(items, idx).value)
         == Names(ItemAt(items, idx).value.children)
    ensures forall i :: 0 <= i < |NamesAlong(items, idx).value| ==>
              PathName(NamesAlong(items, idx).value[i])
    decreases |idx|
  {
    if |idx| > 1 {
      WalkNamesAlong(items[idx[0]].children, idx[1..]);
    }
    var ns := NamesAlong(items, idx).value;
    assert ns[1..] == if |idx| == 1 then [] else NamesAlong(items[idx[0]].children, idx[1..]).value;
  }

  /** Round trip of the two path operations: the child names of the path generated for an
      item are that item's child names, when every name on the way is a plain path name
      reached by first match. */
  lemma {:induction false} PathRoundTrip(items: seq<Item>, idx: seq<nat>)
    requires FirstMatchPosition(items, idx)
    ensures NamesAlong(items, idx).Some? && ItemAt(items, idx).Some?
    ensures ChildNamesOfPath(items, GeneratePath(NamesAlong(items, idx).value))
         == Names(ItemAt(items, idx).value.children)
  {
    WalkNamesAlong(items, idx);
    var ns := NamesAlong(items, idx).value;
    assert |ns| >= 1 by { assert idx != []; }
    GeneratePathIsJoin(ns);
    var j := Join(ns, "/");
    SplitJoin(ns, '/');
    JoinEnds(ns, '/');
    assert ("/" + j)[1..] == j;
    assert LStrip("/" + j, IsSlash) == LStrip(j, IsSlash);
    StripClean(j, IsSlash);
  }

  /** A join of path names neither starts nor ends with the separator. */
  lemma {:induction false} JoinEnds(ns: seq<string>, c: char)
    requires |ns| >= 1
    requires forall i :: 0 <= i < |ns| ==> ns[i] != [] && Free(ns[i], c)
    ensures var j := Join(ns, [c]); j != [] && j[0] != c && j[|j| - 1] != c
    decreases |ns|
  {
    if |ns| > 1 {
      JoinEnds(ns[1..], c);
      var t := Join(ns[1..], [c]);
      assert Join(ns, [c]) == ns[0] + [c] + t;
      assert Join(ns, [c])[0] == ns[0][0];
    }
  }

  // ---------------------------------------------------------------------------------
  // Merging parsed blocks (`_addDataRecursively`)

  /** `is_active`: the parent has no `active` parameter, or the block's name is one of the
      space-separated tokens of that parameter. */
  predicate IsActive(parentParams: map<string, string>, name: string)
  {
    "active" !in parentParams || name in Split(parentParams["active"], ' ')
  }

  /** The block's own parameter record after the code stores the block name under `Name`
      in it; the item data is taken from this same record. */
  function Aliased(b: Block): map<string, string>
  {
    b.params["Name" := b.name]
  }

  /** `has_params`: some parameter other than `active`. */
  predicate HasParams(p: map<string, string>)
  {
    exists key :: key in p && key != "active"
  }

  /** Because the inserted `Name` entry is itself a parameter other than `active`, the
      `has_params` test can never fail. */
  lemma {:induction false} HasParamsAlways(b: Block)
    ensures HasParams(Aliased(b))
  {
    assert "Name" in Aliased(b);
  }

  /** The default `type` the Mesh and Problem blocks receive when they lack one. */
  function TypeDefaults(it: Item): Item
  {
    if it.name == "Mesh" && "type" !in it.tableData then
      it.(tableData := it.tableData["type" := "FileMesh"])
    else if it.name == "Problem" && "type" !in it.tableData then
      it.(tableData := it.tableData["type" := "FEProblem"])
    else it
  }

  /** Everything the merge writes into the item itself, before it descends into the
      sub-blocks. */
  function Fill(it: Item, parentParams: map<string, string>, b: Block): Item
  {
    var table := Aliased(b);
    var withData :=
      if HasParams(table) then it.(tableData := table - {"active"}, paramComments := b.paramComments)
      else it;
    TypeDefaults(withData.(comment := Join(b.comments, "\n"), checked := IsActive(parentParams, b.name)))
  }

  /** The item after merging block `b` into it: its own fields, then every sub-block merged
      into its children in order (the sub-blocks see the aliased record as their parent's
      parameters). */
  function Update(it: Item, parentParams: map<string, string>, b: Block): Item
    decreases b, 1
  {
    var f := Fill(it, parentParams, b);
    f.(children := MergeChildren(f.children, Aliased(b), b.children))
  }

  /** Merge one block among siblings: reuse the first same-named sibling, or append a blank
      one when there is none. */
  function MergeBlock(items: seq<Item>, parentParams: map<string, string>, b: Block): seq<Item>
    decreases b, 2
  {
    match FirstIndex(items, b.name)
    case Some(k) => items[k := Update(items[k], parentParams, b)]
    case None => items + [Update(Blank(b.name), parentParams, b)]
  }

  /** Merge a list of sibling blocks one after the other. */
  function MergeChildren(items: seq<Item>, parentParams: map<string, string>, bs: seq<Block>): seq<Item>
    decreases bs, 0
  {
    if bs == [] then items
    else MergeChildren(MergeBlock(items, parentParams, bs[0]), parentParams, bs[1..])
  }

  /** The position a block is merged at: the first same-named sibling, or the end. */
  function MergePosition(items: seq<Item>, name: string): nat
  {
    match FirstIndex(items, name)
    case Some(k) => k
    case None => |items|
  }

  /** What a merged item holds, stated against the block it came from. */
  predicate Reflects(it: Item, parentParams: map<string, string>, b: Block)
  {
    && it.name == b.name
    && it.checked == IsActive(parentParams, b.name)
    && it.comment == Join(b.comments, "\n")
    && it.paramComments == b.paramComments
    && "active" !in it.tableData
    && "Name" in it.tableData && it.tableData["Name"] == b.name
    && (forall key :: key in b.params && key != "active" && key != "Name" ==>
          key in it.tableData && it.tableData[key] == b.params[key])
    && (forall key :: key in it.tableData ==>
          key == "Name" || key in b.params || (key == "type" && b.name in {"Mesh", "Problem"}))
    && (b.name == "Mesh" && "type" !in b.params ==>
          "type" in it.tableData && it.tableData["type"] == "FileMesh")
    && (b.name == "Problem" && "type" !in b.params ==>
          "type" in it.tableData && it.tableData["type"] == "FEProblem")
  }

  /** Filling an item with a block's data: the item's own fields reflect the block,
      whatever the item held before; only its children are kept. */
  lemma {:induction false} FillReflects(it: Item, parentParams: map<string, string>, b: Block)
    requires it.name == b.name
    ensures Reflects(Fill(it, parentParams, b), parentParams, b)
    ensures Fill(it, parentParams, b).children == it.children
  {
    HasParamsAlways(b);
  }

  /** What the merge of one block does to a list of siblings: a same-named sibling is
      reused in place and nothing else changes; only when there is none is one appended,
      starting from a blank item with no children. Either way the merged item reflects the
      block and is what a later lookup of that name finds. */
  lemma {:induction false} MergeBlockEffect(items: seq<Item>, parentParams: map<string, string>, b: Block)
    ensures var r := MergeBlock(items, parentParams, b); var k := MergePosition(items, b.name);
      && (FirstIndex(items, b.name).Some? ==> |r| == |items|)
      && (FirstIndex(items, b.name).None? ==>
            (|r| == |items| + 1 && r[k].children == MergeChildren([], Aliased(b), b.children)))
      && (FirstIndex(items, b.name).Some? ==>
            r[k].children == MergeChildren(items[k].children, Aliased(b), b.children))
      && (forall j :: 0 <= j < |items| && j != k ==> r[j] == items[j])
      && Reflects(r[k], parentParams, b)
      && FirstIndex(r, b.name) == Some(k)
  {
    var k := MergePosition(items, b.name);
    match FirstIndex(items, b.name)
    case Some(_) =>
      UpdateReflects(items[k], parentParams, b);
      MergeReuses(items, parentParams, b, k);
    case None =>
      UpdateReflects(Blank(b.name), parentParams, b);
      MergeAppends(items, parentParams, b);
  }

  /** Merging into an item of the block's name: the item reflects the block, and its
      children are the block's sub-blocks merged into its old children. */
  lemma {:induction false} UpdateReflects(it: Item, parentParams: map<string, string>, b: Block)
    requires it.name == b.name
    ensures Reflects(Update(it, parentParams, b), parentParams, b)
    ensures Update(it, parentParams, b).children == MergeChildren(it.children, Aliased(b), b.children)
  {
    FillReflects(it, parentParams, b);
  }

  /** The merge of a block whose name is found at `k` only rewrites position `k`. */
  lemma {:induction false} MergeReuses(items: seq<Item>, parentParams: map<string, string>, b: Block, k: nat)
    requires FirstIndex(items, b.name) == Some(k)
    ensures var r := MergeBlock(items, parentParams, b);
      && |r| == |items| && r[k] == Update(items[k], parentParams, b)
      && (forall j :: 0 <= j < |items| && j != k ==> r[j] == items[j])
      && FirstIndex(r, b.name) == Some(k)
  {
    var r := MergeBlock(items, parentParams, b);
    assert r == items[k := Update(items[k], parentParams, b)];
    FillReflects(items[k], parentParams, b);
    assert forall j :: 0 <= j < |r| ==> Names(r)[j] == Names(items)[j];
    assert Names(r) == Names(items);
    SameNamesSameIndex(r, items, b.name);
  }

  /** The merge of a block whose name is missing appends one item, found at the end. */
  lemma {:induction false} MergeAppends(items: seq<Item>, parentParams: map<string, string>, b: Block)
    requires FirstIndex(items, b.name).None?
    ensures var r := MergeBlock(items, parentParams, b);
      && r == items + [Update(Blank(b.name), parentParams, b)]
      && FirstIndex(r, b.name) == Some(|items|)
  {
    var r := MergeBlock(items, parentParams, b);
    var x := Update(Blank(b.name), parentParams, b);
    FillReflects(Blank(b.name), parentParams, b);
    assert x.name == b.name;
    assert r == items + [x];
    assert forall j :: 0 <= j < |items| ==> r[j] == items[j];
    assert r[|items|] == x;
  }

  // --- merging the same data twice changes nothing

  /** The parsed blocks come from dictionaries keyed by name, so siblings have distinct
      names at every level. */
  predicate DistinctNames(bs: seq<Block>)
  {
    forall i, j :: 0 <= i < j < |bs| ==> bs[i].name != bs[j].name
  }

  predicate WellFormed(b: Block)
    decreases b, 0
  {
    DistinctNames(b.children) && WellFormedAll(b.children)
  }

  predicate WellFormedAll(bs: seq<Block>)
    decreases bs, 1
  {
    forall i :: 0 <= i < |bs| ==> WellFormed(bs[i])
  }

  /** Filling depends on the item's name and children only. */
  lemma {:induction false} FillForgets(it: Item, parentParams: map<string, string>, b: Block)
    ensures Fill(it, parentParams, b)
         == Fill(Blank(it.name), parentParams, b).(children := it.children)
  {
    HasParamsAlways(b);
  }

  /** Merging a block into an item twice is the same as once. */
  lemma {:induction false} UpdateTwice(it: Item, parentParams: map<string, string>, b: Block)
    requires WellFormed(b)
    ensures Update(Update(it, parentParams, b), parentParams, b) == Update(it, parentParams, b)
    decreases b, 1
  {
    var u := Update(it, parentParams, b);
    FillForgets(it, parentParams, b);
    FillForgets(u, parentParams, b);
    assert u.name == it.name;
    MergeChildrenTwice(it.children, Aliased(b), b.children);
  }

  /** Merging a block among siblings twice is the same as once. */
  lemma {:induction false} MergeBlockTwice(items: seq<Item>, parentParams: map<string, string>, b: Block)
    requires WellFormed(b)
    ensures MergeBlock(MergeBlock(items, parentParams, b), parentParams, b)
         == MergeBlock(items, parentParams, b)
    decreases b, 2
  {
    var r := MergeBlock(items, parentParams, b);
    MergeBlockEffect(items, parentParams, b);
    var k := MergePosition(items, b.name);
    match FirstIndex(items, b.name)
    case Some(_) =>
      UpdateTwice(items[k], parentParams, b);
    case None =>
      UpdateTwice(Blank(b.name), parentParams, b);
  }

  /** A block is absorbed by a list of siblings when merging it changes nothing. */
  predicate Absorbs(items: seq<Item>, parentParams: map<string, string>, b: Block)
  {
    MergeBlock(items, parentParams, b) == items
  }

  /** Merging a block of another name keeps a block absorbed. */
  lemma {:induction false} AbsorbsAfterOther(items: seq<Item>, parentParams: map<string, string>, b: Block, c: Block)
    requires Absorbs(items, parentParams, b) && c.name != b.name
    ensures Absorbs(MergeBlock(items, parentParams, c), parentParams, b)
  {
    var kb := MergePosition(items, b.name);
    if FirstIndex(items, b.name).None? {
      MergeAppends(items, parentParams, b);
      assert false;
    }
    MergeReuses(items, parentParams, b, kb);
    var y := MergeBlock(items, parentParams, c);
    MergeOtherKeeps(items, parentParams, b, c, kb);
    MergeReuses(y, parentParams, b, kb);
  }

  /** Merging a block of another name leaves `b`'s first position and the item there. */
  lemma {:induction false} MergeOtherKeeps(items: seq<Item>, parentParams: map<string, string>, b: Block, c: Block, kb: nat)
    requires FirstIndex(items, b.name) == Some(kb) && c.name != b.name
    ensures var y := MergeBlock(items, parentParams, c);
      FirstIndex(y, b.name) == Some(kb) && y[kb] == items[kb]
  {
    var y := MergeBlock(items, parentParams, c);
    var kc := MergePosition(items, c.name);
    if FirstIndex(items, c.name).Some? {
      MergeReuses(items, parentParams, c, kc);
      assert Names(y) == Names(items) by {
        assert forall j :: 0 <= j < |y| ==> Names(y)[j] == Names(items)[j];
      }
      SameNamesSameIndex(y, items, b.name);
    } else {
      MergeAppends(items, parentParams, c);
      FirstIndexAppend(items, Update(Blank(c.name), parentParams, c), b.name);
    }
  }

  /** Merging a list of blocks none of which has `b`'s name keeps `b` absorbed. */
  lemma {:induction false} AbsorbsAfterOthers(items: seq<Item>, parentParams: map<string, string>,
                                               b: Block, cs: seq<Block>)
    requires Absorbs(items, parentParams, b)
    requires forall i :: 0 <= i < |cs| ==> cs[i].name != b.name
    ensures Absorbs(MergeChildren(items, parentParams, cs), parentParams, b)
    decreases |cs|
  {
    if cs != [] {
      AbsorbsAfterOther(items, parentParams, b, cs[0]);
      AbsorbsAfterOthers(MergeBlock(items, parentParams, cs[0]), parentParams, b, cs[1..]);
    }
  }

  /** Merging a list of sibling blocks with distinct names twice is the same as once. */
  lemma {:induction false} MergeChildrenTwice(items: seq<Item>, parentParams: map<string, string>, bs: seq<Block>)
    requires DistinctNames(bs) && WellFormedAll(bs)
    ensures MergeChildren(MergeChildren(items, parentParams, bs), parentParams, bs)
         == MergeChildren(items, parentParams, bs)
    decreases bs, 0
  {
    if bs != [] {
      var x := MergeBlock(items, parentParams, bs[0]);
      var r := MergeChildren(x, parentParams, bs[1..]);
      MergeBlockTwice(items, parentParams, bs[0]);
      assert forall i :: 0 <= i < |bs[1..]| ==> bs[1..][i].name != bs[0].name by {
        forall i | 0 <= i < |bs[1..]| ensures bs[1..][i].name != bs[0].name {
          assert bs[1..][i] == bs[i + 1];
        }
      }
      AbsorbsAfterOthers(x, parentParams, bs[0], bs[1..]);
      assert WellFormedAll(bs[1..]) by {
        forall i | 0 <= i < |bs[1..]| ensures WellFormed(bs[1..][i]) {
          assert bs[1..][i] == bs[i + 1];
        }
      }
      MergeChildrenTwice(x, parentParams, bs[1..]);
    }
  }

  /** `_addDataRecursively`, step by step as the widget does it: compute `is_active`,
      store the name in the record, look the child up or create it, test for parameters,
      overwrite the item's data, apply the type defaults, then merge the sub-blocks in
      order. */
  method AddDataRecursively(items: seq<Item>, parentParams: map<string, string>, b: Block)
    returns (r: seq<Item>)
    ensures r == MergeBlock(items, parentParams, b)
    decreases b
  {
    var isActive := "active" !in parentParams || b.name in Split(parentParams["active"], ' ');
    var table := b.params["Name" := b.name];
    var comment := Join(b.comments, "\n");
    var found := FindChildItemWithName(items, b.name);
    var k: nat;
    if found.None? {
      r := items + [Blank(b.name)];
      k := |items|;
    } else {
      r := items;
      k := found.value;
    }
    var item := r[k];
    var hasParams := false;
    var keys := table.Keys;
    while keys != {}
      invariant keys <= table.Keys
      invariant hasParams <==> exists key :: key in table.Keys - keys && key != "active"
      decreases keys
    {
      var key :| key in keys;
      assert table.Keys - (keys - {key}) == (table.Keys - keys) + {key};
      if key != "active" {
        hasParams := true;
      }
      keys := keys - {key};
    }
    assert table.Keys - keys == table.Keys;
    assert hasParams == HasParams(table);
    if hasParams {
      item := item.(tableData := table - {"active"}, paramComments := b.paramComments);
    }
    item := item.(comment := comment, checked := isActive);
    item := TypeDefaults(item);
    var children := item.children;
    ghost var start := children;
    for i := 0 to |b.children|
      invariant MergeChildren(children, table, b.children[i..]) == MergeChildren(start, table, b.children)
    {
      assert b.children[i..][1..] == b.children[i + 1..];
      children := AddDataRecursively(children, table, b.children[i]);
    }
    assert b.children[|b.children|..] == [];
    r := r[k := item.(children := children)];
  }

  // ---------------------------------------------------------------------------------
  // Hard paths (`_recursivelyAddTreeItems`)

  /** Materialise one split hard path below a list of siblings.  A literal piece reuses the
      LAST same-named sibling or appends an unchecked blank one; a `*` piece creates
      nothing and sends the rest of the path into every existing sibling. */
  function AddPath(items: seq<Item>, pieces: seq<string>): seq<Item>
    requires |pieces| >= 1
    decreases |pieces|, 0
  {
    if pieces[0] == "*" then
      if |pieces| > 1 then AddPathEach(items, pieces[1..], 0) else items
    else
      var found := LastIndex(items, pieces[0]);
      var base := if found.Some? then items else items + [Blank(pieces[0])];
      var k := if found.Some? then found.value else |items|;
      if |pieces| > 1 then base[k := base[k].(children := AddPath(base[k].children, pieces[1..]))]
      else base
  }

  /** The `*` fan-out: the rest of the path applied below siblings `i`, `i+1`, ... */
  function AddPathEach(items: seq<Item>, rest: seq<string>, i: nat): seq<Item>
    requires |rest| >= 1
    decreases |rest|, 1, |items| - i
  {
    if i >= |items| then items
    else AddPathEach(items[i := items[i].(children := AddPath(items[i].children, rest))], rest, i + 1)
  }

  /** The fan-out leaves the siblings themselves in place and extends each one. */
  lemma {:induction false} AddPathEachEffect(items: seq<Item>, rest: seq<string>, i: nat)
    requires |rest| >= 1 && i <= |items|
    ensures var r := AddPathEach(items, rest, i);
      && |r| == |items|
      && (forall j :: 0 <= j < i ==> r[j] == items[j])
      && (forall j :: i <= j < |items| ==> r[j] == items[j].(children := AddPath(items[j].children, rest)))
    decreases |items| - i
  {
    if i < |items| {
      AddPathEachEffect(items[i := items[i].(children := AddPath(items[i].children, rest))], rest, i + 1);
    }
  }

  /** What one hard path does to the siblings at its first piece.  A literal piece that is
      already present is reused where it is; a missing one is appended unchecked with empty
      data; no other sibling changes.  A `*` piece adds no sibling and renames none. */
  lemma {:induction false} AddPathEffect(items: seq<Item>, pieces: seq<string>)
    requires |pieces| >= 1
    ensures var r := AddPath(items, pieces);
      && (pieces[0] == "*" ==> Names(r) == Names(items))
      && (pieces[0] != "*" && LastIndex(items, pieces[0]).Some? ==>
            Names(r) == Names(items) &&
            forall j :: 0 <= j < |items| && j != LastIndex(items, pieces[0]).value ==> r[j] == items[j])
      && (pieces[0] != "*" && LastIndex(items, pieces[0]).None? ==>
            |r| == |items| + 1 && r[..|items|] == items &&
            r[|items|].(children := []) == Blank(pieces[0]))
      && (pieces[0] != "*" ==> pieces[0] in Names(r))
  {
    var r := AddPath(items, pieces);
    if pieces[0] == "*" {
      if |pieces| > 1 {
        AddPathEachEffect(items, pieces[1..], 0);
      }
    } else if LastIndex(items, pieces[0]).None? {
      var k := |items|;
      assert r[k].name == pieces[0];
      assert r[..|items|] == items;
    } else {
      var k := LastIndex(items, pieces[0]).value;
      assert r[k].name == pieces[0];
    }
  }

  /** Materialising the same hard path twice adds nothing the second time. */
  lemma {:induction false} AddPathTwice(items: seq<Item>, pieces: seq<string>)
    requires |pieces| >= 1
    ensures AddPath(AddPath(items, pieces), pieces) == AddPath(items, pieces)
    decreases |pieces|
  {
    var r := AddPath(items, pieces);
    AddPathEffect(items, pieces);
    if pieces[0] == "*" {
      if |pieces| > 1 {
        var rest := pieces[1..];
        AddPathEachEffect(items, rest, 0);
        AddPathEachEffect(r, rest, 0);
        var rr := AddPath(r, pieces);
        forall j | 0 <= j < |r| ensures rr[j] == r[j] {
          AddPathTwice(items[j].children, rest);
        }
      }
    } else {
      var found := LastIndex(items, pieces[0]);
      var k := if found.Some? then found.value else |items|;
      assert LastIndex(r, pieces[0]) == Some(k) by {
        if found.None? {
          assert r[..|items|] == items;
          assert forall j :: 0 <= j < |items| ==> r[j] == items[j];
        } else {
          SameNamesSameIndex(r, items, pieces[0]);
        }
      }
      if |pieces| > 1 {
        var base := if found.Some? then items else items + [Blank(pieces[0])];
        AddPathTwice(base[k].children, pieces[1..]);
      }
    }
  }

  /** `addHardPathsToTree`: every hard path, split on `/`, in order. */
  function AddHardPaths(items: seq<Item>, paths: seq<string>): seq<Item>
    decreases |paths|
  {
    if paths == [] then items else AddHardPaths(AddPath(items, Split(paths[0], '/')), paths[1..])
  }

  /** `b` holds every item of `a` at the same position with the same fields, perhaps with
      more siblings after it and more children below it. */
  predicate Extends(a: seq<Item>, b: seq<Item>)
    decreases a
  {
    |a| <= |b| && forall i :: 0 <= i < |a| ==>
      a[i].(children := []) == b[i].(children := []) && Extends(a[i].children, b[i].children)
  }

  lemma {:induction false} ExtendsRefl(a: seq<Item>)
    ensures Extends(a, a)
    decreases a
  {
    forall i | 0 <= i < |a| ensures Extends(a[i].children, a[i].children) {
      ExtendsRefl(a[i].children);
    }
  }

  lemma {:induction false} ExtendsTrans(a: seq<Item>, b: seq<Item>, c: seq<Item>)
    requires Extends(a, b) && Extends(b, c)
    ensures Extends(a, c)
    decreases a
  {
    forall i | 0 <= i < |a| ensures Extends(a[i].children, c[i].children) {
      ExtendsTrans(a[i].children, b[i].children, c[i].children);
    }
  }

  /** Giving one item more children keeps everything there was. */
  lemma {:induction false} ExtendsUpdate(items: seq<Item>, k: nat, cs: seq<Item>)
    requires k < |items| && Extends(items[k].children, cs)
    ensures Extends(items, items[k := items[k].(children := cs)])
  {
    var u := items[k := items[k].(children := cs)];
    forall i | 0 <= i < |items| && i != k ensures Extends(items[i].children, u[i].children) {
      ExtendsRefl(items[i].children);
    }
  }

  /** Appending a sibling keeps everything there was. */
  lemma {:induction false} ExtendsAppend(items: seq<Item>, x: Item)
    ensures Extends(items, items + [x])
  {
    forall i | 0 <= i < |items| ensures Extends(items[i].children, (items + [x])[i].children) {
      ExtendsRefl(items[i].children);
    }
  }

  lemma {:induction false} AddPathExtends(items: seq<Item>, pieces: seq<string>)
    requires |pieces| >= 1
    ensures Extends(items, AddPath(items, pieces))
    decreases |pieces|, 0
  {
    if pieces[0] == "*" {
      if |pieces| > 1 {
        AddPathEachExtends(items, pieces[1..], 0);
      } else {
        ExtendsRefl(items);
      }
    } else {
      var found := LastIndex(items, pieces[0]);
      var base := if found.Some? then items else items + [Blank(pieces[0])];
      var k := if found.Some? then found.value else |items|;
      if found.Some? {
        ExtendsRefl(items);
      } else {
        ExtendsAppend(items, Blank(pieces[0]));
      }
      if |pieces| > 1 {
        AddPathExtends(base[k].children, pieces[1..]);
        ExtendsUpdate(base, k, AddPath(base[k].children, pieces[1..]));
        ExtendsTrans(items, base, base[k := base[k].(children := AddPath(base[k].children, pieces[1..]))]);
      }
    }
  }

  lemma {:induction false} AddPathEachExtends(items: seq<Item>, rest: seq<string>, i: nat)
    requires |rest| >= 1
    ensures Extends(items, AddPathEach(items, rest, i))
    decreases |rest|, 1, |items| - i
  {
    if i >= |items| {
      ExtendsRefl(items);
    } else {
      var next := items[i := items[i].(children := AddPath(items[i].children, rest))];
      AddPathExtends(items[i].children, rest);
      ExtendsUpdate(items, i, AddPath(items[i].children, rest));
      AddPathEachExtends(next, rest, i + 1);
      ExtendsTrans(items, next, AddPathEach(next, rest, i + 1));
    }
  }

  /** Materialising the hard paths only adds items: every item already in the tree stays
      where it was, with its fields. */
  lemma {:induction false} AddHardPathsExtends(items: seq<Item>, paths: seq<string>)
    ensures Extends(items, AddHardPaths(items, paths))
    decreases |paths|
  {
    if paths == [] {
      ExtendsRefl(items);
    } else {
      var next := AddPath(items, Split(paths[0], '/'));
      AddPathExtends(items, Split(paths[0], '/'));
      AddHardPathsExtends(next, paths[1..]);
      ExtendsTrans(items, next, AddHardPaths(next, paths[1..]));
    }
  }

  // Running `addHardPathsToTree` once more after a wild-card path has been followed by a
  // path that creates a sibling under the wild card does add items: with the paths
  // "A/*/C" and "A/B", the first run builds A/B and the second also builds A/B/C.  This is
  // why the widget runs it again after loading data.
  lemma HardPathsNotIdempotent()
    ensures var paths := ["A/*/C", "A/B"];
      AddHardPaths(AddHardPaths([], paths), paths) != AddHardPaths([], paths)
  {
    var paths := ["A/*/C", "A/B"];
    var a, b, c := Blank("A"), Blank("B"), Blank("C");
    var once := [a.(children := [b])];
    var twice := [a.(children := [b.(children := [c])])];
    SplitExamples();
    FirstRunExample();
    SecondRunExample();
    assert paths[1..][1..] == [];
    assert AddHardPaths([], paths) == AddHardPaths(AddPath([a], ["A", "B"]), paths[1..][1..]);
    assert AddHardPaths(once, paths) == AddHardPaths(AddPath(twice, ["A", "B"]), paths[1..][1..]);
  }

  /** The two example hard paths split into their pieces. */
  lemma SplitExamples()
    ensures Split("A/*/C", '/') == ["A", "*", "C"]
    ensures Split("A/B", '/') == ["A", "B"]
  {
    SplitJoin(["A", "*", "C"], '/');
    SplitJoin(["A", "B"], '/');
    assert Join(["C"], "/") == "C";
    assert Join(["*", "C"], "/") == "*/C";
    assert Join(["A", "*", "C"], "/") == "A/*/C";
    assert Join(["B"], "/") == "B";
    assert Join(["A", "B"], "/") == "A/B";
  }

  /** The first run: A is created and the wild card finds no child below it; then A/B. */
  lemma FirstRunExample()
    ensures AddPath([], ["A", "*", "C"]) == [Blank("A")]
    ensures AddPath([Blank("A")], ["A", "B"]) == [Blank("A").(children := [Blank("B")])]
  {
    assert ["A", "*", "C"][1..] == ["*", "C"];
    assert ["*", "C"][1..] == ["C"];
    assert AddPath([], ["*", "C"]) == [];
    assert LastIndex([Blank("A")], "A") == Some(0);
    assert ["A", "B"][1..] == ["B"];
    assert AddPath([], ["B"]) == [Blank("B")];
  }

  /** The second run: the wild card now reaches B and creates C below it; A/B is found. */
  lemma SecondRunExample()
    ensures var b := Blank("B"); var a := Blank("A");
      AddPath([a.(children := [b])], ["A", "*", "C"]) == [a.(children := [b.(children := [Blank("C")])])]
  {
    var a, b, c := Blank("A"), Blank("B"), Blank("C");
    assert LastIndex([a.(children := [b])], "A") == Some(0);
    assert ["A", "*", "C"][1..] == ["*", "C"];
    assert ["*", "C"][1..] == ["C"];
    assert AddPath([], ["C"]) == [c];
    assert AddPath([b], ["*", "C"]) == AddPathEach([b], ["C"], 0);
    assert AddPathEach([b], ["C"], 0) == AddPathEach([b.(children := [c])], ["C"], 1);
    assert AddPath([b], ["*", "C"]) == [b.(children := [c])];
  }

  /** `_recursivelyAddTreeItems`, as the widget does it: scan every sibling keeping the
      last match, create the item when the piece is literal and unmatched, then descend
      into it, or into every sibling that existed before for a `*`. */
  method RecursivelyAddTreeItems(items: seq<Item>, pieces: seq<string>) returns (r: seq<Item>)
    requires |pieces| >= 1
    ensures r == AddPath(items, pieces)
    decreases |pieces|
  {
    var piece := pieces[0];
    var isStar := piece == "*";
    var foundIt := isStar;
    var thisItem: nat := 0;
    for i := 0 to |items|
      invariant foundIt <==> isStar || LastIndex(items[..i], piece).Some?
      invariant !isStar && foundIt ==> LastIndex(items[..i], piece) == Some(thisItem)
    {
      assert items[..i + 1][..i] == items[..i];
      if items[i].name == piece {
        thisItem := i;
        foundIt := true;
      }
    }
    assert items[..|items|] == items;
    r := items;
    if !foundIt {
      r := items + [Blank(piece)];
      thisItem := |items|;
    }
    if |pieces| > 1 {
      if !isStar {
        var sub := RecursivelyAddTreeItems(r[thisItem].children, pieces[1..]);
        r := r[thisItem := r[thisItem].(children := sub)];
      } else {
        for i := 0 to |items|
          invariant |r| == |items|
          invariant AddPathEach(r, pieces[1..], i) == AddPathEach(items, pieces[1..], 0)
        {
          var sub := RecursivelyAddTreeItems(r[i].children, pieces[1..]);
          r := r[i := r[i].(children := sub)];
        }
      }
    }
  }

  // ---------------------------------------------------------------------------------
  // Deleting the current item (`_deleteCurrentItem`, tree part)

  /** The number of items in a forest. */
  function Count(items: seq<Item>): nat
    decreases items
  {
    if items == [] then 0 else 1 + Count(items[0].children) + Count(items[1..])
  }

  /** Counting over a split of a forest. */
  lemma {:induction false} CountConcat(a: seq<Item>, b: seq<Item>)
    ensures Count(a + b) == Count(a) + Count(b)
    decreases |a|
  {
    if a == [] {
      assert a + b == b;
    } else {
      assert (a + b)[0] == a[0];
      assert (a + b)[1..] == a[1..] + b;
      CountConcat(a[1..], b);
      assert Count(a + b) == 1 + Count(a[0].children) + Count(a[1..] + b);
    }
  }

  /** Removing the item at a position from its parent's children (`removeChild`). */
  function RemoveAt(items: seq<Item>, idx: seq<nat>): Option<seq<Item>>
    decreases |idx|
  {
    if idx == [] || idx[0] >= |items| then None
    else if |idx| == 1 then Some(items[..idx[0]] + items[idx[0] + 1..])
    else match RemoveAt(items[idx[0]].children, idx[1..])
      case None => None
      case Some(cs) => Some(items[idx[0] := items[idx[0]].(children := cs)])
  }

  /** Removal succeeds exactly at a position that holds an item, and the tree loses that
      item and its whole subtree, no more and no fewer items. */
  lemma {:induction false} RemoveAtRemovesSubtree(items: seq<Item>, idx: seq<nat>)
    ensures RemoveAt(items, idx).Some? <==> ItemAt(items, idx).Some?
    ensures RemoveAt(items, idx).Some? ==>
      Count(RemoveAt(items, idx).value) + 1 + Count(ItemAt(items, idx).value.children) == Count(items)
    decreases |idx|
  {
    if idx != [] && idx[0] < |items| {
      var k := idx[0];
      assert items == items[..k] + [items[k]] + items[k + 1..];
      CountConcat(items[..k] + [items[k]], items[k + 1..]);
      CountConcat(items[..k], [items[k]]);
      assert Count([items[k]]) == 1 + Count(items[k].children);
      if |idx| == 1 {
        CountConcat(items[..k], items[k + 1..]);
      } else {
        RemoveAtRemovesSubtree(items[k].children, idx[1..]);
        var rr := RemoveAt(items[k].children, idx[1..]);
        if rr.Some? {
          var changed := items[k := items[k].(children := rr.value)];
          assert changed == items[..k] + [changed[k]] + items[k + 1..];
          CountConcat(items[..k] + [changed[k]], items[k + 1..]);
          CountConcat(items[..k], [changed[k]]);
          assert Count([changed[k]]) == 1 + Count(rr.value);
        }
      }
    }
  }

  /** The children of the item at position `p`, or the top-level items when `p` is empty. */
  function ChildrenAt(items: seq<Item>, p: seq<nat>): Option<seq<Item>>
  {
    if p == [] then Some(items)
    else match ItemAt(items, p)
      case None => None
      case Some(it) => Some(it.children)
  }

  lemma ChildrenAtCons(items: seq<Item>, h: nat, p: seq<nat>)
    requires h < |items|
    ensures ChildrenAt(items, [h] + p) == ChildrenAt(items[h].children, p)
  {
    if p != [] {
      assert ([h] + p)[1..] == p;
    }
  }

  /** At the parent of the removed item, the children are the old ones without it: the
      siblings before it stay and the later ones move up by one. */
  lemma {:induction false} RemoveAtParent(items: seq<Item>, idx: seq<nat>)
    requires RemoveAt(items, idx).Some?
    ensures var p, k := idx[..|idx| - 1], idx[|idx| - 1];
      var cs := ChildrenAt(items, p);
      cs.Some? && k < |cs.value|
      && ChildrenAt(RemoveAt(items, idx).value, p) == Some(cs.value[..k] + cs.value[k + 1..])
    decreases |idx|
  {
    if |idx| > 1 {
      var h, t := idx[0], idx[1..];
      RemoveAtParent(items[h].children, t);
      var pt := t[..|t| - 1];
      assert idx[..|idx| - 1] == [h] + pt && idx[|idx| - 1] == t[|t| - 1];
      ChildrenAtCons(items, h, pt);
      ChildrenAtCons(RemoveAt(items, idx).value, h, pt);
    }
  }

  /** Every position that leaves the removed item's path above its parent, at depth `d`,
      keeps its item and that item's subtree. */
  lemma {:induction false} RemoveAtKeepsOthers(items: seq<Item>, idx: seq<nat>, q: seq<nat>, d: nat)
    requires RemoveAt(items, idx).Some?
    requires d + 1 < |idx| && d < |q| && q[..d] == idx[..d] && q[d] != idx[d]
    ensures ItemAt(RemoveAt(items, idx).value, q) == ItemAt(items, q)
    decreases d
  {
    if d > 0 {
      var h := idx[0];
      assert q[0] == q[..d][0] == idx[..d][0] == h;
      assert q[1..][..d - 1] == q[..d][1..] && idx[1..][..d - 1] == idx[..d][1..];
      RemoveAtKeepsOthers(items[h].children, idx[1..], q[1..], d - 1);
    }
  }

  /** Removing a top-level item: the ones before it keep their position and the later ones
      move up by one. */
  lemma {:induction false} RemoveTopShifts(items: seq<Item>, k: nat, j: nat, rest: seq<nat>)
    requires k < |items|
    ensures ItemAt(items[..k] + items[k + 1..], [j] + rest) == ItemAt(items, [if j < k then j else j + 1] + rest)
  {
    var r := items[..k] + items[k + 1..];
    var j' := if j < k then j else j + 1;
    assert |r| == |items| - 1;
    if j < |r| {
      assert r[j] == items[j'];
      if rest != [] {
        ItemAtCons(r, j, rest);
        ItemAtCons(items, j', rest);
      }
    }
  }

  /** Below the parent at `p`, a sibling before the removed item `k` keeps its position and
      a later one moves up by one, each with its whole subtree. */
  lemma {:induction false} RemoveAtShiftsSiblings(items: seq<Item>, p: seq<nat>, k: nat, j: nat, rest: seq<nat>)
    requires RemoveAt(items, p + [k]).Some?
    ensures ItemAt(RemoveAt(items, p + [k]).value, p + [j] + rest)
         == ItemAt(items, p + [if j < k then j else j + 1] + rest)
    decreases |p|
  {
    var j' := if j < k then j else j + 1;
    if p == [] {
      assert p + [k] == [k] && p + [j] + rest == [j] + rest && p + [j'] + rest == [j'] + rest;
      RemoveTopShifts(items, k, j, rest);
    } else {
      var h, pt := p[0], p[1..];
      assert p + [k] == [h] + (pt + [k]);
      RemoveAtCons(items, h, pt + [k]);
      var r := RemoveAt(items, p + [k]).value;
      RemoveAtShiftsSiblings(items[h].children, pt, k, j, rest);
      var q, q' := pt + [j] + rest, pt + [j'] + rest;
      assert p + [j] + rest == [h] + q && p + [j'] + rest == [h] + q';
      ItemAtCons(items, h, q');
      ItemAtCons(r, h, q);
    }
  }

  /** Below the top level, removal happens among the first item's children. */
  lemma RemoveAtCons(items: seq<Item>, h: nat, q: seq<nat>)
    requires h < |items| && q != [] && RemoveAt(items, [h] + q).Some?
    ensures RemoveAt(items[h].children, q).Some?
    ensures RemoveAt(items, [h] + q).value == items[h := items[h].(children := RemoveAt(items[h].children, q).value)]
  {
    assert ([h] + q)[1..] == q;
  }

  /** Below the top level, a position is looked up among its first item's children. */
  lemma ItemAtCons(items: seq<Item>, h: nat, q: seq<nat>)
    requires h < |items| && q != []
    ensures ItemAt(items, [h] + q) == ItemAt(items[h].children, q)
  {
    assert ([h] + q)[1..] == q;
  }

  /** The items on the path above the removed one keep every field but their children. */
  lemma {:induction false} RemoveAtKeepsAncestors(items: seq<Item>, idx: seq<nat>, m: nat)
    requires RemoveAt(items, idx).Some? && 1 <= m < |idx|
    ensures ItemAt(items, idx[..m]).Some? && ItemAt(RemoveAt(items, idx).value, idx[..m]).Some?
      && ItemAt(RemoveAt(items, idx).value, idx[..m]).value.(children := [])
         == ItemAt(items, idx[..m]).value.(children := [])
    decreases m
  {
    var h := idx[0];
    if m > 1 {
      RemoveAtKeepsAncestors(items[h].children, idx[1..], m - 1);
      assert idx[..m] == [h] + idx[1..][..m - 1];
      assert ([h] + idx[1..][..m - 1])[1..] == idx[1..][..m - 1];
    } else {
      assert idx[..m] == [h];
    }
  }

  /** `_deleteCurrentItem` as written: an item with a parent is removed from it, but a
      top-level item is passed to `removeItemWidget`, which only removes a widget shown in
      the item's cell, so the item stays; the hard paths are then added again.  No current
      item is an error. */
  function DeleteAsWritten(items: seq<Item>, idx: seq<nat>, hardPaths: seq<string>): Option<seq<Item>>
  {
    if ItemAt(items, idx).None? then None
    else if |idx| == 1 then Some(AddHardPaths(items, hardPaths))
    else match RemoveAt(items, idx)
      case None => None
      case Some(rest) => Some(AddHardPaths(rest, hardPaths))
  }

  /** The deletion the code evidently intends: remove the item wherever it is. */
  function DeleteCorrected(items: seq<Item>, idx: seq<nat>, hardPaths: seq<string>): Option<seq<Item>>
  {
    match RemoveAt(items, idx)
    case None => None
    case Some(rest) => Some(AddHardPaths(rest, hardPaths))
  }

  /** Deleting the only, top-level item `Outputs` when there are no hard paths leaves the
      tree as it was. */
  lemma DeleteTopLevelKeepsItem()
    ensures DeleteAsWritten([Blank("Outputs")], [0], []) == Some([Blank("Outputs")])
    ensures Count(DeleteAsWritten([Blank("Outputs")], [0], []).value) == 1
  {
  }

  /** The corrected deletion removes the item with its subtree, at the top level too: it
      succeeds exactly at a position that holds an item, and adding the hard paths back
      keeps everything the removal left.  With no hard paths the item is gone from its
      parent's children and the tree has lost exactly its subtree. */
  lemma {:induction false} DeleteCorrectedRemoves(items: seq<Item>, idx: seq<nat>, hardPaths: seq<string>)
    ensures DeleteCorrected(items, idx, hardPaths).Some? <==> ItemAt(items, idx).Some?
    ensures DeleteCorrected(items, idx, hardPaths).Some? ==>
      Extends(RemoveAt(items, idx).value, DeleteCorrected(items, idx, hardPaths).value)
    ensures DeleteCorrected(items, idx, []).Some? ==>
      var p, k := idx[..|idx| - 1], idx[|idx| - 1];
      var cs := ChildrenAt(items, p);
      cs.Some? && k < |cs.value|
      && ChildrenAt(DeleteCorrected(items, idx, []).value, p) == Some(cs.value[..k] + cs.value[k + 1..])
    ensures DeleteCorrected(items, idx, []).Some? ==>
      Count(DeleteCorrected(items, idx, []).value) == Count(items) - 1 - Count(ItemAt(items, idx).value.children)
  {
    RemoveAtRemovesSubtree(items, idx);
    if RemoveAt(items, idx).Some? {
      AddHardPathsExtends(RemoveAt(items, idx).value, hardPaths);
      RemoveAtParent(items, idx);
    }
  }

  // ---------------------------------------------------------------------------------
  // The widget

  /** The widget's tree: the top-level items and the hard paths of the application's
      syntax. */
  class InputFileTreeWidget {
    var items: seq<Item>
    const hardPaths: seq<string>

    /** Construction materialises the hard paths in an empty tree. */
    constructor(hardPaths: seq<string>)
      ensures this.hardPaths == hardPaths
      ensures items == AddHardPaths([], hardPaths)
    {
      this.hardPaths := hardPaths;
      items := [];
      new;
      AddHardPathsToTree();
    }

    /** `addHardPathsToTree`. */
    method AddHardPathsToTree()
      modifies this
      ensures items == AddHardPaths(old(items), hardPaths)
    {
      ghost var start := items;
      for i := 0 to |hardPaths|
        invariant AddHardPaths(items, hardPaths[i..]) == AddHardPaths(start, hardPaths)
      {
        assert hardPaths[i..][1..] == hardPaths[i + 1..];
        items := RecursivelyAddTreeItems(items, Split(hardPaths[i], '/'));
      }
      assert hardPaths[|hardPaths|..] == [];
    }

    /** `loadData`: merge every main section below the root block's parameters, then
      materialise the hard paths again. */
    method LoadData(rootParams: map<string, string>, sections: seq<Block>)
      modifies this
      ensures items == AddHardPaths(MergeChildren(old(items), rootParams, sections), hardPaths)
    {
      ghost var start := items;
      for i := 0 to |sections|
        invariant MergeChildren(items, rootParams, sections[i..]) == MergeChildren(start, rootParams, sections)
      {
        assert sections[i..][1..] == sections[i + 1..];
        items := AddDataRecursively(items, rootParams, sections[i]);
      }
      assert sections[|sections|..] == [];
      AddHardPathsToTree();
    }

    /** `_deleteCurrentItem` with the current item at position `idx`, removing the item
      wherever it is (the corrected deletion); `ok` is false when there is no such item. */
    method DeleteCurrentItem(idx: seq<nat>) returns (ok: bool)
      modifies this
      ensures ok <==> ItemAt(old(items), idx).Some?
      ensures ok ==> DeleteCorrected(old(items), idx, hardPaths) == Some(items)
      ensures !ok ==> items == old(items)
    {
      RemoveAtRemovesSubtree(items, idx);
      if ItemAt(items, idx).None? {
        return false;
      }
      items := RemoveAt(items, idx).value;
      AddHardPathsToTree();
      return true;
    }
  }
}
