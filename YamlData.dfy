/** Schema lookup in the syntax dump of a MOOSE application (gui/utils/YamlData.py): a
    recursive search for the entry whose `name` equals a path. */
module YamlData {
  import opened Wrappers

  /** One syntax entry: its `name` (a full path such as `/Kernels/Diffusion`) and its
      `subblocks`.  A missing (`None`) and an empty sub-block list behave alike in the
      search, so both are the empty sequence here. */
  datatype YamlEntry = YamlEntry(name: string, subblocks: seq<YamlEntry>)

  /** `recursiveYamlDataSearch`: the entry itself when its name is the path, otherwise the
      first match found in its sub-blocks in order, otherwise nothing. */
  function Search(path: string, e: YamlEntry): Option<YamlEntry>
    decreases e, 1
  {
    if e.name == path then Some(e)
    else if e.subblocks != [] then SearchAll(path, e.subblocks)
    else None
  }

  /** The loop over a list of entries: the first entry whose subtree has a match wins. */
  function SearchAll(path: string, es: seq<YamlEntry>): Option<YamlEntry>
    decreases es, 0
  {
    if es == [] then None
    else
      var found := Search(path, es[0]);
      if found.Some? then found else SearchAll(path, es[1..])
  }

  /** Every entry of a subtree in pre-order: the entry, then each sub-block's subtree in
      order. */
  function PreOrder(e: YamlEntry): seq<YamlEntry>
    decreases e, 1
  {
    [e] + PreOrderAll(e.subblocks)
  }

  function PreOrderAll(es: seq<YamlEntry>): seq<YamlEntry>
    decreases es, 0
  {
    if es == [] then [] else PreOrder(es[0]) + PreOrderAll(es[1..])
  }

  /** The first entry of a list with the given name: the independent reference the search
      is measured against. */
  function FirstNamed(xs: seq<YamlEntry>, path: string): (r: Option<YamlEntry>)
    ensures r.Some? ==> r.value.name == path && r.value in xs
    ensures r.None? ==> forall i :: 0 <= i < |xs| ==> xs[i].name != path
  {
    if xs == [] then None
    else if xs[0].name == path then Some(xs[0])
    else FirstNamed(xs[1..], path)
  }

  /** The first match of a concatenation is in the first part if it has one. */
  lemma {:induction false} FirstNamedConcat(xs: seq<YamlEntry>, ys: seq<YamlEntry>, path: string)
    ensures FirstNamed(xs + ys, path)
         == if FirstNamed(xs, path).Some? then FirstNamed(xs, path) else FirstNamed(ys, path)
    decreases |xs|
  {
    if xs == [] {
      assert xs + ys == ys;
    } else {
      assert (xs + ys)[0] == xs[0];
      assert (xs + ys)[1..] == xs[1..] + ys;
      FirstNamedConcat(xs[1..], ys, path);
    }
  }

  /** The search is a pre-order traversal in sub-block order that stops at the first
      entry named `path`: a result is named `path`, lies in the searched subtree, and no
      entry before it in pre-order has that name; no result means no entry of the subtree
      has that name. */
  lemma {:induction false} SearchIsPreOrderFirst(path: string, e: YamlEntry)
    ensures Search(path, e) == FirstNamed(PreOrder(e), path)
    decreases e, 1
  {
    FirstNamedConcat([e], PreOrderAll(e.subblocks), path);
    if e.name != path {
      SearchAllIsPreOrderFirst(path, e.subblocks);
    }
  }

  lemma {:induction false} SearchAllIsPreOrderFirst(path: string, es: seq<YamlEntry>)
    ensures SearchAll(path, es) == FirstNamed(PreOrderAll(es), path)
    decreases es, 0
  {
    if es != [] {
      SearchIsPreOrderFirst(path, es[0]);
      SearchAllIsPreOrderFirst(path, es[1..]);
      FirstNamedConcat(PreOrder(es[0]), PreOrderAll(es[1..]), path);
    }
  }

  /** Consequences stated outright: an entry named `path` is returned as it is, without
      looking below it; any result carries that name and comes from the subtree; and there
      is no result exactly when no entry of the subtree is named `path`. */
  lemma {:induction false} SearchFacts(path: string, e: YamlEntry)
    ensures e.name == path ==> Search(path, e) == Some(e)
    ensures Search(path, e).Some? ==>
              (Search(path, e).value.name == path && Search(path, e).value in PreOrder(e))
    ensures Search(path, e).None? <==> forall x :: x in PreOrder(e) ==> x.name != path
  {
    SearchIsPreOrderFirst(path, e);
    if Search(path, e).None? {
      forall x | x in PreOrder(e) ensures x.name != path {
        var i :| 0 <= i < |PreOrder(e)| && PreOrder(e)[i] == x;
      }
    }
  }

  /** `findYamlEntry`: try each top-level entry in turn and return the first match. */
  method FindYamlEntry(yamlData: seq<YamlEntry>, path: string) returns (r: Option<YamlEntry>)
    ensures r == FirstNamed(PreOrderAll(yamlData), path)
  {
    SearchAllIsPreOrderFirst(path, yamlData);
    for i := 0 to |yamlData|
      invariant SearchAll(path, yamlData[i..]) == SearchAll(path, yamlData)
    {
      assert yamlData[i..][1..] == yamlData[i + 1..];
      var found := Search(path, yamlData[i]);
      if found.Some? {
        return found;
      }
    }
    assert yamlData[|yamlData|..] == [];
    return None;
  }
}
