/** The typed queries of MOOSE's action store (framework/include/actions/ActionWarehouse.h):
    `getAction<T>` finds an action by name and type, `getActions<T>` lists the actions of a type
    sorted by name, one per name. An action's dynamic type is its `kind`; `isT` stands for the
    `dynamic_cast<T *>` succeeding on that type. */
module ActionWarehouses {
  import opened Wrappers

  type TypeName = string

  datatype Action = Action(name: string, kind: TypeName)

  // ---------------------------------------------------------------------------------
  // std::string ordering

  /** `a < b` on `std::string`: lexicographic, a proper prefix first. */
  predicate Below(a: string, b: string)
    decreases |a|
  {
    if |a| == 0 then |b| > 0
    else if |b| == 0 then false
    else if a[0] == b[0] then Below(a[1..], b[1..])
    else a[0] < b[0]
  }

  lemma {:induction false} BelowIrreflexive(a: string)
    ensures !Below(a, a)
    decreases |a|
  {
    if |a| > 0 {
      BelowIrreflexive(a[1..]);
    }
  }

  lemma {:induction false} BelowTransitive(a: string, b: string, c: string)
    requires Below(a, b) && Below(b, c)
    ensures Below(a, c)
    decreases |a|
  {
    if |a| > 0 && a[0] == b[0] && b[0] == c[0] {
      BelowTransitive(a[1..], b[1..], c[1..]);
    }
  }

  /** Two different strings are ordered one way or the other. */
  lemma {:induction false} BelowTotal(a: string, b: string)
    requires a != b
    ensures Below(a, b) || Below(b, a)
    decreases |a|
  {
    if |a| > 0 && |b| > 0 && a[0] == b[0] {
      assert a == [a[0]] + a[1..] && b == [b[0]] + b[1..];
      BelowTotal(a[1..], b[1..]);
    }
  }

  // ---------------------------------------------------------------------------------
  // getAction<T>

  predicate Matches(a: Action, name: string, isT: TypeName -> bool)
  {
    a.name == name && isT(a.kind)
  }

  /** The index of the first action, in insertion order, that has the name and is a `T`. */
  function FirstMatch(acts: seq<Action>, name: string, isT: TypeName -> bool): (r: Option<nat>)
    ensures r.Some? ==> (r.value < |acts| && Matches(acts[r.value], name, isT)
      && forall j :: 0 <= j < r.value ==> !Matches(acts[j], name, isT))
    ensures r.None? ==> forall j :: 0 <= j < |acts| ==> !Matches(acts[j], name, isT)
    decreases |acts|
  {
    if |acts| == 0 then None
    else if Matches(acts[0], name, isT) then Some(0)
    else match FirstMatch(acts[1..], name, isT)
      case None => None
      case Some(i) => Some(i + 1)
  }

  /** The first matching action itself. */
  function FirstAction(acts: seq<Action>, name: string, isT: TypeName -> bool): Option<Action>
  {
    match FirstMatch(acts, name, isT)
    case None => None
    case Some(i) => Some(acts[i])
  }

  /** One more action at the end changes the first match only when there was none. */
  lemma {:induction false} FirstMatchSnoc(acts: seq<Action>, a: Action, name: string, isT: TypeName -> bool)
    ensures FirstMatch(acts + [a], name, isT)
         == if FirstMatch(acts, name, isT).Some? then FirstMatch(acts, name, isT)
            else if Matches(a, name, isT) then Some(|acts|) else None
  {
    var r := FirstMatch(acts + [a], name, isT);
    var q := FirstMatch(acts, name, isT);
    assert forall j :: 0 <= j < |acts| ==> (acts + [a])[j] == acts[j];
    if q.Some? {
      assert Matches((acts + [a])[q.value], name, isT);
    } else if Matches(a, name, isT) {
      assert Matches((acts + [a])[|acts|], name, isT);
    }
  }

  // ---------------------------------------------------------------------------------
  // getActions<T>: a std::map from name to action

  /** The map's entries in iteration order: keys strictly ascending. */
  ghost predicate Sorted(ps: seq<(string, Action)>)
  {
    forall i, j :: 0 <= i < j < |ps| ==> Below(ps[i].0, ps[j].0)
  }

  /** The map's value for `k`. */
  function Lookup(ps: seq<(string, Action)>, k: string): (r: Option<Action>)
    ensures r.Some? <==> exists i :: 0 <= i < |ps| && ps[i].0 == k
    decreases |ps|
  {
    if |ps| == 0 then None
    else if ps[0].0 == k then Some(ps[0].1)
    else Lookup(ps[1..], k)
  }

  /** `insert(pair(k, v))`: placed in key order; an existing key keeps its value. */
  function Insert(ps: seq<(string, Action)>, k: string, v: Action): seq<(string, Action)>
    decreases |ps|
  {
    if |ps| == 0 then [(k, v)]
    else if ps[0].0 == k then ps
    else if Below(k, ps[0].0) then [(k, v)] + ps
    else [ps[0]] + Insert(ps[1..], k, v)
  }

  /** A sorted map finds each of its keys at its own position. */
  lemma {:induction false} LookupAt(ps: seq<(string, Action)>, i: nat)
    requires Sorted(ps) && i < |ps|
    ensures Lookup(ps, ps[i].0) == Some(ps[i].1)
    decreases |ps|
  {
    if i > 0 {
      assert Below(ps[0].0, ps[i].0);
      BelowIrreflexive(ps[0].0);
      assert ps[1..][i - 1] == ps[i];
      LookupAt(ps[1..], i - 1);
    }
  }

  /** A key below the first key of a sorted map is not in it. */
  lemma {:induction false} BelowAll(ps: seq<(string, Action)>, k: string)
    requires Sorted(ps) && |ps| > 0 && Below(k, ps[0].0)
    ensures Lookup(ps, k).None?
  {
    forall i | 0 <= i < |ps|
      ensures ps[i].0 != k
    {
      if i > 0 {
        BelowTransitive(k, ps[0].0, ps[i].0);
      }
      BelowIrreflexive(k);
    }
  }

  /** Insertion keeps the map sorted, adds only its own entry, and gives the key the new value
      exactly when it was absent. */
  lemma {:induction false} InsertSpec(ps: seq<(string, Action)>, k: string, v: Action)
    requires Sorted(ps)
    ensures var qs := Insert(ps, k, v);
      Sorted(qs)
      && (forall p :: p in qs ==> p in ps || p == (k, v))
      && forall n :: Lookup(qs, n) == if n == k && Lookup(ps, k).None? then Some(v) else Lookup(ps, n)
    decreases |ps|
  {
    if |ps| == 0 {
    } else if ps[0].0 == k {
    } else if Below(k, ps[0].0) {
      BelowAll(ps, k);
      var qs := [(k, v)] + ps;
      forall i, j | 0 <= i < j < |qs|
        ensures Below(qs[i].0, qs[j].0)
      {
        if i == 0 && j > 1 {
          BelowTransitive(k, ps[0].0, ps[j - 1].0);
        }
      }
    } else {
      BelowTotal(k, ps[0].0);
      var tail := Insert(ps[1..], k, v);
      InsertSpec(ps[1..], k, v);
      var qs := [ps[0]] + tail;
      forall i, j | 0 <= i < j < |qs|
        ensures Below(qs[i].0, qs[j].0)
      {
        if i == 0 {
          assert qs[j] in tail;
          if qs[j] != (k, v) {
            var m :| 0 <= m < |ps[1..]| && ps[1..][m] == qs[j];
            assert ps[m + 1] == qs[j];
          }
        }
      }
      forall p | p in qs
        ensures p in ps || p == (k, v)
      {
        if p != ps[0] {
          assert p in tail;
        }
      }
    }
  }

  /** The map `getActions<T>` builds from the first `|acts|` actions. */
  function Collect(acts: seq<Action>, isT: TypeName -> bool): seq<(string, Action)>
    decreases |acts|
  {
    if |acts| == 0 then []
    else
      var ps := Collect(acts[..|acts| - 1], isT);
      var a := acts[|acts| - 1];
      if isT(a.kind) then Insert(ps, a.name, a) else ps
  }

  /** Every entry is a `T` filed under its own name. */
  ghost predicate WellFiled(ps: seq<(string, Action)>, isT: TypeName -> bool)
  {
    forall i :: 0 <= i < |ps| ==> ps[i].1.name == ps[i].0 && isT(ps[i].1.kind)
  }

  /** The collected map is sorted, files `T`s under their names, and holds for each name the
      earliest `T` of that name: the one `getAction<T>` returns. */
  lemma {:induction false} CollectSpec(acts: seq<Action>, isT: TypeName -> bool)
    ensures var ps := Collect(acts, isT);
      Sorted(ps) && WellFiled(ps, isT)
      && forall n :: Lookup(ps, n) == FirstAction(acts, n, isT)
    decreases |acts|
  {
    if |acts| > 0 {
      var init := acts[..|acts| - 1];
      var a := acts[|acts| - 1];
      assert acts == init + [a];
      CollectSpec(init, isT);
      var ps := Collect(init, isT);
      forall n
        ensures FirstMatch(acts, n, isT)
          == if FirstMatch(init, n, isT).Some? then FirstMatch(init, n, isT)
             else if Matches(a, n, isT) then Some(|init|) else None
      {
        FirstMatchSnoc(init, a, n, isT);
      }
      if isT(a.kind) {
        InsertSpec(ps, a.name, a);
        var qs := Insert(ps, a.name, a);
        forall i | 0 <= i < |qs|
          ensures qs[i].1.name == qs[i].0 && isT(qs[i].1.kind)
        {
          assert qs[i] in qs;
        }
      }
    }
  }

  /** The map's values in key order. */
  function Values(ps: seq<(string, Action)>): (vs: seq<Action>)
    ensures |vs| == |ps| && forall i :: 0 <= i < |ps| ==> vs[i] == ps[i].1
    decreases |ps|
  {
    if |ps| == 0 then [] else [ps[0].1] + Values(ps[1..])
  }

  class ActionWarehouse {
    /** `_action_blocks`: actions by task. Filled by `addActionBlock`, which is not part of
        this model. */
    var actionBlocks: map<string, seq<Action>>
    /** `_all_ptrs`: every action, in insertion order. */
    var allPtrs: seq<Action>

    constructor()
      ensures actionBlocks == map[] && allPtrs == []
    {
      actionBlocks, allPtrs := map[], [];
    }

    /** `empty()`: no task has an action block. */
    method Empty() returns (b: bool)
      ensures b <==> actionBlocks.Keys == {}
    {
      b := |actionBlocks| == 0;
    }

    /** `getAction<T>(name)`: the first action of that name that is a `T`; a same-named
        action of another type is passed over. */
    method GetAction(name: string, isT: TypeName -> bool) returns (r: Result<Action, string>)
      ensures FirstMatch(allPtrs, name, isT).Some? ==> r == Ok(allPtrs[FirstMatch(allPtrs, name, isT).value])
      ensures FirstMatch(allPtrs, name, isT).None? ==> r == Err("Action with name being " + name + " does not exist")
    {
      var i := 0;
      while i < |allPtrs|
        invariant i <= |allPtrs|
        invariant forall j :: 0 <= j < i ==> !Matches(allPtrs[j], name, isT)
      {
        var act := allPtrs[i];
        if act.name == name && isT(act.kind) {
          return Ok(act);
        }
        i := i + 1;
      }
      return Err("Action with name being " + name + " does not exist");
    }

    /** `getActions<T>()`: every name that has a `T` appears once, in name order, with the
        earliest `T` of that name, which is what `getAction<T>` returns for it. */
    method GetActions(isT: TypeName -> bool) returns (v: seq<Action>)
      ensures v == Values(Collect(allPtrs, isT))
      ensures forall i, j :: 0 <= i < j < |v| ==> Below(v[i].name, v[j].name)
      ensures forall i :: 0 <= i < |v| ==> isT(v[i].kind) && FirstAction(allPtrs, v[i].name, isT) == Some(v[i])
      ensures forall n :: FirstMatch(allPtrs, n, isT).Some? ==> exists i :: 0 <= i < |v| && v[i].name == n
    {
      var actions := Filed(isT);
      v := ValuesOf(actions);
      ValuesSpec(allPtrs, isT);
    }

    /** The first loop of `getActions<T>`: each `T` is inserted into the map in turn. */
    method Filed(isT: TypeName -> bool) returns (actions: seq<(string, Action)>)
      ensures actions == Collect(allPtrs, isT)
    {
      actions := [];
      for i := 0 to |allPtrs|
        invariant actions == Collect(allPtrs[..i], isT)
      {
        var act := allPtrs[i];
        assert allPtrs[..i + 1][..i] == allPtrs[..i];
        if isT(act.kind) {
          actions := Insert(actions, act.name, act);
        }
      }
      assert allPtrs[..|allPtrs|] == allPtrs;
    }
  }

  /** The second loop of `getActions<T>`: the map's values pushed back in iteration order. */
  method ValuesOf(actions: seq<(string, Action)>) returns (v: seq<Action>)
    ensures v == Values(actions)
  {
    v := [];
    for k := 0 to |actions|
      invariant v == Values(actions[..k])
    {
      assert actions[..k + 1] == actions[..k] + [actions[k]];
      v := v + [actions[k].1];
    }
    assert actions[..|actions|] == actions;
  }

  /** The values of the collected map are sorted by name, are each the first `T` of their
      name, and cover every name some `T` has. */
  lemma {:induction false} ValuesSpec(acts: seq<Action>, isT: TypeName -> bool)
    ensures var v := Values(Collect(acts, isT));
      (forall i, j :: 0 <= i < j < |v| ==> Below(v[i].name, v[j].name))
      && (forall i :: 0 <= i < |v| ==> isT(v[i].kind) && FirstAction(acts, v[i].name, isT) == Some(v[i]))
      && forall n :: FirstMatch(acts, n, isT).Some? ==> exists i :: 0 <= i < |v| && v[i].name == n
  {
    var v := Values(Collect(acts, isT));
    ValuesSorted(acts, isT);
    ValuesFirst(acts, isT);
    ValuesCover(acts, isT);
    forall n | FirstMatch(acts, n, isT).Some?
      ensures exists i :: 0 <= i < |v| && v[i].name == n
    {
      var a :| a in v && a.name == n;
      var i :| 0 <= i < |v| && v[i] == a;
    }
  }

  lemma {:induction false} ValuesSorted(acts: seq<Action>, isT: TypeName -> bool)
    ensures var v := Values(Collect(acts, isT));
      (forall i, j :: 0 <= i < j < |v| ==> Below(v[i].name, v[j].name))
      && (forall i :: 0 <= i < |v| ==> isT(v[i].kind))
  {
    var actions := Collect(acts, isT);
    CollectSpec(acts, isT);
    var v := Values(actions);
    assert forall i :: 0 <= i < |v| ==> v[i].name == actions[i].0 && isT(v[i].kind);
  }

  lemma {:induction false} ValuesFirst(acts: seq<Action>, isT: TypeName -> bool)
    ensures var v := Values(Collect(acts, isT));
      forall i :: 0 <= i < |v| ==> FirstAction(acts, v[i].name, isT) == Some(v[i])
  {
    var actions := Collect(acts, isT);
    var v := Values(actions);
    CollectSpec(acts, isT);
    forall i | 0 <= i < |v|
      ensures FirstAction(acts, v[i].name, isT) == Some(v[i])
    {
      LookupAt(actions, i);
    }
  }

  lemma {:induction false} ValuesCover(acts: seq<Action>, isT: TypeName -> bool)
    ensures forall n :: FirstMatch(acts, n, isT).Some? ==> exists a :: a in Values(Collect(acts, isT)) && a.name == n
  {
    var actions := Collect(acts, isT);
    var v := Values(actions);
    CollectSpec(acts, isT);
    forall n | FirstMatch(acts, n, isT).Some?
      ensures exists a :: a in v && a.name == n
    {
      assert Lookup(actions, n).Some?;
      var i :| 0 <= i < |actions| && actions[i].0 == n;
      assert v[i] in v && v[i].name == n;
    }
  }
}
