/** Material property values (framework/include/materials/MaterialProperty.h): a
    `MaterialProperty<T>` holds one value per quadrature point in a `MooseArray<T>`, and
    `MaterialProperties` is a vector of pointers to such properties, some of them null.
    One value type `V` stands for every `T`; the property's `typeName` says which `T` it
    was created for, and that tag is what the `dynamic_cast`s of the source test. */
module MaterialProperties {
  import opened Wrappers
  import opened MooseArrays
  import D = RestartDataIO

  type TypeName = string

  /** An `int` converted to `unsigned int`: the value modulo 2^32. */
  function IntToUint(n: int): (r: uint)
    ensures 0 <= n < UINT_LIMIT ==> r == n
    ensures -UINT_LIMIT <= n < 0 ==> r == n + UINT_LIMIT
  {
    n % UINT_LIMIT
  }

  class MaterialProperty<V(0)> {
    /** `type()`: the `T` the property was created for. */
    const typeName: TypeName
    /** `_value`: one entry per quadrature point. */
    const value: MooseArray<V>

    ghost predicate Valid()
      reads value
    {
      value.Valid()
    }

    /** The values at the quadrature points. */
    ghost function Values(): seq<V>
      reads value, value.data
      requires Valid()
    {
      value.Contents()
    }

    /** `new MaterialProperty<T>`: no quadrature points yet. */
    constructor(t: TypeName)
      ensures typeName == t && fresh(value) && Valid() && value.size == 0 && value.data == null
    {
      typeName := t;
      value := new MooseArray.Empty();
    }

    /** `size()`. */
    method Size() returns (n: uint)
      requires Valid()
      ensures n == |Values()|
    {
      n := value.size;
    }

    /** `resize(int n)`: the value array's `resize`, with `n` converted to `unsigned int`;
        what the entries hold after growing past the capacity is unspecified. */
    method Resize(n: int)
      requires Valid()
      modifies value
      ensures Valid() && value.size == IntToUint(n)
      ensures IntToUint(n) <= old(value.capacity) ==> value.data == old(value.data)
    {
      value.Resize(IntToUint(n));
    }

    /** `swap`: the two value arrays are exchanged; `rhs` is cast to this property's type. */
    method Swap(rhs: MaterialProperty<V>)
      requires Valid() && rhs.Valid() && rhs.typeName == typeName
      modifies value, rhs.value
      ensures Valid() && rhs.Valid()
      ensures Values() == old(rhs.Values()) && rhs.Values() == old(Values())
    {
      value.Swap(rhs.value);
    }

    /** `qpCopy(to_qp, rhs, from_qp)`: this property's entry `to` becomes `rhs`'s entry
        `from`; no other entry changes. */
    method QpCopy(to: uint, rhs: MaterialProperty<V>, from: uint)
      requires Valid() && rhs.Valid() && rhs.typeName == typeName
      requires to < value.size && from < rhs.value.size
      modifies value.data
      ensures Valid()
      ensures Values() == old(Values())[to := old(rhs.Values())[from]]
    {
      var x := rhs.value.Get(from);
      value.Set(to, x);
    }

    /** `init(size)` through `_init_helper`: a new property of the same type whose `size`
        entries (converted to `unsigned int`) are all the value-initialised default `d`
        (`P{}`, or the empty vector for vector-valued properties). */
    method Init(size: int, d: V) returns (p: MaterialProperty<V>)
      ensures fresh(p) && fresh(p.value) && p.typeName == typeName && p.Valid()
      ensures p.Values() == seq(IntToUint(size), _ => d)
    {
      p := new MaterialProperty(typeName);
      p.value.ResizeWithDefault(IntToUint(size), d);
    }

    /** `store`: every entry in index order, each with `storeHelper`. */
    method Store(out: D.OutStream, c: D.Codec<V>)
      requires Valid()
      modifies out
      ensures out.written == old(out.written) + D.Elems(c, Values())
    {
      ghost var start := out.written;
      ghost var vs := Values();
      for i := 0 to value.size
        invariant out.written == start + D.Elems(c, vs[..i])
      {
        var x := value.Get(i);
        D.ElemsSnoc(c, vs[..i], x);
        assert vs[..i + 1] == vs[..i] + [x];
        out.Write(c.enc(x));
      }
      assert vs[..value.size] == vs;
    }

    /** `load`: as many entries as the property holds now are read, each with `loadHelper`;
        the size itself is not read. */
    method Load(inp: D.InStream, c: D.Codec<V>) returns (ok: bool)
      requires Valid() && inp.Valid()
      modifies inp, value.data
      ensures Valid() && inp.Valid() && value.size == old(value.size)
      ensures var d := D.DecodeElems(c, old(value.size), old(inp.Remaining()));
        (ok <==> d.Some?) && (ok ==> Values() == d.value.0 && inp.pos == old(inp.pos) + d.value.1)
    {
      var xs := D.LoadElems(inp, c, value.size);
      if xs.None? {
        return false;
      }
      var vs := xs.value;
      for i := 0 to value.size
        modifies value.data
        invariant Valid() && |Values()| == value.size == |vs|
        invariant forall j :: 0 <= j < i ==> Values()[j] == vs[j]
      {
        value.Set(i, vs[i]);
      }
      assert Values() == vs;
      return true;
    }
  }

  /** Writing two runs of elements one after the other is writing their concatenation. */
  lemma {:induction false} ElemsAppend<V>(c: D.Codec<V>, xs: seq<V>, ys: seq<V>)
    ensures D.Elems(c, xs + ys) == D.Elems(c, xs) + D.Elems(c, ys)
  {
    if |xs| > 0 {
      assert (xs + ys)[1..] == xs[1..] + ys;
      ElemsAppend(c, xs[1..], ys);
    } else {
      assert xs + ys == ys;
    }
  }

  /** A property loaded from a stream reads as many entries as it holds, not as many as were
      stored: after `store` of `xs`, a property of size `n <= |xs|` reads back the first `n`
      entries only and leaves the others' bytes in the stream. */
  lemma {:induction false} LoadReadsCurrentSize<V(!new)>(c: D.Codec<V>, xs: seq<V>, n: nat, rest: seq<D.byte>)
    requires D.Sound(c) && n <= |xs|
    ensures D.DecodeElems(c, n, D.Elems(c, xs) + rest) == Some((xs[..n], |D.Elems(c, xs[..n])|))
  {
    assert xs == xs[..n] + xs[n..];
    ElemsAppend(c, xs[..n], xs[n..]);
    assert D.Elems(c, xs) + rest == D.Elems(c, xs[..n]) + (D.Elems(c, xs[n..]) + rest);
    D.ElemsRoundTrip(c, xs[..n], D.Elems(c, xs[n..]) + rest);
  }

  // ---------------------------------------------------------------------------------
  // MaterialProperties: a vector of property pointers

  /** The type tag of every slot; a null slot has none. */
  function TypesOf<V(0)>(props: seq<MaterialProperty?<V>>): (ts: seq<Option<TypeName>>)
    ensures |ts| == |props|
    ensures forall k :: 0 <= k < |props| ==> ts[k] == if props[k] == null then None else Some(props[k].typeName)
  {
    if |props| == 0 then [] else [if props[0] == null then None else Some(props[0].typeName)] + TypesOf(props[1..])
  }

  /** The value arrays of the non-null slots. */
  ghost function Arrays<V(0)>(props: seq<MaterialProperty?<V>>): set<MooseArray<V>>
  {
    set k | 0 <= k < |props| && props[k] != null :: props[k].value
  }

  ghost predicate SlotsValid<V(0)>(props: seq<MaterialProperty?<V>>)
    reads Arrays(props)
  {
    forall k :: 0 <= k < |props| && props[k] != null ==> props[k].value in Arrays(props) && props[k].Valid()
  }

  /** `resizeItems(n)`: every non-null slot's property is resized to `n` quadrature points;
      null slots are skipped and the vector itself does not change. */
  method ResizeItems<V(0)>(props: seq<MaterialProperty?<V>>, n: uint)
    requires SlotsValid(props)
    modifies Arrays(props)
    ensures SlotsValid(props)
    ensures forall k :: 0 <= k < |props| && props[k] != null ==> props[k].value.size == n
  {
    for i := 0 to |props|
      invariant SlotsValid(props)
      invariant forall k :: 0 <= k < i && props[k] != null ==> props[k].value.size == n
    {
      if props[i] != null {
        props[i].Resize(n);
      }
    }
  }

  /** Every property has a valid value array (the slots of a stored vector are not null). */
  ghost predicate AllValid<V(0)>(props: seq<MaterialProperty<V>>)
    reads set p | p in props :: p.value
  {
    forall p :: p in props ==> p.Valid()
  }

  /** No two properties write into the same block (blocks of empty arrays aside). */
  ghost predicate Separate<V(0)>(props: seq<MaterialProperty<V>>)
    reads set p | p in props :: p.value
  {
    forall i, j :: 0 <= i < |props| && 0 <= j < |props| && i != j ==>
      props[i].value.data == null || props[i].value.data != props[j].value.data
  }

  /** The values of every property, in vector order. */
  ghost function ValuesOf<V(0)>(props: seq<MaterialProperty<V>>): (vs: seq<seq<V>>)
    reads set p | p in props :: p.value
    reads set p | p in props :: p.value.data
    requires AllValid(props)
    ensures |vs| == |props|
    ensures forall k :: 0 <= k < |props| ==> vs[k] == props[k].Values()
    decreases |props|
  {
    if |props| == 0 then [] else [props[0].Values()] + ValuesOf(props[1..])
  }

  /** The number of quadrature points of every property, in vector order. */
  function SizesOf<V(0)>(props: seq<MaterialProperty<V>>): (ns: seq<nat>)
    reads set p | p in props :: p.value
    ensures |ns| == |props|
    ensures forall k :: 0 <= k < |props| ==> ns[k] == props[k].value.size
    decreases |props|
  {
    if |props| == 0 then [] else [props[0].value.size as nat] + SizesOf(props[1..])
  }

  /** The lengths of a sequence of value runs. */
  function Lengths<V>(vs: seq<seq<V>>): (ns: seq<nat>)
    ensures |ns| == |vs|
    ensures forall k :: 0 <= k < |vs| ==> ns[k] == |vs[k]|
  {
    if |vs| == 0 then [] else [|vs[0]|] + Lengths(vs[1..])
  }

  /** Each property's own `store`, one after the other. */
  function AllElems<V>(c: D.Codec<V>, vs: seq<seq<V>>): seq<D.byte>
  {
    if |vs| == 0 then [] else D.Elems(c, vs[0]) + AllElems(c, vs[1..])
  }

  lemma {:induction false} AllElemsSnoc<V>(c: D.Codec<V>, vs: seq<seq<V>>, v: seq<V>)
    ensures AllElems(c, vs + [v]) == AllElems(c, vs) + D.Elems(c, v)
  {
    if |vs| > 0 {
      assert (vs + [v])[1..] == vs[1..] + [v];
      AllElemsSnoc(c, vs[1..], v);
    } else {
      assert (vs + [v])[1..] == [];
    }
  }

  /** Each property's own `load`, one after the other, property `k` reading `ns[k]` entries
      where property `k - 1` stopped. */
  function DecodeAll<V>(c: D.Codec<V>, ns: seq<nat>, bs: seq<D.byte>): (r: Option<(seq<seq<V>>, nat)>)
    ensures r.Some? ==> |r.value.0| == |ns| && r.value.1 <= |bs|
    decreases |ns|
  {
    if |ns| == 0 then Some(([], 0))
    else match DecodeAll(c, ns[..|ns| - 1], bs)
      case None => None
      case Some(e) =>
        match D.DecodeElems(c, ns[|ns| - 1], bs[e.1..])
        case None => None
        case Some(d) => Some((e.0 + [d.0], e.1 + d.1))
  }

  /** Loading into properties sized as the stored ones gives back every stored value and
      consumes exactly the stored bytes. */
  lemma {:induction false} AllElemsRoundTrip<V(!new)>(c: D.Codec<V>, vs: seq<seq<V>>, rest: seq<D.byte>)
    requires D.Sound(c)
    ensures DecodeAll(c, Lengths(vs), AllElems(c, vs) + rest) == Some((vs, |AllElems(c, vs)|))
    decreases |vs|
  {
    if |vs| > 0 {
      var init, last := vs[..|vs| - 1], vs[|vs| - 1];
      AllElemsRoundTrip(c, init, D.Elems(c, last) + rest);
      D.ElemsRoundTrip(c, last, rest);
      RoundTripStep(c, init, last, rest);
      assert vs == init + [last];
    }
  }

  /** The step of `AllElemsRoundTrip`: the first properties come back, then the last. */
  lemma {:induction false} RoundTripStep<V>(c: D.Codec<V>, init: seq<seq<V>>, last: seq<V>, rest: seq<D.byte>)
    requires DecodeAll(c, Lengths(init), AllElems(c, init) + (D.Elems(c, last) + rest)) == Some((init, |AllElems(c, init)|))
    requires D.DecodeElems(c, |last|, D.Elems(c, last) + rest) == Some((last, |D.Elems(c, last)|))
    ensures DecodeAll(c, Lengths(init + [last]), AllElems(c, init + [last]) + rest)
         == Some((init + [last], |AllElems(c, init + [last])|))
  {
    var tail := D.Elems(c, last) + rest;
    var k := |AllElems(c, init)|;
    var ns := Lengths(init + [last]);
    assert ns[..|ns| - 1] == Lengths(init);
    AllElemsSnoc(c, init, last);
    var bs := AllElems(c, init + [last]) + rest;
    AppendAssoc(AllElems(c, init), D.Elems(c, last), rest);
    DropPrefix(AllElems(c, init), tail);
    assert ns[|ns| - 1] == |last|;
    assert bs == AllElems(c, init) + tail && bs[k..] == tail;
    DecodeAllStep(c, ns, bs, init, k, last, |D.Elems(c, last)|);
    assert |AllElems(c, init + [last])| == k + |D.Elems(c, last)|;
  }

  /** A decode is the decode of all but the last property, then the last one's. */
  lemma {:induction false} DecodeAllStep<V>(c: D.Codec<V>, ns: seq<nat>, bs: seq<D.byte>, acc: seq<seq<V>>, k: nat, x: seq<V>, u: nat)
    requires |ns| > 0 && DecodeAll(c, ns[..|ns| - 1], bs) == Some((acc, k)) && k <= |bs|
    requires D.DecodeElems(c, ns[|ns| - 1], bs[k..]) == Some((x, u))
    ensures DecodeAll(c, ns, bs) == Some((acc + [x], k + u))
  {
  }

  lemma {:induction false} DropPrefix<T>(a: seq<T>, b: seq<T>)
    ensures (a + b)[|a|..] == b
  {
  }

  /** Decoding one more property after a successful decode of the first ones. */
  lemma {:induction false} DecodeAllSnoc<V>(c: D.Codec<V>, ns: seq<nat>, n: nat, bs: seq<D.byte>,
                         acc: seq<seq<V>>, k: nat, x: seq<V>, u: nat)
    requires DecodeAll(c, ns, bs) == Some((acc, k)) && k <= |bs|
    requires D.DecodeElems(c, n, bs[k..]) == Some((x, u))
    ensures DecodeAll(c, ns + [n], bs) == Some((acc + [x], k + u))
  {
    assert (ns + [n])[..|ns|] == ns;
  }

  /** When property `i`'s decode fails after the first `i` succeeded, the whole decode
      fails. */
  lemma {:induction false} DecodeAllFailsAt<V>(c: D.Codec<V>, ns: seq<nat>, i: nat, bs: seq<D.byte>,
                                               acc: seq<seq<V>>, k: nat)
    requires i < |ns| && DecodeAll(c, ns[..i], bs) == Some((acc, k)) && k <= |bs|
    requires D.DecodeElems(c, ns[i], bs[k..]).None?
    ensures DecodeAll(c, ns, bs).None?
    decreases |ns|
  {
    if i == |ns| - 1 {
      assert ns[..|ns| - 1] == ns[..i];
    } else {
      assert ns[..|ns| - 1][..i] == ns[..i];
      DecodeAllFailsAt(c, ns[..|ns| - 1], i, bs, acc, k);
    }
  }

  /** One property's `store` after the ones before it. */
  method StoreStep<V(0)>(out: D.OutStream, c: D.Codec<V>, p: MaterialProperty<V>,
                         ghost start: seq<D.byte>, ghost pre: seq<seq<V>>)
    requires p.Valid() && out.written == start + AllElems(c, pre)
    modifies out
    ensures out.written == start + AllElems(c, pre + [p.Values()])
  {
    p.Store(out, c);
    AllElemsSnoc(c, pre, p.Values());
  }

  /** Each property's own `store`, in vector order. */
  method StoreEach<V(0)>(out: D.OutStream, c: D.Codec<V>, props: seq<MaterialProperty<V>>)
    requires AllValid(props)
    modifies out
    ensures out.written == old(out.written) + AllElems(c, old(ValuesOf(props)))
  {
    ghost var start := out.written;
    ghost var vs := ValuesOf(props);
    for i := 0 to |props|
      invariant out.written == start + AllElems(c, vs[..i])
    {
      var p := props[i];
      assert p.Valid();
      assert p.Values() == vs[i];
      StoreStep(out, c, p, start, vs[..i]);
      assert vs[..i + 1] == vs[..i] + [vs[i]];
    }
    assert vs[..|props|] == vs;
  }

  /** `dataStore(MaterialProperties)`: the vector store, so the size as `unsigned int` and
      then that many properties, each with its own `store` (which writes no count). */
  method StoreProperties<V(0)>(out: D.OutStream, c: D.Codec<V>, props: seq<MaterialProperty<V>>)
    requires AllValid(props)
    modifies out
    ensures var n := D.ToUint(|props|);
      out.written == old(out.written) + D.Le32(n) + AllElems(c, old(ValuesOf(props[..n])))
  {
    var n := D.ToUint(|props|);
    out.Write(D.Le32(n));
    var kept := props[..n];
    assert forall p :: p in kept ==> p in props;
    StoreEach(out, c, kept);
  }

  /** Why `dataLoad(MaterialProperties)` stops: the stream ran out, or the stored vector is
      longer than the target so that the new slots are null when their `load` is called. */
  datatype LoadError = StreamEnded | NullSlot(index: nat)

  /** Property `i`'s own `load`; no other property changes. */
  method LoadAt<V(0)>(inp: D.InStream, c: D.Codec<V>, props: seq<MaterialProperty<V>>, i: nat) returns (ok: bool)
    requires inp.Valid() && AllValid(props) && Separate(props) && i < |props|
    modifies inp, props[i].value.data
    ensures inp.Valid() && AllValid(props) && Separate(props)
    ensures forall k :: 0 <= k < |props| ==> props[k].value.size == old(props[k].value.size)
    ensures forall k :: 0 <= k < |props| && k != i ==> props[k].Values() == old(props[k].Values())
    ensures var d := D.DecodeElems(c, old(props[i].value.size), old(inp.Remaining()));
      (ok <==> d.Some?) && (ok ==> props[i].Values() == d.value.0 && inp.pos == old(inp.pos) + d.value.1)
  {
    ok := props[i].Load(inp, c);
    forall k | 0 <= k < |props| && k != i
      ensures props[k].Values() == old(props[k].Values())
    {
      var a := props[k].value;
      if a.data != null {
        assert a.data != props[i].value.data;
      }
    }
  }

  /** What the first `i` loads have established: they read `acc` from the start of `bs0`,
      which begins at stream position `p0`. */
  ghost predicate Loaded<V(0)>(inp: D.InStream, c: D.Codec<V>, props: seq<MaterialProperty<V>>,
                               ns: seq<nat>, bs0: seq<D.byte>, p0: nat, acc: seq<seq<V>>, i: nat)
    reads inp, set p | p in props :: p.value, set p | p in props :: p.value.data
  {
    inp.Valid() && AllValid(props) && Separate(props) && p0 <= inp.pos && bs0 == inp.data[p0..]
    && |ns| == |props| && i <= |props| && |acc| == i
    && (forall k :: 0 <= k < |props| ==> props[k].value.size == ns[k])
    && (forall k :: 0 <= k < i ==> props[k].Values() == acc[k])
    && DecodeAll(c, ns[..i], bs0) == Some((acc, inp.pos - p0))
  }

  /** Property `i`'s own `load`, one step of `LoadEach`. */
  method LoadNext<V(0)>(inp: D.InStream, c: D.Codec<V>, props: seq<MaterialProperty<V>>,
                        ghost ns: seq<nat>, ghost bs0: seq<D.byte>, ghost p0: nat, ghost acc: seq<seq<V>>, i: nat)
      returns (ok: bool, ghost acc': seq<seq<V>>)
    requires i < |props| && Loaded(inp, c, props, ns, bs0, p0, acc, i)
    modifies inp, props[i].value.data
    ensures inp.Valid() && AllValid(props)
    ensures ok ==> Loaded(inp, c, props, ns, bs0, p0, acc', i + 1)
    ensures !ok ==> DecodeAll(c, ns, bs0).None?
  {
    ghost var pos := inp.pos;
    ghost var k := pos - p0;
    assert bs0[k..] == inp.data[pos..];
    ok := LoadAt(inp, c, props, i);
    if !ok {
      DecodeAllFailsAt(c, ns, i, bs0, acc, k);
      return false, acc;
    }
    ghost var x := props[i].Values();
    DecodeAllSnoc(c, ns[..i], ns[i], bs0, acc, k, x, inp.pos - pos);
    assert ns[..i] + [ns[i]] == ns[..i + 1];
    acc' := acc + [x];
  }

  /** A sequence agreeing with every property's values is their `ValuesOf`. */
  lemma {:induction false} ValuesOfAgrees<V(0)>(props: seq<MaterialProperty<V>>, vs: seq<seq<V>>)
    requires AllValid(props) && |vs| == |props|
    requires forall k :: 0 <= k < |props| ==> props[k].Values() == vs[k]
    ensures ValuesOf(props) == vs
  {
  }

  /** Each property's own `load`, in vector order, stopping at the first that fails. */
  method LoadEach<V(0)>(inp: D.InStream, c: D.Codec<V>, props: seq<MaterialProperty<V>>) returns (ok: bool)
    requires inp.Valid() && AllValid(props) && Separate(props)
    modifies inp, set p | p in props :: p.value.data
    ensures inp.Valid() && AllValid(props)
    ensures var d := DecodeAll(c, old(SizesOf(props)), old(inp.Remaining()));
      (ok <==> d.Some?) && (ok ==> ValuesOf(props) == d.value.0 && inp.pos == old(inp.pos) + d.value.1)
  {
    ghost var ns := SizesOf(props);
    ghost var p0 := inp.pos;
    ghost var bs0 := inp.data[p0..];
    ghost var acc: seq<seq<V>> := [];
    assert ns[..0] == [];
    assert Loaded(inp, c, props, ns, bs0, p0, acc, 0);
    for i := 0 to |props|
      invariant Loaded(inp, c, props, ns, bs0, p0, acc, i)
    {
      ok, acc := LoadNext(inp, c, props, ns, bs0, p0, acc, i);
      if !ok {
        return false;
      }
    }
    assert ns[..|props|] == ns;
    ValuesOfAgrees(props, acc);
    return true;
  }

  /** `dataLoad(MaterialProperties)`: the stored size, the vector resized to it, then each
      property's own `load`, which reads as many entries as that property holds. */
  method LoadProperties<V(0)>(inp: D.InStream, c: D.Codec<V>, props: seq<MaterialProperty<V>>)
      returns (r: Result<seq<MaterialProperty<V>>, LoadError>)
    requires inp.Valid() && AllValid(props) && Separate(props)
    modifies inp, set p | p in props :: p.value.data
    ensures inp.Valid()
    ensures old(|inp.Remaining()|) < 4 ==> r == Err(StreamEnded)
    ensures old(|inp.Remaining()|) >= 4 && D.FromLe32(old(inp.Remaining())) > |props| ==>
      r == Err(NullSlot(|props|))
    ensures old(|inp.Remaining()|) >= 4 && D.FromLe32(old(inp.Remaining())) <= |props| ==>
      var n := D.FromLe32(old(inp.Remaining()));
      var d := DecodeAll(c, old(SizesOf(props[..n])), old(inp.Remaining())[4..]);
      (r.Ok? <==> d.Some?)
      && (r.Ok? ==> r.value == props[..n] && AllValid(r.value) && ValuesOf(r.value) == d.value.0
                    && inp.pos == old(inp.pos) + 4 + d.value.1)
  {
    ghost var start := inp.data[inp.pos..];
    var size := inp.ReadCount();
    if size.None? {
      return Err(StreamEnded);
    }
    var n := size.value;
    if n > |props| {
      return Err(NullSlot(|props|));
    }
    assert start[4..] == inp.data[inp.pos..];
    var kept := props[..n];
    assert forall p :: p in kept ==> p in props;
    ghost var ns := SizesOf(kept);
    assert ns == old(SizesOf(props[..n]));
    assert inp.Remaining() == old(inp.Remaining())[4..];
    var ok := LoadEach(inp, c, kept);
    if !ok {
      return Err(StreamEnded);
    }
    return Ok(kept);
  }
}
