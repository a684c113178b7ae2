/** The per-material proxy of property storage (framework/include/materials/MaterialData.h):
    three parallel slot vectors for the current, old and older values of every property,
    indexed by the property id the storage hands out. The storage itself (the name-to-id
    table and `addProperty*`) is not part of this model: ids arrive as parameters. */
module MaterialDatas {
  import opened Wrappers
  import opened MaterialProperties

  /** Which of the three slot vectors: `_props`, `_props_old` or `_props_older`. */
  datatype Stage = Current | Old | Older

  // ---------------------------------------------------------------------------------
  // The slot vectors seen through their type tags

  /** The type tags of a slot vector after `resizeProps<T>(k)`: grown with null slots to
      hold index `k`, and slot `k` filled with a new `T` property when it was null. */
  function Grown(ts: seq<Option<TypeName>>, k: nat, t: TypeName): seq<Option<TypeName>>
  {
    var padded := if |ts| < k + 1 then ts + seq(k + 1 - |ts|, _ => None) else ts;
    if padded[k].None? then padded[k := Some(t)] else padded
  }

  /** The vector holds index `k` afterwards and has not shrunk; slot `k` is filled, with the
      type it had if it had one; every other slot keeps its tag, and new ones are null. */
  lemma {:induction false} GrownSlots(ts: seq<Option<TypeName>>, k: nat, t: TypeName)
    ensures var r := Grown(ts, k, t);
      |r| == (if |ts| < k + 1 then k + 1 else |ts|)
      && r[k] == (if k < |ts| && ts[k].Some? then ts[k] else Some(t))
      && (forall j :: 0 <= j < |r| && j != k ==> r[j] == (if j < |ts| then ts[j] else None))
  {
  }

  /** `resizeProps` a second time, for the same id and any type, changes nothing. */
  lemma {:induction false} GrownIdempotent(ts: seq<Option<TypeName>>, k: nat, t: TypeName, t2: TypeName)
    ensures Grown(Grown(ts, k, t), k, t2) == Grown(ts, k, t)
  {
    GrownSlots(ts, k, t);
  }

  /** After `resizeProps<T>(k)`, slot `k` holds a `T` exactly when it was null or out of
      range, or already held a `T`. */
  lemma {:induction false} GrownHoldsType(ts: seq<Option<TypeName>>, k: nat, t: TypeName)
    ensures Grown(ts, k, t)[k] == Some(t) <==> k >= |ts| || ts[k].None? || ts[k] == Some(t)
  {
    GrownSlots(ts, k, t);
  }

  /** One slot vector grown as `resizeProps<T>(k)` grows it: the properties already there
      stay where they are, and slot `k`, if null, receives a new empty `T` property. */
  method Grow<V(0)>(slots: seq<MaterialProperty?<V>>, k: nat, t: TypeName) returns (r: seq<MaterialProperty?<V>>)
    ensures TypesOf(r) == Grown(TypesOf(slots), k, t)
    ensures Keeps(slots, r)
    ensures k < |r| && r[k] != null
    ensures (k < |slots| && slots[k] != null) || (fresh(r[k]) && fresh(r[k].value) && r[k].Valid() && r[k].value.size == 0)
  {
    r := slots;
    if |r| < k + 1 {
      r := r + seq(k + 1 - |r|, _ => null);
    }
    ghost var padded := r;
    assert TypesOf(padded) == if |TypesOf(slots)| < k + 1 then TypesOf(slots) + seq(k + 1 - |slots|, _ => None) else TypesOf(slots);
    if r[k] == null {
      var p := new MaterialProperty(t);
      r := r[k := p];
      assert TypesOf(r) == TypesOf(padded)[k := Some(t)];
    }
  }

  /** `b` is `a` grown: every property of `a` is still in its slot, and `b` is no shorter. */
  ghost predicate Keeps<V(0)>(a: seq<MaterialProperty?<V>>, b: seq<MaterialProperty?<V>>)
  {
    |a| <= |b| && forall j :: 0 <= j < |a| && a[j] != null ==> b[j] == a[j]
  }

  class MaterialData<V(0)> {
    /** `_props`, `_props_old`, `_props_older`. */
    var props: seq<MaterialProperty?<V>>
    var propsOld: seq<MaterialProperty?<V>>
    var propsOlder: seq<MaterialProperty?<V>>

    function Slots(s: Stage): seq<MaterialProperty?<V>>
      reads this
    {
      match s
      case Current => props
      case Old => propsOld
      case Older => propsOlder
    }

    /** No slots yet. */
    constructor()
      ensures props == [] && propsOld == [] && propsOlder == []
    {
      props, propsOld, propsOlder := [], [], [];
    }

    /** `haveProperty<T>(name)`: the storage knows the name (`ids` stands for its table),
        this object has a current slot for its id, and that slot holds a `T`. */
    method HaveProperty(ids: map<string, nat>, name: string, t: TypeName) returns (b: bool)
      ensures b <==> name in ids && ids[name] < |props| && TypesOf(props)[ids[name]] == Some(t)
    {
      if name !in ids {
        return false;
      }
      var id := ids[name];
      if id >= |props| {
        return false;
      }
      b := props[id] != null && props[id].typeName == t;
    }

    /** `resizeProps<T>(k)`: all three vectors hold index `k` afterwards, and each one's slot
        `k` holds a property; nothing already there is replaced. */
    method ResizeProps(k: nat, t: TypeName)
      modifies this
      ensures TypesOf(props) == Grown(old(TypesOf(props)), k, t)
      ensures TypesOf(propsOld) == Grown(old(TypesOf(propsOld)), k, t)
      ensures TypesOf(propsOlder) == Grown(old(TypesOf(propsOlder)), k, t)
      ensures Keeps(old(props), props) && Keeps(old(propsOld), propsOld) && Keeps(old(propsOlder), propsOlder)
      ensures k < |props| && props[k] != null && k < |propsOld| && propsOld[k] != null
      ensures k < |propsOlder| && propsOlder[k] != null
    {
      props := Grow(props, k, t);
      propsOld := Grow(propsOld, k, t);
      propsOlder := Grow(propsOlder, k, t);
    }

    /** `declareHelper<T>(props, name, id)`: the slots are grown for `id`, and the chosen
        vector's slot `id` is returned when it holds a `T`; otherwise the debug assertion
        fails. */
    method DeclareHelper(s: Stage, name: string, id: nat, t: TypeName) returns (r: Result<MaterialProperty<V>, string>)
      modifies this
      ensures TypesOf(props) == Grown(old(TypesOf(props)), id, t)
      ensures TypesOf(propsOld) == Grown(old(TypesOf(propsOld)), id, t)
      ensures TypesOf(propsOlder) == Grown(old(TypesOf(propsOlder)), id, t)
      ensures Keeps(old(props), props) && Keeps(old(propsOld), propsOld) && Keeps(old(propsOlder), propsOlder)
      ensures r.Ok? <==> TypesOf(Slots(s))[id] == Some(t)
      ensures r.Ok? ==> r.value == Slots(s)[id]
      ensures r.Err? ==> r.error == "Internal error in declaring material property: " + name
    {
      ResizeProps(id, t);
      var p := Slots(s)[id];
      if p.typeName != t {
        return Err("Internal error in declaring material property: " + name);
      }
      return Ok(p);
    }

    /** `declareProperty<T>(name)`, with `id` what the storage's `addProperty(name)`
        returns. */
    method DeclareProperty(name: string, id: nat, t: TypeName) returns (r: Result<MaterialProperty<V>, string>)
      modifies this
      ensures TypesOf(props) == Grown(old(TypesOf(props)), id, t)
      ensures TypesOf(propsOld) == Grown(old(TypesOf(propsOld)), id, t)
      ensures TypesOf(propsOlder) == Grown(old(TypesOf(propsOlder)), id, t)
      ensures Keeps(old(props), props) && Keeps(old(propsOld), propsOld) && Keeps(old(propsOlder), propsOlder)
      ensures r.Ok? <==> TypesOf(props)[id] == Some(t)
      ensures r.Ok? ==> r.value == props[id]
      ensures r.Err? ==> r.error == "Internal error in declaring material property: " + name
    {
      r := DeclareHelper(Current, name, id, t);
    }

    /** `getPropertyOld<T>(name)`: the old vector's slot, with `id` from the storage's
        `addPropertyOld(name)`. */
    method GetPropertyOld(name: string, id: nat, t: TypeName) returns (r: Result<MaterialProperty<V>, string>)
      modifies this
      ensures TypesOf(props) == Grown(old(TypesOf(props)), id, t)
      ensures TypesOf(propsOld) == Grown(old(TypesOf(propsOld)), id, t)
      ensures TypesOf(propsOlder) == Grown(old(TypesOf(propsOlder)), id, t)
      ensures Keeps(old(props), props) && Keeps(old(propsOld), propsOld) && Keeps(old(propsOlder), propsOlder)
      ensures r.Ok? <==> TypesOf(propsOld)[id] == Some(t)
      ensures r.Ok? ==> r.value == propsOld[id]
      ensures r.Err? ==> r.error == "Internal error in declaring material property: " + name
    {
      r := DeclareHelper(Old, name, id, t);
    }

    /** `getPropertyOlder<T>(name)`: the older vector's slot, with `id` from the storage's
        `addPropertyOlder(name)`. */
    method GetPropertyOlder(name: string, id: nat, t: TypeName) returns (r: Result<MaterialProperty<V>, string>)
      modifies this
      ensures TypesOf(props) == Grown(old(TypesOf(props)), id, t)
      ensures TypesOf(propsOld) == Grown(old(TypesOf(propsOld)), id, t)
      ensures TypesOf(propsOlder) == Grown(old(TypesOf(propsOlder)), id, t)
      ensures Keeps(old(props), props) && Keeps(old(propsOld), propsOld) && Keeps(old(propsOlder), propsOlder)
      ensures r.Ok? <==> TypesOf(propsOlder)[id] == Some(t)
      ensures r.Ok? ==> r.value == propsOlder[id]
      ensures r.Err? ==> r.error == "Internal error in declaring material property: " + name
    {
      r := DeclareHelper(Older, name, id, t);
    }

    /** `declarePropertyOld<T>`: the same as `getPropertyOld<T>`. */
    method DeclarePropertyOld(name: string, id: nat, t: TypeName) returns (r: Result<MaterialProperty<V>, string>)
      modifies this
      ensures TypesOf(props) == Grown(old(TypesOf(props)), id, t)
      ensures TypesOf(propsOld) == Grown(old(TypesOf(propsOld)), id, t)
      ensures TypesOf(propsOlder) == Grown(old(TypesOf(propsOlder)), id, t)
      ensures Keeps(old(props), props) && Keeps(old(propsOld), propsOld) && Keeps(old(propsOlder), propsOlder)
      ensures r.Ok? <==> TypesOf(propsOld)[id] == Some(t)
      ensures r.Ok? ==> r.value == propsOld[id]
      ensures r.Err? ==> r.error == "Internal error in declaring material property: " + name
    {
      r := GetPropertyOld(name, id, t);
    }

    /** `declarePropertyOlder<T>`: the same as `getPropertyOlder<T>`. */
    method DeclarePropertyOlder(name: string, id: nat, t: TypeName) returns (r: Result<MaterialProperty<V>, string>)
      modifies this
      ensures TypesOf(props) == Grown(old(TypesOf(props)), id, t)
      ensures TypesOf(propsOld) == Grown(old(TypesOf(propsOld)), id, t)
      ensures TypesOf(propsOlder) == Grown(old(TypesOf(propsOlder)), id, t)
      ensures Keeps(old(props), props) && Keeps(old(propsOld), propsOld) && Keeps(old(propsOlder), propsOlder)
      ensures r.Ok? <==> TypesOf(propsOlder)[id] == Some(t)
      ensures r.Ok? ==> r.value == propsOlder[id]
      ensures r.Err? ==> r.error == "Internal error in declaring material property: " + name
    {
      r := GetPropertyOlder(name, id, t);
    }

    /** `getProperty<T>(name)`, with `id` the storage's `getPropertyId(name)`: the slots are
        grown for `id`, and a current slot holding another type is an error. */
    method GetProperty(name: string, id: nat, t: TypeName) returns (r: Result<MaterialProperty<V>, string>)
      modifies this
      ensures TypesOf(props) == Grown(old(TypesOf(props)), id, t)
      ensures TypesOf(propsOld) == Grown(old(TypesOf(propsOld)), id, t)
      ensures TypesOf(propsOlder) == Grown(old(TypesOf(propsOlder)), id, t)
      ensures Keeps(old(props), props) && Keeps(old(propsOld), propsOld) && Keeps(old(propsOlder), propsOlder)
      ensures r.Ok? <==> TypesOf(props)[id] == Some(t)
      ensures r.Ok? ==> r.value == props[id]
      ensures r.Err? ==> r.error == "Material has no property named: " + name
    {
      ResizeProps(id, t);
      var p := props[id];
      if p.typeName != t {
        return Err("Material has no property named: " + name);
      }
      return Ok(p);
    }
  }

  /** Declaring a property twice under the same id: the second declaration succeeds exactly
      when the first did, returns the same object, and grows no vector further. */
  method DeclareTwice<V(0)>(d: MaterialData<V>, name: string, id: nat, t: TypeName)
      returns (first: Result<MaterialProperty<V>, string>, second: Result<MaterialProperty<V>, string>)
    modifies d
    ensures first.Ok? <==> second.Ok?
    ensures first.Ok? ==> second.value == first.value
    ensures TypesOf(d.props) == Grown(old(TypesOf(d.props)), id, t)
  {
    first := d.DeclareProperty(name, id, t);
    second := d.DeclareProperty(name, id, t);
    GrownIdempotent(old(TypesOf(d.props)), id, t, t);
  }
}
