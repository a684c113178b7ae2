/** Container helpers of the XFEM fragment algorithm (modules/xfem/include/efa/EFAFuncs.h):
    removing an element from an id-keyed map, the next free id, and the common elements of
    two ordered sets. A `std::set` is its iteration sequence, strictly increasing; elements
    are `int`s ordered as the set orders them. */
module EfaFuncs {
  const UINT_LIMIT: int := 0x1_0000_0000

  /** `unsigned int`. */
  type uint = x: int | 0 <= x < UINT_LIMIT

  // ---------------------------------------------------------------------------------
  // deleteFromMap, getNewID

  /** `deleteFromMap(theMap, elem)` for the element whose `id()` is `id`: the answer and the
      map afterwards. */
  function DeleteFromMap<T>(m: map<uint, T>, id: uint): (r: (bool, map<uint, T>))
    ensures r.0 <==> id in m
    ensures r.1.Keys == m.Keys - {id}
    ensures forall k :: k in r.1 ==> r.1[k] == m[k]
  {
    if id in m then (true, m - {id}) else (false, m)
  }

  /** A missing id leaves the map as it was. */
  lemma {:induction false} DeleteMissing<T>(m: map<uint, T>, id: uint)
    requires id !in m
    ensures DeleteFromMap(m, id) == (false, m)
  {
  }

  /** The largest key, `rbegin()->first`. */
  ghost function MaxKey(s: set<uint>): (r: uint)
    requires s != {}
    ensures r in s && forall k :: k in s ==> k <= r
    decreases |s|
  {
    var x :| x in s;
    if s == {x} then x
    else
      var rest := MaxKey(s - {x});
      assert forall k :: k in s ==> k == x || k in s - {x};
      if x > rest then x else rest
  }

  /** `getNewID(theMap)`: 0 for an empty map, else the largest key plus one, in unsigned
      arithmetic. */
  ghost function GetNewId<T>(m: map<uint, T>): (r: uint)
    ensures |m| == 0 ==> r == 0
    ensures |m| > 0 && r != 0 ==> r - 1 in m && forall k :: k in m ==> k < r
    ensures |m| > 0 && r == 0 ==> UINT_LIMIT - 1 in m
  {
    if |m| == 0 then 0 else (MaxKey(m.Keys) + 1) % UINT_LIMIT
  }

  /** Unless the largest key is the largest unsigned value, the new id is above every key,
      so it is free. */
  lemma {:induction false} GetNewIdFresh<T>(m: map<uint, T>)
    requires forall k :: k in m ==> k < UINT_LIMIT - 1
    ensures GetNewId(m) !in m && forall k :: k in m ==> k < GetNewId(m)
  {
    if |m| > 0 {
      var top := MaxKey(m.Keys);
      assert top in m;
    }
  }

  /** With the largest unsigned value as a key the id wraps to 0, which may be taken. */
  lemma {:induction false} GetNewIdWraps<T>(x: T, y: T)
    ensures var m := map[0 := x, UINT_LIMIT - 1 := y];
      GetNewId(m) == 0 && 0 in m
  {
    var m := map[0 := x, UINT_LIMIT - 1 := y];
    assert m.Keys == {0, UINT_LIMIT - 1};
    assert |m| == 2;
  }

  // ---------------------------------------------------------------------------------
  // std::set_intersection

  predicate Increasing(s: seq<int>)
  {
    forall i, j :: 0 <= i < j < |s| ==> s[i] < s[j]
  }

  predicate NonDecreasing(s: seq<int>)
  {
    forall i, j :: 0 <= i < j < |s| ==> s[i] <= s[j]
  }

  /** The iteration order of a `std::set<int>`. */
  type OrderedSet = s: seq<int> | Increasing(s) witness []

  function Elements(s: seq<int>): set<int>
  {
    set x | x in s
  }

  /** `std::set_intersection` over two ranges: the smaller head is skipped, equal heads are
      copied from the first range and both advance. */
  function SetIntersection(a: seq<int>, b: seq<int>): (r: seq<int>)
    ensures forall i :: 0 <= i < |r| ==> r[i] in a && r[i] in b
    ensures |r| <= |a| && |r| <= |b|
    decreases |a| + |b|
  {
    if |a| == 0 || |b| == 0 then []
    else if a[0] < b[0] then SetIntersection(a[1..], b)
    else if b[0] < a[0] then SetIntersection(a, b[1..])
    else [a[0]] + SetIntersection(a[1..], b[1..])
  }

  /** The output is copied from the first range in its order, so it is increasing when the
      first range is, whatever the order of the second. */
  lemma {:induction false} IntersectionIncreasing(a: seq<int>, b: seq<int>)
    requires Increasing(a)
    ensures Increasing(SetIntersection(a, b))
    decreases |a| + |b|
  {
    if |a| > 0 && |b| > 0 {
      if a[0] < b[0] {
        IntersectionIncreasing(a[1..], b);
      } else if b[0] < a[0] {
        IntersectionIncreasing(a, b[1..]);
      } else {
        var r := SetIntersection(a[1..], b[1..]);
        IntersectionIncreasing(a[1..], b[1..]);
        forall i | 0 <= i < |r|
          ensures a[0] < r[i]
        {
          var j :| 0 <= j < |a[1..]| && a[1..][j] == r[i];
          assert a[j + 1] == r[i];
        }
        ConsIncreasing(a[0], r);
      }
    }
  }

  /** A value below every entry of an increasing sequence can go in front of it. */
  lemma ConsIncreasing(h: int, r: seq<int>)
    requires Increasing(r) && forall i :: 0 <= i < |r| ==> h < r[i]
    ensures Increasing([h] + r)
  {
    var q := [h] + r;
    forall i, j | 0 <= i < j < |q|
      ensures q[i] < q[j]
    {
      assert q[j] == r[j - 1];
      if i > 0 {
        assert q[i] == r[i - 1];
      }
    }
  }

  /** On an increasing and a sorted range every common value is copied to the output. */
  lemma {:induction false} IntersectionComplete(a: seq<int>, b: seq<int>)
    requires Increasing(a) && NonDecreasing(b)
    ensures forall x :: x in a && x in b ==> x in SetIntersection(a, b)
    decreases |a| + |b|
  {
    if |a| > 0 && |b| > 0 {
      assert forall x :: x in a ==> a[0] <= x;
      assert forall x :: x in b ==> b[0] <= x;
      assert forall x :: x in a && x != a[0] ==> x in a[1..];
      assert forall x :: x in b && x != b[0] ==> x in b[1..];
      if a[0] < b[0] {
        IntersectionComplete(a[1..], b);
      } else if b[0] < a[0] {
        IntersectionComplete(a, b[1..]);
      } else {
        IntersectionComplete(a[1..], b[1..]);
      }
    }
  }

  /** On an increasing and a sorted range the output is increasing, and holds exactly the
      values in both. */
  lemma {:induction false} SetIntersectionSpec(a: seq<int>, b: seq<int>)
    requires Increasing(a) && NonDecreasing(b)
    ensures Increasing(SetIntersection(a, b))
    ensures forall x :: x in SetIntersection(a, b) <==> x in a && x in b
  {
    IntersectionIncreasing(a, b);
    IntersectionComplete(a, b);
  }

  /** A subset has no more elements than the set holding it. */
  lemma {:induction false} SubsetCard(x: set<int>, y: set<int>)
    requires x <= y
    ensures |x| <= |y|
  {
    assert y == x + (y - x);
    assert x * (y - x) == {};
  }

  /** The values of the intersection, as a set. */
  lemma {:induction false} CommonElements(a: seq<int>, b: seq<int>)
    requires forall x :: x in SetIntersection(a, b) <==> x in a && x in b
    ensures Elements(SetIntersection(a, b)) == Elements(a) * Elements(b)
  {
    var r := SetIntersection(a, b);
    forall x
      ensures x in Elements(r) <==> x in Elements(a) * Elements(b)
    {
      assert x in Elements(r) <==> x in r;
    }
  }

  /** An increasing sequence has as many elements as it has values. */
  lemma {:induction false} IncreasingCard(s: seq<int>)
    requires Increasing(s)
    ensures |Elements(s)| == |s|
    decreases |s|
  {
    if |s| > 0 {
      IncreasingCard(s[1..]);
      assert s == [s[0]] + s[1..];
      assert Elements(s) == {s[0]} + Elements(s[1..]);
      assert s[0] !in Elements(s[1..]);
    }
  }

  /** `getCommonElems(v1, v2)`: the common elements, in order, each once. */
  function GetCommonElems(a: OrderedSet, b: OrderedSet): (r: seq<int>)
    ensures Increasing(r)
    ensures Elements(r) == Elements(a) * Elements(b)
  {
    SetIntersectionSpec(a, b);
    CommonElements(a, b);
    SetIntersection(a, b)
  }

  /** `numCommonElems(set, set)`: the size of `getCommonElems`, which is the number of
      common values. */
  function NumCommonElems(a: OrderedSet, b: OrderedSet): (n: nat)
    ensures n == |GetCommonElems(a, b)|
    ensures n == |Elements(a) * Elements(b)|
  {
    IncreasingCard(GetCommonElems(a, b));
    |SetIntersection(a, b)|
  }

  /** `numCommonElems(set, vector)`: the intersection run over the vector as it stands. */
  function NumCommonElemsVector(a: OrderedSet, v: seq<int>): (n: nat)
    ensures n <= |a| && n <= |v|
    ensures n <= |Elements(a) * Elements(v)|
  {
    var r := SetIntersection(a, v);
    IntersectionIncreasing(a, v);
    IncreasingCard(r);
    SubsetCard(Elements(r), Elements(a) * Elements(v));
    |r|
  }

  /** On a sorted vector, `numCommonElems` counts the common values. */
  lemma {:induction false} NumCommonElemsVectorSorted(a: OrderedSet, v: seq<int>)
    requires NonDecreasing(v)
    ensures NumCommonElemsVector(a, v) == |Elements(a) * Elements(v)|
  {
    SetIntersectionSpec(a, v);
    IncreasingCard(SetIntersection(a, v));
    CommonElements(a, v);
  }

  /** An unsorted vector can hide common values: {1, 2} and [2, 1] share two, and one is
      counted. */
  lemma UnsortedVectorUndercounts()
    ensures NumCommonElemsVector([1, 2], [2, 1]) == 1
    ensures |Elements([1, 2]) * Elements([2, 1])| == 2
  {
    assert [1, 2][1..] == [2];
    assert [2, 1][1..] == [1];
    assert SetIntersection([2], [1]) == [];
    assert SetIntersection([2], [2, 1]) == [2] + SetIntersection([], [1]);
    assert Elements([1, 2]) * Elements([2, 1]) == {1, 2};
  }
}
