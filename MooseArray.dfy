/** MOOSE's growable buffer (framework/include/utils/MooseArray.h): a heap block of
    `capacity` slots of which the first `size` are in use.  Shrinking never frees memory;
    growing reallocates.  Sizes are C++ `unsigned int`. */
module MooseArrays {

  /** The range of a C++ `unsigned int`. */
  const UINT_LIMIT: int := 0x1_0000_0000

  type uint = x: int | 0 <= x < UINT_LIMIT

  /** A C++ `size_t` converted to `unsigned int`: the value modulo 2^32. */
  function ToUint(n: nat): (r: uint)
    ensures n < UINT_LIMIT ==> r == n
  {
    n % UINT_LIMIT
  }

  class MooseArray<T(0)> {
    /** `_data`: no block at all (`NULL`) or the allocated block. */
    var data: array?<T>
    /** `_size`: the number of slots in use. */
    var size: uint
    /** `_allocated_size`: the number of slots of the block. */
    var capacity: uint

    /** The buffer invariant: the slots in use fit in the block, and the recorded capacity
        is the block's length (zero when there is no block). */
    ghost predicate Valid()
      reads this
    {
      size <= capacity
      && (data == null ==> capacity == 0)
      && (data != null ==> capacity == data.Length)
    }

    /** The entries in use, in index order. */
    ghost function Contents(): seq<T>
      reads this, data
      requires Valid()
    {
      if data == null then [] else data[..size]
    }

    /** The default constructor: no block, nothing in use. */
    constructor Empty()
      ensures Valid() && data == null && size == 0 && capacity == 0
    {
      data, size, capacity := null, 0, 0;
    }

    /** `MooseArray(size)`: an empty buffer resized to `n`; the entries are
        default-constructed and unspecified. */
    constructor WithSize(n: uint)
      ensures Valid() && size == n && capacity == n
      ensures data != null ==> fresh(data)
    {
      data, size, capacity := null, 0, 0;
      new;
      Resize(n);
    }

    /** `MooseArray(size, default_value)`: `n` entries, each equal to `d`. */
    constructor Filled(n: uint, d: T)
      ensures Valid() && size == n && capacity == n
      ensures data != null ==> fresh(data)
      ensures Contents() == seq(n, _ => d)
    {
      data, size, capacity := null, 0, 0;
      new;
      Resize(n);
      SetAllValues(d);
    }

    /** `setAllValues`: every entry in use becomes `v`; nothing else changes. */
    method SetAllValues(v: T)
      requires Valid()
      modifies data
      ensures Valid()
      ensures Contents() == seq(size, _ => v)
      ensures data != null ==> data[size..] == old(data[size..])
    {
      if data == null {
        return;
      }
      for i := 0 to size
        invariant forall j :: 0 <= j < i ==> data[j] == v
        invariant data[size..] == old(data[size..])
      {
        data[i] := v;
      }
    }

    /** `release`: when there is a block, drop it and reset both counts; otherwise do
        nothing. */
    method Release()
      requires Valid()
      modifies this
      ensures Valid()
      ensures old(data) != null ==> data == null && size == 0 && capacity == 0
      ensures old(data) == null ==> data == old(data) && size == old(size) && capacity == old(capacity)
    {
      if data != null {
        data := null;
        capacity, size := 0, 0;
      }
    }

    /** `clear`: nothing in use; the block and its capacity stay. */
    method Clear()
      requires Valid()
      modifies this`size
      ensures Valid() && size == 0
    {
      size := 0;
    }

    /** `resize(size)`: within capacity only the count changes, and the block and its
        entries stay; beyond it a new block of exactly `n` slots replaces the old one and
        the old entries are not carried over. */
    method Resize(n: uint)
      requires Valid()
      modifies this
      ensures Valid() && size == n
      ensures n <= old(capacity) ==> data == old(data) && capacity == old(capacity)
      ensures n > old(capacity) ==> fresh(data) && data != null && capacity == n
    {
      if n <= capacity {
        size := n;
      } else {
        data := new T[n];
        capacity := n;
        size := n;
      }
    }

    /** `resize(size, default_value)`: the entries below the smaller of the old and the new
        size are kept, and every entry from the old size up to `n` is `d`; capacity grows to
        exactly `n` when it must. */
    method ResizeWithDefault(n: uint, d: T)
      requires Valid()
      modifies this, data
      ensures Valid() && size == n
      ensures Contents() == if n <= old(size) then old(Contents())[..n]
                            else old(Contents()) + seq(n - old(size), _ => d)
      ensures n <= old(capacity) ==> data == old(data) && capacity == old(capacity)
      ensures n > old(capacity) ==> fresh(data) && capacity == n
    {
      ghost var before := Contents();
      var block := data;
      if n > capacity {
        block := new T[n];
        if data != null {
          var old_block := data;
          for i := 0 to size
            modifies block
            invariant forall j :: 0 <= j < i ==> block[j] == old_block[j]
          {
            block[i] := old_block[i];
          }
          assert block[..size] == before;
        }
        data := block;
        capacity := n;
      }
      if block != null {
        assert block[..size] == before;
        var i := size;
        while i < n
          modifies block
          invariant size <= i && n <= block.Length && size <= block.Length
          invariant i <= n || i == size
          invariant block[..size] == before
          invariant forall j :: size <= j < i ==> block[j] == d
          decreases n - i
        {
          block[i] := d;
          i := i + 1;
        }
      }
      size := n;
      if n > old(size) {
        assert Contents() == before + seq(n - old(size), _ => d);
      }
    }

    /** `operator[]` read: requires the index to be in use (the debug assertion). */
    method Get(i: uint) returns (x: T)
      requires Valid() && i < size
      ensures x == Contents()[i]
    {
      x := data[i];
    }

    /** `operator[]` write through the returned reference: only entry `i` changes. */
    method Set(i: uint, x: T)
      requires Valid() && i < size
      modifies data
      ensures Valid() && Contents() == old(Contents())[i := x]
    {
      data[i] := x;
    }

    /** `swap`: block, size and capacity are exchanged with `rhs`. */
    method Swap(rhs: MooseArray<T>)
      requires Valid() && rhs.Valid()
      modifies this, rhs
      ensures Valid() && rhs.Valid()
      ensures data == old(rhs.data) && size == old(rhs.size) && capacity == old(rhs.capacity)
      ensures rhs.data == old(data) && rhs.size == old(size) && rhs.capacity == old(capacity)
    {
      data, rhs.data := rhs.data, data;
      size, rhs.size := rhs.size, size;
      capacity, rhs.capacity := rhs.capacity, capacity;
    }

    /** `shallowCopy(MooseArray)`: operate on `rhs`'s block, sharing it. */
    method ShallowCopy(rhs: MooseArray<T>)
      requires rhs.Valid()
      modifies this
      ensures Valid() && data == rhs.data && size == rhs.size && capacity == rhs.capacity
    {
      data, size, capacity := rhs.data, rhs.size, rhs.capacity;
    }

    /** `shallowCopy(std::vector)`: operate on the vector's own storage, its `size_t` length
        converted to `unsigned int` for both counts; only a vector shorter than 2^32 leaves
        the counts matching the storage. */
    method ShallowCopyVector(v: array<T>)
      modifies this
      ensures data == v && size == ToUint(v.Length) && capacity == ToUint(v.Length)
      ensures v.Length < UINT_LIMIT ==> Valid() && Contents() == v[..]
    {
      data, size, capacity := v, ToUint(v.Length), ToUint(v.Length);
    }

    /** `operator=(std::vector)`: the vector's size, converted to `unsigned int`, becomes
        the size, and that many leading elements are copied. */
    method AssignVector(v: seq<T>)
      requires Valid()
      modifies this, data
      ensures Valid() && size == ToUint(|v|)
      ensures Contents() == v[..ToUint(|v|)]
    {
      var n := ToUint(|v|);
      Resize(n);
      var block := data;
      if block != null {
        for i := 0 to n
          modifies block
          invariant forall j :: 0 <= j < i ==> block[j] == v[j]
        {
          block[i] := v[i];
        }
      }
    }

    /** `operator=(MooseArray)`: a real copy; size and entries become `rhs`'s. */
    method Assign(rhs: MooseArray<T>)
      requires Valid() && rhs.Valid()
      modifies this, data
      ensures Valid() && size == old(rhs.size)
      ensures Contents() == old(rhs.Contents())
    {
      ghost var source := rhs.Contents();
      var src := rhs.data;
      var n := rhs.size;
      assert n > 0 ==> src != null && src[..n] == source;
      Resize(n);
      var block := data;
      if block != null && n > 0 {
        for i := 0 to n
          modifies block
          invariant forall j :: 0 <= j < i ==> block[j] == source[j]
          invariant forall j :: i <= j < n ==> src[j] == source[j]
        {
          block[i] := src[i];
        }
      }
    }

    /** `stdVector`: a copy of the entries in use. */
    method StdVector() returns (v: seq<T>)
      requires Valid()
      ensures v == Contents()
    {
      if data == null {
        return [];
      }
      v := data[..size];
    }
  }
}
