/** MOOSE's restart serialisation (framework/include/restart/DataIO.h): `dataStore` appends
    a value to an output byte stream and `dataLoad` reads one back from an input stream,
    plus the packing of strings used for parallel communication.  Counts are C++
    `unsigned int`, written as four bytes in the host's (little-endian) order. */
module RestartDataIO {
  import opened Wrappers

  type byte = x: int | 0 <= x < 256

  /** The range of a C++ `unsigned int`. */
  const UINT_LIMIT: int := 0x1_0000_0000

  type uint = x: int | 0 <= x < UINT_LIMIT

  /** A `size_t` converted to `unsigned int`: the value modulo 2^32. */
  function ToUint(n: nat): (r: uint)
    ensures n < UINT_LIMIT ==> r == n
    ensures r <= n
  {
    n % UINT_LIMIT
  }

  // ---------------------------------------------------------------------------------
  // Unsigned integers as little-endian bytes

  function Pow256(k: nat): (p: nat)
    ensures p >= 1
  {
    if k == 0 then 1 else 256 * Pow256(k - 1)
  }

  lemma {:induction false} Pow256Bound(k: nat)
    requires k <= 4
    ensures Pow256(k) <= UINT_LIMIT
  {
    assert Pow256(1) == 256;
    assert Pow256(2) == 65536;
    assert Pow256(3) == 16777216;
    assert Pow256(4) == UINT_LIMIT;
  }

  /** The k least significant base-256 digits of n, least significant first. */
  function Digits(n: nat, k: nat): (bs: seq<byte>)
    ensures |bs| == k
  {
    if k == 0 then [] else [n % 256] + Digits(n / 256, k - 1)
  }

  /** The number whose base-256 digits, least significant first, are `bs`. */
  function Value(bs: seq<byte>): (n: nat)
    ensures n < Pow256(|bs|)
  {
    if |bs| == 0 then 0 else bs[0] + 256 * Value(bs[1..])
  }

  /** Reading back k digits gives the number, when it has no more than k digits. */
  lemma {:induction false} ValueDigits(n: nat, k: nat)
    requires n < Pow256(k)
    ensures Value(Digits(n, k)) == n
  {
    if k > 0 {
      var d := Digits(n, k);
      assert d[1..] == Digits(n / 256, k - 1);
      ValueDigits(n / 256, k - 1);
    }
  }

  /** Writing a number's digits back gives the bytes it was read from. */
  lemma {:induction false} DigitsValue(bs: seq<byte>)
    ensures Digits(Value(bs), |bs|) == bs
  {
    if |bs| > 0 {
      DigitsValue(bs[1..]);
      var n := Value(bs);
      assert n % 256 == bs[0] && n / 256 == Value(bs[1..]);
    }
  }

  /** The four bytes of an `unsigned int` as `stream.write((char *)&size, sizeof(size))`
      writes them on a little-endian host. */
  function Le32(n: uint): (bs: seq<byte>)
    ensures |bs| == 4
  {
    Digits(n, 4)
  }

  /** An `unsigned int` read back from its four bytes. */
  function FromLe32(bs: seq<byte>): (n: uint)
    requires |bs| >= 4
  {
    assert Pow256(4) == UINT_LIMIT;
    Value(bs[..4])
  }

  /** Four bytes encode every `unsigned int` and nothing else. */
  lemma {:induction false} Le32RoundTrip(n: uint, rest: seq<byte>)
    ensures FromLe32(Le32(n) + rest) == n
  {
    assert (Le32(n) + rest)[..4] == Le32(n);
    assert Pow256(4) == UINT_LIMIT;
    ValueDigits(n, 4);
  }

  // ---------------------------------------------------------------------------------
  // Packing<std::basic_string>: the length in four bytes, then the characters

  /** `size_bytes`. */
  const SIZE_BYTES: nat := 4

  /** What `pack` writes for string `s`. */
  function Packed(s: seq<byte>): seq<byte>
  {
    Le32(ToUint(|s|)) + s
  }

  /** The length `get_string_len` reads from a buffer. */
  function StringLen(buffer: seq<byte>): uint
    requires |buffer| >= SIZE_BYTES
  {
    FromLe32(buffer)
  }

  /** What `unpack` reads from a buffer that holds the whole string. */
  function Unpacked(buffer: seq<byte>): seq<byte>
    requires |buffer| >= SIZE_BYTES && |buffer| >= SIZE_BYTES + StringLen(buffer)
  {
    buffer[SIZE_BYTES..SIZE_BYTES + StringLen(buffer)]
  }

  /** `packed_size`: the recorded length plus the four length bytes, as `unsigned int`. */
  function PackedSize(buffer: seq<byte>): uint
    requires |buffer| >= SIZE_BYTES
  {
    ToUint(StringLen(buffer) + SIZE_BYTES)
  }

  /** `packable_size`: the string's length plus the four length bytes, as `unsigned int`. */
  function PackableSize(s: seq<byte>): uint
  {
    ToUint(|s| + SIZE_BYTES)
  }

  /** The length bytes of a packed string state its length modulo 2^32. */
  lemma {:induction false} PackedLength(s: seq<byte>, rest: seq<byte>)
    ensures |Packed(s) + rest| >= SIZE_BYTES && StringLen(Packed(s) + rest) == ToUint(|s|)
  {
    assert Packed(s) + rest == Le32(ToUint(|s|)) + (s + rest);
    Le32RoundTrip(ToUint(|s|), s + rest);
  }

  /** Unpacking a packed string gives its first |s| mod 2^32 characters, so the whole string
      when it is shorter than 2^32; whatever follows in the buffer is not read. */
  lemma {:induction false} PackRoundTrip(s: seq<byte>, rest: seq<byte>)
    ensures |Packed(s) + rest| >= SIZE_BYTES
    ensures StringLen(Packed(s) + rest) <= |s|
    ensures Unpacked(Packed(s) + rest) == s[..ToUint(|s|)]
    ensures |s| < UINT_LIMIT ==> Unpacked(Packed(s) + rest) == s
  {
    PackedLength(s, rest);
    var b := Packed(s) + rest;
    assert b[SIZE_BYTES..SIZE_BYTES + ToUint(|s|)] == s[..ToUint(|s|)];
  }

  /** The size `packed_size` reads from a packed string is the size `packable_size`
      promised, wrap-around included. */
  lemma {:induction false} PackedSizeMatches(s: seq<byte>, rest: seq<byte>)
    ensures |Packed(s) + rest| >= SIZE_BYTES
    ensures PackedSize(Packed(s) + rest) == PackableSize(s)
  {
    PackedLength(s, rest);
  }

  /** One step of reading digits from the most significant end. */
  lemma {:induction false} ValueStep(bs: seq<byte>, i: nat)
    requires i < 4 == |bs|
    ensures Value(bs[i..]) == bs[i] + 256 * Value(bs[i + 1..]) < UINT_LIMIT
  {
    assert bs[i..][1..] == bs[i + 1..];
    Pow256Bound(4 - i);
  }

  /** `get_string_len`: starts from the most significant byte and, from the third byte down
      to the first, multiplies by 256 and adds the next byte. */
  method GetStringLen(buffer: seq<byte>) returns (len: uint)
    requires |buffer| >= SIZE_BYTES
    ensures len == StringLen(buffer)
  {
    ghost var bs := buffer[..4];
    assert forall k :: 0 <= k < 4 ==> bs[k] == buffer[k];
    len := buffer[SIZE_BYTES - 1];
    ValueStep(bs, 3);
    var i: int := SIZE_BYTES - 2;
    while i >= 0
      invariant -1 <= i <= 2
      invariant len == Value(bs[i + 1..])
    {
      ValueStep(bs, i);
      len := len * 256 + buffer[i];
      i := i - 1;
    }
  }

  /** `pack`: the low byte of the length, four times, dividing by 256 in between; then the
      characters. */
  method Pack(s: seq<byte>) returns (out: seq<byte>)
    ensures out == Packed(s)
  {
    var stringLen: nat := ToUint(|s|);
    ghost var lengthBytes := Le32(stringLen);
    out := [];
    assert out + Digits(stringLen, SIZE_BYTES) == lengthBytes;
    for i := 0 to SIZE_BYTES
      invariant out + Digits(stringLen, SIZE_BYTES - i) == lengthBytes
    {
      DigitsStep(out, stringLen, SIZE_BYTES - i);
      out := out + [stringLen % 256];
      stringLen := stringLen / 256;
    }
    assert out + Digits(stringLen, 0) == out;
    out := out + s;
  }

  /** Writing the low digit moves it from the digits still to write into the output. */
  lemma {:induction false} DigitsStep(out: seq<byte>, n: nat, k: nat)
    requires k > 0
    ensures (out + [n % 256]) + Digits(n / 256, k - 1) == out + Digits(n, k)
  {
    assert Digits(n, k) == [n % 256] + Digits(n / 256, k - 1);
  }

  /** `unpack`: the length, then that many characters after the four length bytes. */
  method Unpack(buffer: seq<byte>) returns (s: seq<byte>)
    requires |buffer| >= SIZE_BYTES && |buffer| >= SIZE_BYTES + StringLen(buffer)
    ensures s == Unpacked(buffer)
  {
    var len := GetStringLen(buffer);
    s := [];
    for i := 0 to len
      invariant s == buffer[SIZE_BYTES..SIZE_BYTES + i]
    {
      s := s + [buffer[i + SIZE_BYTES]];
    }
  }

  // ---------------------------------------------------------------------------------
  // Element codecs: what `storeHelper` and `loadHelper` do for one element

  /** How one element is written and read back: `enc` gives its bytes; `dec` reads one
      element from the start of a buffer and says how many bytes it took. */
  datatype Codec<!T> = Codec(enc: T -> seq<byte>, dec: seq<byte> -> Option<(T, nat)>)

  /** The element reader undoes the element writer, whatever follows in the stream. */
  ghost predicate Sound<T(!new)>(c: Codec<T>)
  {
    forall x: T, rest: seq<byte> :: c.dec(c.enc(x) + rest) == Some((x, |c.enc(x)|))
  }

  /** One element read from the start of a buffer; a reader that claims more bytes than
      the buffer holds fails. */
  function Read<T>(c: Codec<T>, bs: seq<byte>): (r: Option<(T, nat)>)
    ensures r.Some? ==> r.value.1 <= |bs|
  {
    match c.dec(bs)
    case None => None
    case Some(d) => if d.1 <= |bs| then Some(d) else None
  }

  lemma {:induction false} ReadEncoded<T(!new)>(c: Codec<T>, x: T, rest: seq<byte>)
    requires Sound(c)
    ensures Read(c, c.enc(x) + rest) == Some((x, |c.enc(x)|))
  {
    assert c.dec(c.enc(x) + rest) == Some((x, |c.enc(x)|));
  }

  /** The elements' encodings one after another, in order. */
  function Elems<T>(c: Codec<T>, xs: seq<T>): seq<byte>
  {
    if |xs| == 0 then [] else c.enc(xs[0]) + Elems(c, xs[1..])
  }

  lemma {:induction false} ElemsSnoc<T>(c: Codec<T>, xs: seq<T>, x: T)
    ensures Elems(c, xs + [x]) == Elems(c, xs) + c.enc(x)
  {
    if |xs| > 0 {
      assert (xs + [x])[1..] == xs[1..] + [x];
      ElemsSnoc(c, xs[1..], x);
    } else {
      assert (xs + [x])[1..] == [];
    }
  }

  /** n elements read one after another from the start of a buffer, with the number of
      bytes they took; absent when one of them cannot be read. */
  function DecodeElems<T>(c: Codec<T>, n: nat, bs: seq<byte>): (r: Option<(seq<T>, nat)>)
    ensures r.Some? ==> |r.value.0| == n && r.value.1 <= |bs|
  {
    if n == 0 then Some(([], 0))
    else match Read(c, bs)
      case None => None
      case Some(d) =>
        match DecodeElems(c, n - 1, bs[d.1..])
        case None => None
        case Some(e) => Some(([d.0] + e.0, d.1 + e.1))
  }

  /** Reading back as many elements as were written gives them back and takes exactly their
      bytes. */
  lemma {:induction false} ElemsRoundTrip<T(!new)>(c: Codec<T>, xs: seq<T>, rest: seq<byte>)
    requires Sound(c)
    ensures DecodeElems(c, |xs|, Elems(c, xs) + rest) == Some((xs, |Elems(c, xs)|))
  {
    if |xs| > 0 {
      var tail := Elems(c, xs[1..]) + rest;
      assert Elems(c, xs) + rest == c.enc(xs[0]) + tail;
      ReadEncoded(c, xs[0], tail);
      assert (c.enc(xs[0]) + tail)[|c.enc(xs[0])|..] == tail;
      ElemsRoundTrip(c, xs[1..], rest);
      assert [xs[0]] + xs[1..] == xs;
    }
  }

  /** A container written as its `unsigned int` size and then elements: the vector store
      writes the first `size` elements (indexing), the set, list and map stores every element
      they iterate over. */
  function CountedBytes<T>(c: Codec<T>, count: uint, xs: seq<T>): seq<byte>
  {
    Le32(count) + Elems(c, xs)
  }

  /** `dataStore(std::vector)`. */
  function VectorBytes<T>(c: Codec<T>, v: seq<T>): seq<byte>
  {
    CountedBytes(c, ToUint(|v|), v[..ToUint(|v|)])
  }

  /** `dataStore` of an iterated container (set, list, map): size, then every element. */
  function IteratedBytes<T>(c: Codec<T>, xs: seq<T>): seq<byte>
  {
    CountedBytes(c, ToUint(|xs|), xs)
  }

  /** A size and then that many elements read from the start of a buffer. */
  function DecodeCounted<T>(c: Codec<T>, bs: seq<byte>): (r: Option<(seq<T>, nat)>)
    ensures r.Some? ==> r.value.1 <= |bs|
  {
    if |bs| < 4 then None
    else match DecodeElems(c, FromLe32(bs), bs[4..])
      case None => None
      case Some(e) => Some((e.0, 4 + e.1))
  }

  lemma {:induction false} CountedRoundTrip<T(!new)>(c: Codec<T>, count: uint, xs: seq<T>, rest: seq<byte>)
    requires Sound(c) && count == |xs|
    ensures DecodeCounted(c, CountedBytes(c, count, xs) + rest) == Some((xs, |CountedBytes(c, count, xs)|))
  {
    var bs := CountedBytes(c, count, xs) + rest;
    assert bs == Le32(count) + (Elems(c, xs) + rest);
    Le32RoundTrip(count, Elems(c, xs) + rest);
    assert bs[4..] == Elems(c, xs) + rest;
    ElemsRoundTrip(c, xs, rest);
  }

  /** A stored vector reads back as its first |v| mod 2^32 elements, so as itself when it has
      fewer than 2^32. */
  lemma {:induction false} VectorRoundTrip<T(!new)>(c: Codec<T>, v: seq<T>, rest: seq<byte>)
    requires Sound(c)
    ensures DecodeCounted(c, VectorBytes(c, v) + rest) == Some((v[..ToUint(|v|)], |VectorBytes(c, v)|))
    ensures |v| < UINT_LIMIT ==> DecodeCounted(c, VectorBytes(c, v) + rest) == Some((v, |VectorBytes(c, v)|))
  {
    CountedRoundTrip(c, ToUint(|v|), v[..ToUint(|v|)], rest);
    assert |v| < UINT_LIMIT ==> v[..ToUint(|v|)] == v;
  }

  /** A stored set, list or map with fewer than 2^32 entries reads back as its entries in
      iteration order. */
  lemma {:induction false} IteratedRoundTrip<T(!new)>(c: Codec<T>, xs: seq<T>, rest: seq<byte>)
    requires Sound(c) && |xs| < UINT_LIMIT
    ensures DecodeCounted(c, IteratedBytes(c, xs) + rest) == Some((xs, |IteratedBytes(c, xs)|))
  {
    CountedRoundTrip(c, ToUint(|xs|), xs, rest);
  }

  /** `dataStore(std::pair)` and the map entries: first, then second. */
  function PairCodec<A, B>(ca: Codec<A>, cb: Codec<B>): Codec<(A, B)>
  {
    Codec((p: (A, B)) => ca.enc(p.0) + cb.enc(p.1), (bs: seq<byte>) => DecodePair(ca, cb, bs))
  }

  /** `dataLoad(std::pair)`: first, then second from the bytes after it. */
  function DecodePair<A, B>(ca: Codec<A>, cb: Codec<B>, bs: seq<byte>): Option<((A, B), nat)>
  {
    match Read(ca, bs)
    case None => None
    case Some(a) =>
      match Read(cb, bs[a.1..])
      case None => None
      case Some(b) => Some(((a.0, b.0), a.1 + b.1))
  }

  /** Pairs of soundly coded elements are soundly coded. */
  lemma {:induction false} PairSound<A(!new), B(!new)>(ca: Codec<A>, cb: Codec<B>)
    requires Sound(ca) && Sound(cb)
    ensures Sound(PairCodec(ca, cb))
  {
    var c := PairCodec(ca, cb);
    forall p: (A, B), rest: seq<byte> ensures c.dec(c.enc(p) + rest) == Some((p, |c.enc(p)|)) {
      var bs := ca.enc(p.0) + (cb.enc(p.1) + rest);
      assert c.enc(p) + rest == bs;
      ReadEncoded(ca, p.0, cb.enc(p.1) + rest);
      assert bs[|ca.enc(p.0)|..] == cb.enc(p.1) + rest;
      ReadEncoded(cb, p.1, rest);
    }
  }

  /** A stored map with fewer than 2^32 entries reads back as its entries; loaded with
      clearing, that is the map itself (see `MapOfEntries`). */
  lemma {:induction false} MapRoundTrip<K(!new), V(!new)>(ck: Codec<K>, cv: Codec<V>, es: seq<(K, V)>, rest: seq<byte>)
    requires Sound(ck) && Sound(cv) && |es| < UINT_LIMIT
    ensures var c := PairCodec(ck, cv);
      DecodeCounted(c, IteratedBytes(c, es) + rest) == Some((es, |IteratedBytes(c, es)|))
  {
    PairSound(ck, cv);
    IteratedRoundTrip(PairCodec(ck, cv), es, rest);
  }

  /** The entries inserted one after another with `m[key] = value`: a later entry with the
      same key replaces the earlier one. */
  function Insert<K(==), V>(m: map<K, V>, es: seq<(K, V)>): map<K, V>
    decreases |es|
  {
    if |es| == 0 then m else Insert(m[es[0].0 := es[0].1], es[1..])
  }

  /** The map a stream of entries describes, read into an empty map. */
  function MapOf<K(==), V>(es: seq<(K, V)>): map<K, V>
  {
    Insert(map[], es)
  }

  /** No key occurs twice. */
  predicate DistinctKeys<K(==), V>(es: seq<(K, V)>)
  {
    forall i, j :: 0 <= i < j < |es| ==> es[i].0 != es[j].0
  }

  /** The keys of a sequence of entries. */
  ghost function Keys<K, V>(es: seq<(K, V)>): set<K>
  {
    set i | 0 <= i < |es| :: es[i].0
  }

  /** Inserting into a map that already has entries keeps those that are not overwritten:
      the result is the old map updated by the read entries. */
  lemma {:induction false} InsertIsUpdate<K, V>(m: map<K, V>, es: seq<(K, V)>)
    ensures Insert(m, es) == m + MapOf(es)
    decreases |es|
  {
    if |es| > 0 {
      var e := es[0];
      InsertIsUpdate(m[e.0 := e.1], es[1..]);
      InsertIsUpdate(map[e.0 := e.1], es[1..]);
      assert m[e.0 := e.1] + MapOf(es[1..]) == m + (map[e.0 := e.1] + MapOf(es[1..]));
    }
  }

  /** Entries with distinct keys describe the map that has exactly those keys, each with its
      entry's value. */
  lemma {:induction false} MapOfEntries<K, V>(es: seq<(K, V)>)
    requires DistinctKeys(es)
    ensures MapOf(es).Keys == Keys(es)
    ensures forall i :: 0 <= i < |es| ==> MapOf(es)[es[i].0] == es[i].1
  {
    if |es| > 0 {
      MapOfEntries(es[1..]);
      InsertIsUpdate(map[es[0].0 := es[0].1], es[1..]);
      assert forall i :: 0 < i < |es| ==> es[i].0 != es[0].0;
      assert Keys(es) == {es[0].0} + Keys(es[1..]) by {
        forall k | k in Keys(es) ensures k in {es[0].0} + Keys(es[1..]) {
          var i :| 0 <= i < |es| && es[i].0 == k;
          if i > 0 {
            assert es[1..][i - 1].0 == k;
          }
        }
      }
      forall i | 0 <= i < |es| ensures MapOf(es)[es[i].0] == es[i].1 {
        if i > 0 {
          assert es[1..][i - 1] == es[i];
        }
      }
    }
  }

  /** The elements of a sequence as a set. */
  function Elements<T(==)>(xs: seq<T>): set<T>
  {
    set x | x in xs
  }

  /** A restartable value: a value of some type, or a raw pointer, which neither store nor
      load accepts. */
  datatype Slot<T> = Held(value: T) | RawPointer(typeName: string)

  /** The message `mooseError` reports for a raw pointer: the verb, the demangled type name
      and the hook (`dataStore` or `dataLoad`) to specialise instead. */
  function PointerMessage(verb: string, hook: string, typeName: string): string
  {
    "Attempting to " + verb + " a raw pointer type: \"" + typeName + " *\" as restartable data!\nWrite a custom "
    + hook + "() template specialization!\n\n"
  }

  /** `Backup`: the system data, then the restartable entries in index order, with no count
      in between. */
  datatype Backup<S, R> = Backup(system: S, restartable: seq<R>)

  function BackupBytes<S, R>(cs: Codec<S>, cr: Codec<R>, b: Backup<S, R>): seq<byte>
  {
    cs.enc(b.system) + Elems(cr, b.restartable)
  }

  /** A Backup read into a target that already has n restartable entries: n entries are
      read after the system data. */
  function DecodeBackup<S, R>(cs: Codec<S>, cr: Codec<R>, n: nat, bs: seq<byte>): (r: Option<(Backup<S, R>, nat)>)
    ensures r.Some? ==> |r.value.0.restartable| == n && r.value.1 <= |bs|
  {
    match Read(cs, bs)
    case None => None
    case Some(sd) =>
      match DecodeElems(cr, n, bs[sd.1..])
      case None => None
      case Some(e) => Some((Backup(sd.0, e.0), sd.1 + e.1))
  }

  /** The count is not stored, so a Backup reads back as itself exactly when the target
      already has as many restartable entries as the stored one. */
  lemma {:induction false} BackupRoundTrip<S(!new), R(!new)>(cs: Codec<S>, cr: Codec<R>, b: Backup<S, R>, rest: seq<byte>)
    requires Sound(cs) && Sound(cr)
    ensures DecodeBackup(cs, cr, |b.restartable|, BackupBytes(cs, cr, b) + rest) == Some((b, |BackupBytes(cs, cr, b)|))
  {
    var tail := Elems(cr, b.restartable) + rest;
    assert BackupBytes(cs, cr, b) + rest == cs.enc(b.system) + tail;
    ReadEncoded(cs, b.system, tail);
    assert (cs.enc(b.system) + tail)[|cs.enc(b.system)|..] == tail;
    ElemsRoundTrip(cr, b.restartable, rest);
  }

  // ---------------------------------------------------------------------------------
  // The streams

  /** A `std::ostream`: everything written so far. */
  class OutStream {
    var written: seq<byte>

    constructor()
      ensures written == []
    {
      written := [];
    }

    /** `stream.write`: the bytes are appended. */
    method Write(bs: seq<byte>)
      modifies this
      ensures written == old(written) + bs
    {
      written := written + bs;
    }
  }

  /** A `std::istream`: its bytes and the read position. */
  class InStream {
    const data: seq<byte>
    var pos: nat

    ghost predicate Valid()
      reads this
    {
      pos <= |data|
    }

    /** What is left to read. */
    ghost function Remaining(): seq<byte>
      reads this
      requires Valid()
    {
      data[pos..]
    }

    constructor(bs: seq<byte>)
      ensures data == bs && pos == 0 && Valid()
    {
      data, pos := bs, 0;
    }

    /** One element read with `loadHelper`. */
    method ReadOne<T>(c: Codec<T>) returns (r: Option<T>)
      requires Valid()
      modifies this
      ensures Valid()
      ensures var d := Read(c, old(Remaining()));
        (r.Some? <==> d.Some?) && (d.Some? ==> r.value == d.value.0 && pos == old(pos) + d.value.1)
    {
      var d := Read(c, data[pos..]);
      if d.None? {
        return None;
      }
      pos := pos + d.value.1;
      return Some(d.value.0);
    }

    /** `stream.read((char *)&size, sizeof(size))` of an `unsigned int`. */
    method ReadCount() returns (r: Option<uint>)
      requires Valid()
      modifies this
      ensures Valid()
      ensures old(|Remaining()|) < 4 ==> r.None?
      ensures old(|Remaining()|) >= 4 ==> r == Some(FromLe32(old(Remaining()))) && pos == old(pos) + 4
    {
      if |data| - pos < 4 {
        return None;
      }
      var n := FromLe32(data[pos..]);
      pos := pos + 4;
      return Some(n);
    }
  }

  /** `storeHelper` on every element, in order. */
  method StoreElems<T>(out: OutStream, c: Codec<T>, xs: seq<T>)
    modifies out
    ensures out.written == old(out.written) + Elems(c, xs)
  {
    ghost var start := out.written;
    for i := 0 to |xs|
      invariant out.written == start + Elems(c, xs[..i])
    {
      ElemsSnoc(c, xs[..i], xs[i]);
      assert xs[..i + 1] == xs[..i] + [xs[i]];
      out.Write(c.enc(xs[i]));
    }
    assert xs[..|xs|] == xs;
  }

  /** `dataStore(std::vector)`: the size as `unsigned int`, then that many elements by
      index. */
  method StoreVector<T>(out: OutStream, c: Codec<T>, v: seq<T>)
    modifies out
    ensures out.written == old(out.written) + VectorBytes(c, v)
  {
    var size := ToUint(|v|);
    out.Write(Le32(size));
    StoreElems(out, c, v[..size]);
  }

  /** `dataStore` of a set, list, map, unordered_map or HashMap, given its iteration order:
      the size as `unsigned int`, then every element the iterator visits. */
  method StoreIterated<T>(out: OutStream, c: Codec<T>, xs: seq<T>)
    modifies out
    ensures out.written == old(out.written) + IteratedBytes(c, xs)
  {
    out.Write(Le32(ToUint(|xs|)));
    StoreElems(out, c, xs);
  }

  /** `dataStore(std::map)` and its siblings: each entry as key, then value. */
  method StoreMap<K(==), V>(out: OutStream, ck: Codec<K>, cv: Codec<V>, entries: seq<(K, V)>)
    modifies out
    ensures out.written == old(out.written) + IteratedBytes(PairCodec(ck, cv), entries)
  {
    StoreIterated(out, PairCodec(ck, cv), entries);
  }

  /** `dataStore(std::pair)`. */
  method StorePair<A, B>(out: OutStream, ca: Codec<A>, cb: Codec<B>, p: (A, B))
    modifies out
    ensures out.written == old(out.written) + PairCodec(ca, cb).enc(p)
  {
    out.Write(ca.enc(p.0));
    out.Write(cb.enc(p.1));
  }

  /** `dataStore` of a restartable value: a held value is written; a raw pointer is an
      error and nothing is written. */
  method StoreSlot<T>(out: OutStream, c: Codec<T>, s: Slot<T>) returns (r: Result<(), string>)
    modifies out
    ensures s.Held? ==> r.Ok? && out.written == old(out.written) + c.enc(s.value)
    ensures s.RawPointer? ==> r == Err(PointerMessage("store", "dataStore", s.typeName)) && out.written == old(out.written)
  {
    if s.RawPointer? {
      return Err(PointerMessage("store", "dataStore", s.typeName));
    }
    out.Write(c.enc(s.value));
    return Ok(());
  }

  /** `dataStore(Backup)`. */
  method StoreBackup<S, R>(out: OutStream, cs: Codec<S>, cr: Codec<R>, b: Backup<S, R>)
    modifies out
    ensures out.written == old(out.written) + BackupBytes(cs, cr, b)
  {
    out.Write(cs.enc(b.system));
    StoreElems(out, cr, b.restartable);
  }

  function Prepend<T>(acc: seq<T>, k: nat, r: Option<(seq<T>, nat)>): Option<(seq<T>, nat)>
  {
    match r
    case None => None
    case Some(e) => Some((acc + e.0, k + e.1))
  }

  /** Reading one more element moves it from the rest of the decode into the accumulated
      prefix. */
  lemma {:induction false} PrependStep<T>(c: Codec<T>, acc: seq<T>, j: nat, m: nat, bs: seq<byte>, x: T, k: nat)
    requires m > 0 && Read(c, bs) == Some((x, k))
    ensures Prepend(acc, j, DecodeElems(c, m, bs)) == Prepend(acc + [x], j + k, DecodeElems(c, m - 1, bs[k..]))
  {
    var r := DecodeElems(c, m - 1, bs[k..]);
    if r.Some? {
      assert acc + ([x] + r.value.0) == (acc + [x]) + r.value.0;
    }
  }

  /** `PrependStep` at stream position `p`. */
  lemma {:induction false} ReadStep<T>(c: Codec<T>, data: seq<byte>, pos0: nat, p: nat, acc: seq<T>, m: nat, x: T, k: nat)
    requires pos0 <= p <= |data| && m > 0 && Read(c, data[p..]) == Some((x, k))
    ensures p + k <= |data|
    ensures Prepend(acc, p - pos0, DecodeElems(c, m, data[p..]))
         == Prepend(acc + [x], p + k - pos0, DecodeElems(c, m - 1, data[p + k..]))
  {
    PrependStep(c, acc, p - pos0, m, data[p..], x, k);
    assert data[p..][k..] == data[p + k..];
  }

  /** `loadHelper` n times, in order. */
  method LoadElems<T>(inp: InStream, c: Codec<T>, n: nat) returns (r: Option<seq<T>>)
    requires inp.Valid()
    modifies inp
    ensures inp.Valid()
    ensures var d := DecodeElems(c, n, old(inp.Remaining()));
      (r.Some? <==> d.Some?) && (d.Some? ==> r.value == d.value.0 && inp.pos == old(inp.pos) + d.value.1)
  {
    var d := ReadElems(c, inp.data, inp.pos, n);
    if d.None? {
      return None;
    }
    inp.pos := inp.pos + d.value.1;
    r := Some(d.value.0);
  }

  /** The reads of `LoadElems` from position `pos0` of the stream's bytes: the elements and
      how many bytes they took. */
  method ReadElems<T>(c: Codec<T>, data: seq<byte>, pos0: nat, n: nat) returns (r: Option<(seq<T>, nat)>)
    requires pos0 <= |data|
    ensures r == DecodeElems(c, n, data[pos0..])
  {
    ghost var whole := DecodeElems(c, n, data[pos0..]);
    var p := pos0;
    var acc: seq<T> := [];
    assert whole.Some? ==> [] + whole.value.0 == whole.value.0;
    for i := 0 to n
      invariant pos0 <= p <= |data|
      invariant whole == Prepend(acc, p - pos0, DecodeElems(c, n - i, data[p..]))
    {
      var ok;
      ok, acc, p := ReadNext(c, data, pos0, p, acc, n - i, whole);
      if !ok {
        return None;
      }
    }
    assert DecodeElems(c, 0, data[p..]) == Some(([], 0));
    assert acc + [] == acc;
    r := Some((acc, p - pos0));
  }

  /** One `loadHelper` of `ReadElems`, with `m` elements still to read. */
  method ReadNext<T>(c: Codec<T>, data: seq<byte>, pos0: nat, p: nat, acc: seq<T>, m: nat,
                     ghost whole: Option<(seq<T>, nat)>) returns (ok: bool, acc': seq<T>, p': nat)
    requires pos0 <= p <= |data| && m > 0
    requires whole == Prepend(acc, p - pos0, DecodeElems(c, m, data[p..]))
    ensures !ok ==> whole == None
    ensures ok ==> pos0 <= p' <= |data| && whole == Prepend(acc', p' - pos0, DecodeElems(c, m - 1, data[p'..]))
  {
    var d := Read(c, data[p..]);
    if d.None? {
      assert DecodeElems(c, m, data[p..]) == None;
      return false, acc, p;
    }
    ReadStep(c, data, pos0, p, acc, m, d.value.0, d.value.1);
    ok, acc', p' := true, acc + [d.value.0], p + d.value.1;
  }

  /** `dataLoad(std::vector)`: the size, then the vector resized to it and each element
      loaded. */
  method LoadVector<T>(inp: InStream, c: Codec<T>) returns (r: Option<seq<T>>)
    requires inp.Valid()
    modifies inp
    ensures inp.Valid()
    ensures var d := DecodeCounted(c, old(inp.Remaining()));
      (r.Some? <==> d.Some?) && (d.Some? ==> r.value == d.value.0 && inp.pos == old(inp.pos) + d.value.1)
  {
    ghost var start := inp.data[inp.pos..];
    var size := inp.ReadCount();
    if size.None? {
      return None;
    }
    assert start[4..] == inp.data[inp.pos..];
    r := LoadElems(inp, c, size.value);
  }

  /** `dataLoad(std::set)`: the elements read are inserted into the target; what it held
      stays. */
  method LoadSet<T(==)>(inp: InStream, c: Codec<T>, target: set<T>) returns (r: Option<set<T>>)
    requires inp.Valid()
    modifies inp
    ensures inp.Valid()
    ensures var d := DecodeCounted(c, old(inp.Remaining()));
      (r.Some? <==> d.Some?) && (d.Some? ==> r.value == target + Elements(d.value.0) && inp.pos == old(inp.pos) + d.value.1)
  {
    var xs := LoadVector(inp, c);
    if xs.None? {
      return None;
    }
    var s := target;
    for i := 0 to |xs.value|
      invariant s == target + Elements(xs.value[..i])
    {
      assert Elements(xs.value[..i + 1]) == Elements(xs.value[..i]) + {xs.value[i]} by {
        assert xs.value[..i + 1] == xs.value[..i] + [xs.value[i]];
      }
      s := s + {xs.value[i]};
    }
    assert xs.value[..|xs.value|] == xs.value;
    return Some(s);
  }

  /** `dataLoad(std::list)`: the elements read are appended to the target. */
  method LoadList<T>(inp: InStream, c: Codec<T>, target: seq<T>) returns (r: Option<seq<T>>)
    requires inp.Valid()
    modifies inp
    ensures inp.Valid()
    ensures var d := DecodeCounted(c, old(inp.Remaining()));
      (r.Some? <==> d.Some?) && (d.Some? ==> r.value == target + d.value.0 && inp.pos == old(inp.pos) + d.value.1)
  {
    var xs := LoadVector(inp, c);
    if xs.None? {
      return None;
    }
    var l := target;
    for i := 0 to |xs.value|
      invariant l == target + xs.value[..i]
    {
      assert xs.value[..i + 1] == xs.value[..i] + [xs.value[i]];
      l := l + [xs.value[i]];
    }
    assert xs.value[..|xs.value|] == xs.value;
    return Some(l);
  }

  /** Entries read into a map with `m[key]` followed by loading the value. */
  method LoadEntriesInto<K(==), V>(inp: InStream, ck: Codec<K>, cv: Codec<V>, target: map<K, V>) returns (r: Option<map<K, V>>)
    requires inp.Valid()
    modifies inp
    ensures inp.Valid()
    ensures var d := DecodeCounted(PairCodec(ck, cv), old(inp.Remaining()));
      (r.Some? <==> d.Some?) && (d.Some? ==> r.value == Insert(target, d.value.0) && inp.pos == old(inp.pos) + d.value.1)
  {
    var es := LoadVector(inp, PairCodec(ck, cv));
    if es.None? {
      return None;
    }
    var m := target;
    for i := 0 to |es.value|
      invariant Insert(m, es.value[i..]) == Insert(target, es.value)
    {
      assert es.value[i..][1..] == es.value[i + 1..];
      m := m[es.value[i].0 := es.value[i].1];
    }
    assert es.value[|es.value|..] == [];
    return Some(m);
  }

  /** `dataLoad(std::map)` and `dataLoad(std::unordered_map)`: the target is cleared first,
      so the result is the map the stream describes. */
  method LoadMap<K(==), V>(inp: InStream, ck: Codec<K>, cv: Codec<V>) returns (r: Option<map<K, V>>)
    requires inp.Valid()
    modifies inp
    ensures inp.Valid()
    ensures var d := DecodeCounted(PairCodec(ck, cv), old(inp.Remaining()));
      (r.Some? <==> d.Some?) && (d.Some? ==> r.value == MapOf(d.value.0) && inp.pos == old(inp.pos) + d.value.1)
  {
    r := LoadEntriesInto(inp, ck, cv, map[]);
  }

  /** `dataLoad(HashMap)`: no clear, so the target's other entries stay. */
  method LoadHashMap<K(==), V>(inp: InStream, ck: Codec<K>, cv: Codec<V>, target: map<K, V>) returns (r: Option<map<K, V>>)
    requires inp.Valid()
    modifies inp
    ensures inp.Valid()
    ensures var d := DecodeCounted(PairCodec(ck, cv), old(inp.Remaining()));
      (r.Some? <==> d.Some?) && (d.Some? ==> r.value == target + MapOf(d.value.0) && inp.pos == old(inp.pos) + d.value.1)
  {
    r := LoadEntriesInto(inp, ck, cv, target);
    if r.Some? {
      InsertIsUpdate(target, DecodeCounted(PairCodec(ck, cv), old(inp.Remaining())).value.0);
    }
  }

  /** `dataLoad(std::pair)`. */
  method LoadPair<A, B>(inp: InStream, ca: Codec<A>, cb: Codec<B>) returns (r: Option<(A, B)>)
    requires inp.Valid()
    modifies inp
    ensures inp.Valid()
    ensures var d := DecodePair(ca, cb, old(inp.Remaining()));
      (r.Some? <==> d.Some?) && (d.Some? ==> r.value == d.value.0 && inp.pos == old(inp.pos) + d.value.1)
  {
    ghost var start := inp.data[inp.pos..];
    ghost var pos0 := inp.pos;
    var a := inp.ReadOne(ca);
    if a.None? {
      return None;
    }
    assert start[inp.pos - pos0..] == inp.data[inp.pos..];
    var b := inp.ReadOne(cb);
    if b.None? {
      return None;
    }
    return Some((a.value, b.value));
  }

  /** `dataLoad` of a restartable value: into a held value it reads one element; into a raw
      pointer it is an error and nothing is read. */
  method LoadSlot<T>(inp: InStream, c: Codec<T>, target: Slot<T>) returns (r: Result<Option<T>, string>)
    requires inp.Valid()
    modifies inp
    ensures inp.Valid()
    ensures target.RawPointer? ==> r == Err(PointerMessage("load", "dataLoad", target.typeName)) && inp.pos == old(inp.pos)
    ensures target.Held? ==> r.Ok? && var d := Read(c, old(inp.Remaining()));
      (r.value.Some? <==> d.Some?) && (d.Some? ==> r.value.value == d.value.0 && inp.pos == old(inp.pos) + d.value.1)
  {
    if target.RawPointer? {
      return Err(PointerMessage("load", "dataLoad", target.typeName));
    }
    var x := inp.ReadOne(c);
    return Ok(x);
  }

  /** `dataLoad(Backup)`: the system data, then as many restartable entries as the target
      already has. */
  method LoadBackup<S, R>(inp: InStream, cs: Codec<S>, cr: Codec<R>, target: Backup<S, R>) returns (r: Option<Backup<S, R>>)
    requires inp.Valid()
    modifies inp
    ensures inp.Valid()
    ensures var d := DecodeBackup(cs, cr, |target.restartable|, old(inp.Remaining()));
      (r.Some? <==> d.Some?) && (d.Some? ==> r.value == d.value.0 && inp.pos == old(inp.pos) + d.value.1)
  {
    ghost var start := inp.data[inp.pos..];
    ghost var pos0 := inp.pos;
    var sd := inp.ReadOne(cs);
    if sd.None? {
      return None;
    }
    assert start[inp.pos - pos0..] == inp.data[inp.pos..];
    var es := LoadElems(inp, cr, |target.restartable|);
    if es.None? {
      return None;
    }
    return Some(Backup(sd.value, es.value));
  }
}
