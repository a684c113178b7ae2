/** The sequential body of `ThreadedElementLoopBase::operator()`
    (framework/include/base/ThreadedElementLoopBase.h): the order in which the loop calls its
    virtual callbacks over a range of elements, as a trace of events. The mesh queries an
    element answers (`subdomain_id()`, `n_sides()`, `getBoundaryIDs(elem, side)`,
    `neighbor(side)`) are the element's data; `keepGoing()` is a parameter giving its answer
    before each element; a `MooseException` is thrown by the callback whose call has a given
    position in the trace. */
module ElementLoops {
  import opened Wrappers

  type SubdomainId = nat
  type BoundaryId = nat

  /** One side of an element: its boundary ids, in the order the mesh returns them, and
      whether it has a neighbour. */
  datatype Side = Side(boundaryIds: seq<BoundaryId>, hasNeighbor: bool)

  datatype Elem = Elem(id: nat, subdomain: SubdomainId, sides: seq<Side>)

  /** One callback call. */
  datatype Event =
    | Pre
    | Post
    | SubdomainChanged(subdomain: SubdomainId)
    | OnElement(elem: nat)
    | OnBoundary(elem: nat, side: nat, bnd: BoundaryId)
    | OnInternalSide(elem: nat, side: nat)
    | OnInterface(elem: nat, side: nat, bnd: BoundaryId)
    | PostElement(elem: nat)
    | CaughtException

  // ---------------------------------------------------------------------------------
  // The trace the loop produces

  function BoundaryEvents(e: nat, s: nat, bs: seq<BoundaryId>): seq<Event>
  {
    seq(|bs|, k requires 0 <= k < |bs| => OnBoundary(e, s, bs[k]))
  }

  function InterfaceEvents(e: nat, s: nat, bs: seq<BoundaryId>): seq<Event>
  {
    seq(|bs|, k requires 0 <= k < |bs| => OnInterface(e, s, bs[k]))
  }

  /** The calls for one side: its boundaries, then, with a neighbour, the internal side and
      its interfaces. */
  function SideEvents(e: Elem, s: nat): seq<Event>
    requires s < |e.sides|
  {
    var side := e.sides[s];
    BoundaryEvents(e.id, s, side.boundaryIds)
    + if side.hasNeighbor then [OnInternalSide(e.id, s)] + InterfaceEvents(e.id, s, side.boundaryIds) else []
  }

  /** The calls for the first `n` sides, in side order. */
  function SidesEvents(e: Elem, n: nat): seq<Event>
    requires n <= |e.sides|
  {
    if n == 0 then [] else SidesEvents(e, n - 1) + SideEvents(e, n - 1)
  }

  /** The calls for one element after an element of subdomain `prev`. */
  function ElementEvents(e: Elem, prev: SubdomainId): seq<Event>
  {
    (if e.subdomain != prev then [SubdomainChanged(e.subdomain)] else [])
    + [OnElement(e.id)] + SidesEvents(e, |e.sides|) + [PostElement(e.id)]
  }

  /** `_subdomain` before element `i`: the previous element's, or the sentinel first. */
  function PrevSubdomain(elems: seq<Elem>, i: nat, sentinel: SubdomainId): SubdomainId
    requires i <= |elems|
  {
    if i == 0 then sentinel else elems[i - 1].subdomain
  }

  /** The calls for the first `i` elements. */
  function LoopEvents(elems: seq<Elem>, i: nat, sentinel: SubdomainId): seq<Event>
    requires i <= |elems|
  {
    if i == 0 then []
    else LoopEvents(elems, i - 1, sentinel) + ElementEvents(elems[i - 1], PrevSubdomain(elems, i - 1, sentinel))
  }

  /** How many elements are visited: up to the first one before which `keepGoing` is false. */
  function Processed(elems: seq<Elem>, keepGoing: nat -> bool, from: nat): (n: nat)
    requires from <= |elems|
    ensures from <= n <= |elems|
    ensures forall i :: from <= i < n ==> keepGoing(i)
    ensures n < |elems| ==> !keepGoing(n)
    decreases |elems| - from
  {
    if from == |elems| || !keepGoing(from) then from else Processed(elems, keepGoing, from + 1)
  }

  /** Every call when nothing throws. */
  function Uncaught(elems: seq<Elem>, keepGoing: nat -> bool, sentinel: SubdomainId): seq<Event>
  {
    [Pre] + LoopEvents(elems, Processed(elems, keepGoing, 0), sentinel) + [Post]
  }

  /** The calls that run when the call at position `k` throws, if there is such a call: the
      ones up to it, then `caughtMooseException`. */
  function Thrown(calls: seq<Event>, throwAt: Option<nat>): seq<Event>
  {
    if throwAt.Some? && throwAt.value < |calls| then calls[..throwAt.value + 1] + [CaughtException] else calls
  }

  function Trace(elems: seq<Elem>, keepGoing: nat -> bool, sentinel: SubdomainId, throwAt: Option<nat>): seq<Event>
  {
    Thrown(Uncaught(elems, keepGoing, sentinel), throwAt)
  }

  // ---------------------------------------------------------------------------------
  // Properties of the trace

  predicate Framing(ev: Event)
  {
    ev.Pre? || ev.Post? || ev.CaughtException?
  }

  lemma {:induction false} SidesEventsUnframed(e: Elem, n: nat)
    requires n <= |e.sides|
    ensures forall ev :: ev in SidesEvents(e, n) ==> !Framing(ev)
  {
    if n > 0 {
      SidesEventsUnframed(e, n - 1);
    }
  }

  lemma {:induction false} LoopEventsUnframed(elems: seq<Elem>, i: nat, sentinel: SubdomainId)
    requires i <= |elems|
    ensures forall ev :: ev in LoopEvents(elems, i, sentinel) ==> !Framing(ev)
  {
    if i > 0 {
      LoopEventsUnframed(elems, i - 1, sentinel);
      SidesEventsUnframed(elems[i - 1], |elems[i - 1].sides|);
    }
  }

  /** Absent an exception, `pre` is the first call, `post` the last, and neither is made
      anywhere else; nothing is caught. */
  lemma {:induction false} PrePost(elems: seq<Elem>, keepGoing: nat -> bool, sentinel: SubdomainId)
    ensures var f := Uncaught(elems, keepGoing, sentinel);
      f[0] == Pre && f[|f| - 1] == Post
      && forall k :: 0 < k < |f| - 1 ==> !Framing(f[k])
  {
    var n := Processed(elems, keepGoing, 0);
    LoopEventsUnframed(elems, n, sentinel);
    var f := Uncaught(elems, keepGoing, sentinel);
    forall k | 0 < k < |f| - 1
      ensures !Framing(f[k])
    {
      assert f[k] == LoopEvents(elems, n, sentinel)[k - 1];
    }
  }

  /** The elements visited are the ones before the first `keepGoing()` that answers false, and
      the calls for them are made in range order. */
  lemma {:induction false} KeepGoing(elems: seq<Elem>, keepGoing: nat -> bool, sentinel: SubdomainId)
    ensures var n := Processed(elems, keepGoing, 0);
      Uncaught(elems, keepGoing, sentinel) == [Pre] + LoopEvents(elems, n, sentinel) + [Post]
      && (forall i :: 0 <= i < n ==> keepGoing(i))
      && (n < |elems| ==> !keepGoing(n))
  {
  }

  /** Before an element, `subdomainChanged` is called exactly when its subdomain differs from
      the previous element's; the first element is compared with the sentinel. Then come
      `onElement`, the sides in side order, and `postElement`. */
  lemma {:induction false} ElementOrder(e: Elem, prev: SubdomainId)
    ensures var b := ElementEvents(e, prev);
      var o := if e.subdomain != prev then 1 else 0;
      |b| == o + 2 + |SidesEvents(e, |e.sides|)|
      && (SubdomainChanged(e.subdomain) in b <==> e.subdomain != prev)
      && (o == 1 ==> b[0] == SubdomainChanged(e.subdomain))
      && b[o] == OnElement(e.id) && b[|b| - 1] == PostElement(e.id)
      && b[o + 1..|b| - 1] == SidesEvents(e, |e.sides|)
  {
    var b := ElementEvents(e, prev);
    var o := if e.subdomain != prev then 1 else 0;
    SidesEventsUnframedChange(e, |e.sides|);
    if e.subdomain == prev {
      assert forall k :: 0 <= k < |b| ==> !b[k].SubdomainChanged?;
    }
  }

  lemma {:induction false} SidesEventsUnframedChange(e: Elem, n: nat)
    requires n <= |e.sides|
    ensures forall ev :: ev in SidesEvents(e, n) ==> !ev.SubdomainChanged? && !ev.OnElement? && !ev.PostElement?
  {
    if n > 0 {
      SidesEventsUnframedChange(e, n - 1);
    }
  }

  /** The first element visited is preceded by `subdomainChanged` exactly when its subdomain
      is not the sentinel, the largest `SubdomainID`. */
  lemma {:induction false} FirstElementAgainstSentinel(elems: seq<Elem>, sentinel: SubdomainId)
    requires |elems| > 0
    ensures LoopEvents(elems, 1, sentinel)[0] == SubdomainChanged(elems[0].subdomain) <==> elems[0].subdomain != sentinel
  {
    ElementOrder(elems[0], sentinel);
  }

  /** On one side, `onBoundary` is called for each of its boundary ids in the order given,
      `onInternalSide` exactly when it has a neighbour, and `onInterface` for a boundary id
      exactly when the side has a neighbour and that id. */
  lemma {:induction false} SideOrder(e: Elem, s: nat)
    requires s < |e.sides|
    ensures var bs := e.sides[s].boundaryIds;
      var t := SideEvents(e, s);
      t[..|bs|] == BoundaryEvents(e.id, s, bs)
      && (forall k :: 0 <= k < |bs| ==> t[k] == OnBoundary(e.id, s, bs[k]))
      && (OnInternalSide(e.id, s) in t <==> e.sides[s].hasNeighbor)
      && forall b :: OnInterface(e.id, s, b) in t <==> e.sides[s].hasNeighbor && b in bs
  {
    var bs := e.sides[s].boundaryIds;
    var t := SideEvents(e, s);
    var bnd := BoundaryEvents(e.id, s, bs);
    assert t[..|bs|] == bnd;
    forall b
      ensures OnInterface(e.id, s, b) in t <==> e.sides[s].hasNeighbor && b in bs
    {
      if OnInterface(e.id, s, b) in t {
        var k :| 0 <= k < |t| && t[k] == OnInterface(e.id, s, b);
        assert k >= |bs|;
      }
      if e.sides[s].hasNeighbor && b in bs {
        var j :| 0 <= j < |bs| && bs[j] == b;
        assert t[|bs| + 1 + j] == OnInterface(e.id, s, b);
      }
    }
    if OnInternalSide(e.id, s) in t {
      var k :| 0 <= k < |t| && t[k] == OnInternalSide(e.id, s);
      assert k >= |bs|;
    }
    if e.sides[s].hasNeighbor {
      assert t[|bs|] == OnInternalSide(e.id, s);
    }
  }

  /** A callback that throws ends the loop: the calls made are the ones up to and including
      it, then `caughtMooseException`; `post` is called only if it is the one that threw. */
  lemma {:induction false} ExceptionSkipsRest(elems: seq<Elem>, keepGoing: nat -> bool, sentinel: SubdomainId, k: nat)
    requires k < |Uncaught(elems, keepGoing, sentinel)|
    ensures var f := Uncaught(elems, keepGoing, sentinel);
      var t := Trace(elems, keepGoing, sentinel, Some(k));
      |t| == k + 2 && t[..k + 1] == f[..k + 1] && t[k + 1] == CaughtException
      && (Post in t <==> k == |f| - 1)
  {
    var f := Uncaught(elems, keepGoing, sentinel);
    var t := Trace(elems, keepGoing, sentinel, Some(k));
    PrePost(elems, keepGoing, sentinel);
    if Post in t {
      var j :| 0 <= j < |t| && t[j] == Post;
      assert j <= k && t[j] == f[j];
    }
    if k == |f| - 1 {
      assert t[k] == Post;
    }
  }

  // ---------------------------------------------------------------------------------
  // The loop

  /** The calls that ran of those the loop reached: all of them, or those up to the one that
      threw. */
  function Ran(calls: seq<Event>, throwAt: Option<nat>): seq<Event>
  {
    if throwAt.Some? && throwAt.value < |calls| then calls[..throwAt.value + 1] else calls
  }

  /** An exception that happened is reported after the calls that ran. */
  lemma {:induction false} ThrownRan(calls: seq<Event>, throwAt: Option<nat>)
    ensures Thrown(calls, throwAt)
         == if throwAt.Some? && throwAt.value < |calls| then Ran(calls, throwAt) + [CaughtException] else Ran(calls, throwAt)
  {
  }

  /** The loop object: `_subdomain`, `_old_subdomain`, and the calls seen from outside. */
  class ElementLoop {
    /** The position in the trace of the call that throws, if one does. */
    const throwAt: Option<nat>
    var subdomain: SubdomainId
    var oldSubdomain: SubdomainId
    /** The calls that ran, then `caughtMooseException` if one threw. */
    var trace: seq<Event>
    var thrown: bool
    /** How many calls the loop has reached. */
    var reached: nat
    /** The calls the loop has reached, including those an exception kept from running. */
    ghost var calls: seq<Event>

    ghost predicate Valid()
      reads this
    {
      reached == |calls|
      && thrown == (throwAt.Some? && throwAt.value < |calls|)
      && trace == Ran(calls, throwAt)
    }

    constructor(throwAt: Option<nat>)
      ensures this.throwAt == throwAt && Valid() && calls == [] && trace == []
    {
      this.throwAt := throwAt;
      subdomain, oldSubdomain := 0, 0;
      trace, thrown, reached, calls := [], false, 0, [];
    }

    /** One callback call; once one has thrown, no further call runs. */
    method Call(ev: Event)
      requires Valid()
      modifies this
      ensures Valid() && calls == old(calls) + [ev]
      ensures subdomain == old(subdomain) && oldSubdomain == old(oldSubdomain)
    {
      if !thrown {
        trace := trace + [ev];
        thrown := throwAt == Some(reached);
        reached := reached + 1;
        calls := calls + [ev];
        assert thrown ==> calls[..throwAt.value + 1] == calls;
      } else {
        reached := reached + 1;
        calls := calls + [ev];
        assert calls[..throwAt.value + 1] == old(calls)[..throwAt.value + 1];
      }
    }

    method CallEach(evs: seq<Event>)
      requires Valid()
      modifies this
      ensures Valid() && calls == old(calls) + evs
      ensures subdomain == old(subdomain) && oldSubdomain == old(oldSubdomain)
    {
      for k := 0 to |evs|
        invariant Valid() && calls == old(calls) + evs[..k]
        invariant subdomain == old(subdomain) && oldSubdomain == old(oldSubdomain)
      {
        Call(evs[k]);
        assert evs[..k + 1] == evs[..k] + [evs[k]];
      }
      assert evs[..|evs|] == evs;
    }

    /** The side loop for one element. */
    method VisitSides(e: Elem)
      requires Valid()
      modifies this
      ensures Valid() && calls == old(calls) + SidesEvents(e, |e.sides|)
      ensures subdomain == old(subdomain) && oldSubdomain == old(oldSubdomain)
    {
      for s := 0 to |e.sides|
        invariant Valid() && calls == old(calls) + SidesEvents(e, s)
        invariant subdomain == old(subdomain) && oldSubdomain == old(oldSubdomain)
      {
        ghost var before := calls;
        var boundaryIds := e.sides[s].boundaryIds;
        CallEach(BoundaryEvents(e.id, s, boundaryIds));
        if e.sides[s].hasNeighbor {
          Call(OnInternalSide(e.id, s));
          CallEach(InterfaceEvents(e.id, s, boundaryIds));
          AppendAssoc(before + BoundaryEvents(e.id, s, boundaryIds), [OnInternalSide(e.id, s)], InterfaceEvents(e.id, s, boundaryIds));
          AppendAssoc(before, BoundaryEvents(e.id, s, boundaryIds), [OnInternalSide(e.id, s)] + InterfaceEvents(e.id, s, boundaryIds));
        }
        assert calls == before + SideEvents(e, s);
        AppendAssoc(old(calls), SidesEvents(e, s), SideEvents(e, s));
      }
    }

    /** The body of the range loop for one element. */
    method Visit(e: Elem)
      requires Valid()
      modifies this
      ensures Valid() && calls == old(calls) + ElementEvents(e, old(subdomain))
      ensures subdomain == e.subdomain && oldSubdomain == old(subdomain)
    {
      oldSubdomain := subdomain;
      subdomain := e.subdomain;
      ghost var c0 := calls;
      ghost var changed: seq<Event> := if subdomain != oldSubdomain then [SubdomainChanged(subdomain)] else [];
      if subdomain != oldSubdomain {
        Call(SubdomainChanged(subdomain));
      }
      assert calls == c0 + changed;
      Call(OnElement(e.id));
      AppendAssoc(c0, changed, [OnElement(e.id)]);
      VisitSides(e);
      AppendAssoc(c0, changed + [OnElement(e.id)], SidesEvents(e, |e.sides|));
      Call(PostElement(e.id));
      AppendAssoc(c0, changed + [OnElement(e.id)] + SidesEvents(e, |e.sides|), [PostElement(e.id)]);
    }

    /** The range loop: elements in range order while `keepGoing()` holds. */
    method VisitAll(elems: seq<Elem>, keepGoing: nat -> bool, sentinel: SubdomainId)
      requires Valid() && subdomain == sentinel
      modifies this
      ensures Valid() && calls == old(calls) + LoopEvents(elems, Processed(elems, keepGoing, 0), sentinel)
    {
      var i := 0;
      while i < |elems|
        invariant i <= |elems| && Valid()
        invariant calls == old(calls) + LoopEvents(elems, i, sentinel)
        invariant subdomain == PrevSubdomain(elems, i, sentinel)
        invariant forall j :: 0 <= j < i ==> keepGoing(j)
      {
        if !keepGoing(i) {
          break;
        }
        Visit(elems[i]);
        AppendAssoc(old(calls), LoopEvents(elems, i, sentinel), ElementEvents(elems[i], PrevSubdomain(elems, i, sentinel)));
        i := i + 1;
      }
      assert i == Processed(elems, keepGoing, 0);
    }

    /** `operator()(range)`, with `sentinel` for `std::numeric_limits<SubdomainID>::max()`. */
    method Run(elems: seq<Elem>, keepGoing: nat -> bool, sentinel: SubdomainId)
      requires Valid() && calls == []
      modifies this
      ensures trace == Trace(elems, keepGoing, sentinel, throwAt)
    {
      Call(Pre);
      subdomain := sentinel;
      VisitAll(elems, keepGoing, sentinel);
      Call(Post);
      ghost var f := Uncaught(elems, keepGoing, sentinel);
      assert calls == f;
      ThrownRan(f, throwAt);
      if thrown {
        trace := trace + [CaughtException];
      }
    }
  }
}
