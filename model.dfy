/** The receiver record and every descriptor it knows of, as one value, and the
    receive-side operations of receiver.c as functions from one such value to the
    next. Each function asks only what it needs to be defined; that the
    operations keep the receiver well formed is proved by the lemmas beside
    them. The class in receiver.dfy carries out the same operations in place and
    is proved to agree with these functions. */
module ReceiverModel {
  import opened Types
  import opened Chains
  import opened Metadata
  import opened Admission

  datatype Model = Model(
    descs: map<Id, Descriptor>,   // every live NET_BUFFER_LIST, by address
    get: seq<Id>,                 // GetList, head first
    put: seq<Id>,                 // PutList, head first
    held: set<Id>,                // acquired by the receive path, not yet indicated
    stack: set<Id>,               // indicated to NDIS and not yet returned
    freed: set<Id>,               // handed back to the backing pool
    allocations: nat,             // descriptors the backing pool has handed out
    inNdis: int,                  // InNDIS
    inNdisMax: int,               // InNDISMax
    admissions: seq<int>,         // each value InNDIS took when incremented
    log: seq<Event>)              // calls into the pool, NDIS and the VIF, in order

  /** The get and put lists are threaded through the descriptors' next links
      (and so, by ChainDistinct, hold no descriptor twice). */
  ghost predicate Lists(m: Model)
  {
    ChainOf(m.descs, HeadOf(m.get), m.get) && ChainOf(m.descs, HeadOf(m.put), m.put)
  }

  /** What acquisition relies on: the lists are threaded through live
      descriptors, and each descriptor has the one NET_BUFFER the pool gave it. */
  ghost predicate Threaded(m: Model)
  {
    Lists(m) && forall d :: d in m.descs ==> |m.descs[d].buffers| == 1
  }

  /** Every descriptor the pool has handed out is in exactly one place: the get
      list, the put list, the receive path, NDIS, or back in the pool. */
  ghost predicate OnePlace(m: Model)
  {
    (forall d :: d in m.get ==> d !in m.put && d !in m.held && d !in m.stack)
    && (forall d :: d in m.put ==> d !in m.held && d !in m.stack)
    && m.held !! m.stack
    && (forall d :: d in m.descs <==> d in m.get || d in m.put || d in m.held || d in m.stack)
    && (forall d :: d in m.freed ==> d !in m.descs && d < m.allocations)
    && (forall d :: d in m.descs ==> d < m.allocations)
    && (forall d: nat :: d < m.allocations ==> d in m.descs || d in m.freed)
  }

  /** A descriptor's cookie slot is filled exactly while the receive path or NDIS
      owns it, and one on the receive path is unlinked. */
  ghost predicate Slots(m: Model)
  {
    forall d :: d in m.descs ==>
      (m.descs[d].cookie.Some? <==> d in m.held || d in m.stack)
      && (d in m.held ==> m.descs[d].next == None)
  }

  ghost predicate WellFormed(m: Model)
  {
    Threaded(m) && OnePlace(m) && Slots(m)
  }

  /** InNDIS counts the descriptors NDIS holds, and InNDISMax is the largest
      value InNDIS has reached. */
  ghost predicate Counted(m: Model)
  {
    m.inNdis == |m.stack| && m.inNdis <= m.inNdisMax && m.inNdisMax == MaxOf(m.admissions)
  }

  ghost predicate Inv(m: Model)
  {
    WellFormed(m) && Counted(m)
  }

  /** Between calls into the receiver, no descriptor is half way through the
      receive path. */
  ghost predicate AtRest(m: Model)
  {
    m.held == {}
  }

  /** The state ReceiverInitialize leaves: a zeroed record and an empty pool. */
  function Initial(): (m: Model)
    ensures Inv(m) && AtRest(m)
  {
    Model(map[], [], [], {}, {}, {}, 0, 0, 0, [], [])
  }

  /** A live descriptor whose slot holds a cookie: one that can be returned. */
  predicate Returnable(m: Model, d: Id)
  {
    d in m.descs && m.descs[d].cookie.Some?
  }

  /** Whether acquisition can produce a descriptor: one is cached, or the backing
      pool allocation succeeds. */
  predicate Acquirable(m: Model, allocOk: bool)
  {
    m.get != [] || m.put != [] || allocOk
  }

  /** The descriptor an acquisition uses: the head of the get list, else the head
      of the put list (taken over as the new get list), else a new one. */
  function NextDescriptor(m: Model): (r: Id)
  {
    if m.get != [] then m.get[0] else if m.put != [] then m.put[0] else m.allocations
  }

  /** A recycled descriptor after lines 86-93: unlinked and its NET_BUFFER bound
      to the new fragment. */
  function Rebound(desc: Descriptor, mdl: MdlRef, offset: ULong, length: ULong): (r: Descriptor)
    requires |desc.buffers| >= 1
    ensures r.next == None && |r.buffers| == |desc.buffers| && r.buffers[0] == BoundBuffer(mdl, offset, length)
    ensures r.buffers[1..] == desc.buffers[1..]
    ensures r.cookie == desc.cookie && r.checksum == desc.checksum && r.tag == desc.tag
  {
    desc.(next := None, buffers := desc.buffers[0 := BoundBuffer(mdl, offset, length)])
  }

  /** Lines 76-77: an empty get list takes over the whole put list. */
  function Refill(m: Model): (r: Model)
    ensures m.get != [] ==> r == m
    ensures m.get == [] ==> r.get == m.put && r.put == []
    ensures r == m.(get := r.get, put := r.put)
    ensures forall x :: x in r.get || x in r.put <==> x in m.get || x in m.put
    ensures Threaded(m) ==> Threaded(r)
  {
    if m.get == [] then m.(get := m.put, put := []) else m
  }

  /** Lines 79-93: the get list's head is unhooked and bound to the fragment. */
  function PopGetList(m: Model, mdl: MdlRef, offset: ULong, length: ULong): (r: Model)
    requires m.get != [] && m.get[0] in m.descs && |m.descs[m.get[0]].buffers| >= 1
    ensures r == m.(get := r.get, descs := r.descs) && r.get == m.get[1..]
    ensures r.descs.Keys == m.descs.Keys
    ensures forall x :: x in m.descs && x != m.get[0] ==> r.descs[x] == m.descs[x]
    ensures var before, after := m.descs[m.get[0]], r.descs[m.get[0]];
      after.next == None && |after.buffers| == |before.buffers| && after.buffers[0] == BoundBuffer(mdl, offset, length)
      && after.buffers[1..] == before.buffers[1..]
      && after.cookie == before.cookie && after.checksum == before.checksum && after.tag == before.tag
  {
    var d := m.get[0];
    m.(get := m.get[1..], descs := m.descs[d := Rebound(m.descs[d], mdl, offset, length)])
  }

  /** Lines 94-102: NdisAllocateNetBufferAndNetBufferList succeeds with a
      descriptor the pool has not handed out before. */
  function AllocateFresh(m: Model, mdl: MdlRef, offset: ULong, length: ULong): (r: Model)
    ensures r == m.(descs := r.descs, allocations := r.allocations, log := r.log)
    ensures r.allocations == m.allocations + 1 && r.log == m.log + [Allocated(m.allocations)]
    ensures r.descs.Keys == m.descs.Keys + {m.allocations}
    ensures r.descs[m.allocations].next == None && r.descs[m.allocations].cookie == None
      && r.descs[m.allocations].buffers == [BoundBuffer(mdl, offset, length)]
    ensures forall x :: x in m.descs && x != m.allocations ==> r.descs[x] == m.descs[x]
  {
    var d := m.allocations;
    m.(descs := m.descs[d := FreshDescriptor(mdl, offset, length)], allocations := d + 1, log := m.log + [Allocated(d)])
  }

  /** Lines 106-108: the cookie goes into the descriptor's reserved slot, and the
      receive path now holds the descriptor. */
  function FillSlot(m: Model, d: Id, cookie: Cookie): (r: Model)
    requires d in m.descs
    ensures r == m.(descs := r.descs, held := r.held) && r.held == m.held + {d}
    ensures Returnable(r, d) && r.descs[d].cookie == Some(cookie)
    ensures r.descs[d] == m.descs[d].(cookie := r.descs[d].cookie)
    ensures r.descs.Keys == m.descs.Keys && forall x :: x in m.descs && x != d ==> r.descs[x] == m.descs[x]
  {
    m.(descs := m.descs[d := m.descs[d].(cookie := Some(cookie))], held := m.held + {d})
  }

  /** InNDIS, its mark and its history are as they were. */
  predicate SameCounters(m: Model, r: Model)
  {
    r.inNdis == m.inNdis && r.inNdisMax == m.inNdisMax && r.admissions == m.admissions
  }

  /** Lines 76-102: the descriptor acquisition obtains, from the get list, the
      put list or the backing pool (`None` when nothing is cached and
      NdisAllocateNetBufferAndNetBufferList fails), before its slot is filled. */
  function Obtain(m: Model, mdl: MdlRef, offset: ULong, length: ULong, allocOk: bool): (r: (Model, Option<Id>))
    requires Threaded(m)
    ensures r.1.None? <==> !Acquirable(m, allocOk)
    ensures r.1.None? ==> r.0 == m
    ensures r.1.Some? ==> r.1.value == NextDescriptor(m) && r.1.value in r.0.descs
    ensures r.0.held == m.held && r.0.stack == m.stack && r.0.freed == m.freed && SameCounters(m, r.0)
  {
    var m1 := Refill(m);
    if m1.get != [] then (PopGetList(m1, mdl, offset, length), Some(m1.get[0]))
    else if allocOk then (AllocateFresh(m1, mdl, offset, length), Some(m1.allocations))
    else (m1, None)
  }

  /** __ReceiverAllocateNetBufferList (lines 61-111), with the NULL return of the
      backing pool handled before the cookie slot is touched. */
  function AllocateNetBufferList(m: Model, mdl: MdlRef, offset: ULong, length: ULong, cookie: Cookie, allocOk: bool)
    : (r: (Model, Option<Id>))
    requires Threaded(m)
    ensures r.1.None? <==> !Acquirable(m, allocOk)
    ensures r.1.Some? ==>
      r.1.value == NextDescriptor(m) && r.0.held == m.held + {r.1.value}
      && r.1.value in r.0.descs && r.0.descs[r.1.value].cookie == Some(cookie)
    ensures r.1.None? ==> r.0 == m
    ensures r.0.stack == m.stack && r.0.freed == m.freed && SameCounters(m, r.0)
  {
    var (m1, nbl) := Obtain(m, mdl, offset, length, allocOk);
    if nbl.Some? then (FillSlot(m1, nbl.value, cookie), nbl) else (m1, None)
  }

  lemma RefillWellFormed(m: Model)
    requires WellFormed(m)
    ensures WellFormed(Refill(m))
  {
  }

  /** Acquisition keeps the model well formed, and the descriptor it hands out
      was owned by neither the receive path nor NDIS. */
  lemma AllocateWellFormed(m: Model, mdl: MdlRef, offset: ULong, length: ULong, cookie: Cookie, allocOk: bool)
    requires WellFormed(m)
    ensures var (r, nbl) := AllocateNetBufferList(m, mdl, offset, length, cookie, allocOk);
      WellFormed(r) && (nbl.Some? ==> nbl.value !in m.held && nbl.value !in m.stack)
  {
    var m1 := Refill(m);
    RefillWellFormed(m);
    if m1.get != [] {
      PopWellFormed(m1, mdl, offset, length, cookie);
    } else if allocOk {
      FreshWellFormed(m1, mdl, offset, length, cookie);
    }
  }

  /** Popping the get list's head onto the receive path, with its slot filled and
      its link cleared, keeps the model well formed. */
  lemma PopWellFormed(m: Model, mdl: MdlRef, offset: ULong, length: ULong, cookie: Cookie)
    requires WellFormed(m) && m.get != []
    ensures WellFormed(FillSlot(PopGetList(m, mdl, offset, length), m.get[0], cookie))
  {
    var d := m.get[0];
    var r := FillSlot(PopGetList(m, mdl, offset, length), d, cookie);
    PopLists(m, mdl, offset, length, cookie);
    DistinctTail(m.get);
    assert forall x :: x in r.get ==> x in m.get;
    assert OnePlace(r);
  }

  /** The part of PopWellFormed about the lists: the get list loses its head and
      both lists stay threaded through live descriptors. */
  lemma PopLists(m: Model, mdl: MdlRef, offset: ULong, length: ULong, cookie: Cookie)
    requires WellFormed(m) && m.get != []
    ensures var r := FillSlot(PopGetList(m, mdl, offset, length), m.get[0], cookie);
      Threaded(r) && Distinct(m.get)
  {
    var d := m.get[0];
    var r := FillSlot(PopGetList(m, mdl, offset, length), d, cookie);
    var heap := r.descs;
    assert forall x :: x in heap && x != d ==> heap[x] == m.descs[x];
    ChainDistinct(m.descs, HeadOf(m.get), m.get);
    DistinctTail(m.get);
    ChainInHeap(m.descs, m.descs[d].next, m.get[1..]);
    ChainFrame(m.descs, heap, m.descs[d].next, m.get[1..]);
    ChainFrame(m.descs, heap, HeadOf(m.put), m.put);
  }

  /** Adding a newly allocated descriptor to the receive path keeps the model well
      formed. */
  lemma FreshWellFormed(m: Model, mdl: MdlRef, offset: ULong, length: ULong, cookie: Cookie)
    requires WellFormed(m)
    ensures WellFormed(FillSlot(AllocateFresh(m, mdl, offset, length), m.allocations, cookie))
  {
    var a := m.allocations;
    var r := FillSlot(AllocateFresh(m, mdl, offset, length), a, cookie);
    FreshLists(m, mdl, offset, length, cookie);
    assert r.descs[a] == FreshDescriptor(mdl, offset, length).(cookie := Some(cookie));
  }

  /** The part of FreshWellFormed about the lists: neither changes, and both stay
      threaded through live descriptors. */
  lemma FreshLists(m: Model, mdl: MdlRef, offset: ULong, length: ULong, cookie: Cookie)
    requires WellFormed(m)
    ensures var r := FillSlot(AllocateFresh(m, mdl, offset, length), m.allocations, cookie);
      Threaded(r) && (forall x :: x in r.descs && x != m.allocations ==> x in m.descs && r.descs[x] == m.descs[x])
  {
    var a := m.allocations;
    var heap := FillSlot(AllocateFresh(m, mdl, offset, length), a, cookie).descs;
    assert forall x :: x in heap && x != a ==> x in m.descs && heap[x] == m.descs[x];
    assert heap[a] == FreshDescriptor(mdl, offset, length).(cookie := Some(cookie));
    ChainInHeap(m.descs, HeadOf(m.get), m.get);
    ChainInHeap(m.descs, HeadOf(m.put), m.put);
    ChainFrame(m.descs, heap, HeadOf(m.get), m.get);
    ChainFrame(m.descs, heap, HeadOf(m.put), m.put);
  }

  /** The get list is refilled only when it is empty, by taking over the whole put
      list and leaving the put list empty; acquisition then pops the head. */
  lemma AllocateRefillsAndPops(m: Model, mdl: MdlRef, offset: ULong, length: ULong, cookie: Cookie, allocOk: bool)
    requires Threaded(m)
    ensures var r := AllocateNetBufferList(m, mdl, offset, length, cookie, allocOk).0;
      (m.get != [] ==> r.get == m.get[1..] && r.put == m.put)
      && (m.get == [] && m.put != [] ==> r.get == m.put[1..] && r.put == [])
      && (m.get == [] && m.put == [] ==> r.get == [] && r.put == [])
  {
  }

  /** A new descriptor comes from the backing pool only when both lists were
      empty; it is an address the pool has not handed out before. */
  lemma AllocateFromPool(m: Model, mdl: MdlRef, offset: ULong, length: ULong, cookie: Cookie, allocOk: bool)
    requires WellFormed(m)
    ensures var (r, nbl) := AllocateNetBufferList(m, mdl, offset, length, cookie, allocOk);
      var fromPool := m.get == [] && m.put == [] && allocOk;
      r.allocations == m.allocations + (if fromPool then 1 else 0)
      && r.log == m.log + (if fromPool then [Allocated(m.allocations)] else [])
      && (nbl.Some? ==> (nbl.value !in m.descs <==> fromPool))
      && (fromPool ==> nbl == Some(m.allocations) && m.allocations !in m.freed)
  {
  }

  /** The acquired descriptor is unlinked, bound to the fragment with a single
      NET_BUFFER, and carries the supplied cookie in a slot that was empty before;
      its checksum and tag info are whatever it last carried (zero when new). */
  lemma AllocateBinds(m: Model, mdl: MdlRef, offset: ULong, length: ULong, cookie: Cookie, allocOk: bool)
    requires WellFormed(m)
    ensures var (r, nbl) := AllocateNetBufferList(m, mdl, offset, length, cookie, allocOk);
      nbl.Some? ==>
        var d := nbl.value;
        d in r.descs
        && (d in m.descs ==> m.descs[d].cookie == None)
        && r.descs[d].next == None
        && r.descs[d].buffers == [BoundBuffer(mdl, offset, length)]
        && r.descs[d].cookie == Some(cookie)
        && r.descs[d].checksum == (if d in m.descs then m.descs[d].checksum else 0)
        && r.descs[d].tag == (if d in m.descs then m.descs[d].tag else NoTag)
  {
    var m1 := Refill(m);
    if m1.get != [] {
      assert m1.get[0] in m1.get;
    } else if allocOk {
      assert m.allocations !in m.descs;
    }
  }

  /** Acquisition touches no other descriptor. */
  lemma AllocateFrame(m: Model, mdl: MdlRef, offset: ULong, length: ULong, cookie: Cookie, allocOk: bool)
    requires Threaded(m)
    ensures var (r, nbl) := AllocateNetBufferList(m, mdl, offset, length, cookie, allocOk);
      forall x :: x in m.descs && Some(x) != nbl ==> x in r.descs && r.descs[x] == m.descs[x]
  {
  }

  /** NdisFreeNetBufferList: the descriptor goes back to the backing pool. */
  function Free(m: Model, d: Id): (r: Model)
    requires d in m.descs
    ensures d !in r.descs && d in r.freed
  {
    m.(descs := m.descs - {d}, freed := m.freed + {d}, log := m.log + [Freed(d)])
  }

  /** __ReceiverReleaseNetBufferList (lines 113-144): empties the cookie slot and
      returns what it held; with caching the descriptor is pushed onto the put
      list, otherwise it is freed. */
  function ReleaseNetBufferList(m: Model, d: Id, cache: bool): (r: (Model, Option<Cookie>))
    requires d in m.descs
    ensures r.1 == m.descs[d].cookie
    ensures r.0.held == m.held - {d} && r.0.stack == m.stack - {d} && SameCounters(m, r.0)
  {
    var cookie := m.descs[d].cookie;
    if cache then
      var desc := m.descs[d].(cookie := None, next := HeadOf(m.put));
      (m.(descs := m.descs[d := desc], put := [d] + m.put, held := m.held - {d}, stack := m.stack - {d}), cookie)
    else
      (Free(m, d).(held := m.held - {d}, stack := m.stack - {d}), cookie)
  }

  /** Releasing a descriptor the receive path or NDIS owns, whose link is empty
      when it is cached (the assertion at line 131), keeps the model well formed;
      its slot held a cookie. */
  lemma ReleaseWellFormed(m: Model, d: Id, cache: bool)
    requires WellFormed(m) && (d in m.held || d in m.stack)
    requires cache ==> m.descs[d].next == None
    ensures WellFormed(ReleaseNetBufferList(m, d, cache).0)
    ensures ReleaseNetBufferList(m, d, cache).1.Some?
  {
    if cache {
      PushWellFormed(m, d, m.descs[d].(cookie := None, next := HeadOf(m.put)));
    } else {
      FreeWellFormed(m, d);
    }
  }

  lemma PushWellFormed(m: Model, d: Id, desc: Descriptor)
    requires WellFormed(m) && (d in m.held || d in m.stack)
    requires desc.next == HeadOf(m.put) && desc.cookie == None && |desc.buffers| == 1
    ensures WellFormed(m.(descs := m.descs[d := desc], put := [d] + m.put, held := m.held - {d}, stack := m.stack - {d}))
  {
    var heap := m.descs[d := desc];
    var r := m.(descs := heap, put := [d] + m.put, held := m.held - {d}, stack := m.stack - {d});
    ChainInHeap(m.descs, HeadOf(m.get), m.get);
    ChainFrame(m.descs, heap, HeadOf(m.get), m.get);
    ChainPush(m.descs, HeadOf(m.put), m.put, d, desc);
    assert Lists(r);
    assert forall x :: x in r.put ==> x == d || x in m.put;
    assert OnePlace(r);
  }

  lemma FreeWellFormed(m: Model, d: Id)
    requires WellFormed(m) && (d in m.held || d in m.stack)
    ensures WellFormed(Free(m, d).(held := m.held - {d}, stack := m.stack - {d}))
  {
    var r := Free(m, d).(held := m.held - {d}, stack := m.stack - {d});
    ChainInHeap(m.descs, HeadOf(m.get), m.get);
    ChainInHeap(m.descs, HeadOf(m.put), m.put);
    ChainFrame(m.descs, r.descs, HeadOf(m.get), m.get);
    ChainFrame(m.descs, r.descs, HeadOf(m.put), m.put);
  }

  /** Release hands back the stored cookie and leaves the slot empty. With caching
      the descriptor becomes the put list's head, linked to the old head, and
      nothing is freed; without, it is freed and neither list changes. */
  lemma ReleaseEffect(m: Model, d: Id, cache: bool)
    requires d in m.descs
    ensures var (r, cookie) := ReleaseNetBufferList(m, d, cache);
      cookie == m.descs[d].cookie
      && r.get == m.get
      && (cache ==>
            r.put == [d] + m.put && d in r.descs
            && r.descs[d] == m.descs[d].(cookie := None, next := HeadOf(m.put))
            && r.freed == m.freed && r.log == m.log)
      && (!cache ==>
            r.put == m.put && d !in r.descs
            && r.freed == m.freed + {d} && r.log == m.log + [Freed(d)])
      && (forall x :: x in m.descs && x != d ==> x in r.descs && r.descs[x] == m.descs[x])
      && r.allocations == m.allocations
  {
  }

  /** __ReceiverReturnNetBufferList (lines 146-165): release, hand the cookie back
      to the VIF, and decrement InNDIS. */
  function ReturnNetBufferList(m: Model, d: Id, cache: bool): (r: Model)
    requires Returnable(m, d)
    ensures r.stack == m.stack - {d} && r.held == m.held - {d}
    ensures r.inNdis == m.inNdis - 1 && r.inNdisMax == m.inNdisMax && r.admissions == m.admissions
  {
    var (m1, cookie) := ReleaseNetBufferList(m, d, cache);
    var c := Retire(Counters(m1.inNdis, m1.inNdisMax));
    m1.(log := m1.log + [PacketReturned(cookie.value)], inNdis := c.inNdis)
  }

  /** Returning a descriptor NDIS holds keeps the invariant: the count drops with
      the number of descriptors NDIS holds. */
  lemma ReturnInv(m: Model, d: Id, cache: bool)
    requires Inv(m) && d in m.stack
    requires cache ==> m.descs[d].next == None
    ensures Returnable(m, d)
    ensures Inv(ReturnNetBufferList(m, d, cache)) && ReturnNetBufferList(m, d, cache).held == m.held
  {
    ReleaseWellFormed(m, d, cache);
    var m1 := ReleaseNetBufferList(m, d, cache).0;
    BookkeepingOnly(m1, ReturnNetBufferList(m, d, cache));
    RemoveAdd(m.stack, d);
    RemoveAbsent(m.held, d);
  }

  /** Well-formedness does not depend on the counters, the admissions or the log. */
  lemma BookkeepingOnly(m: Model, r: Model)
    requires WellFormed(m)
    requires r.descs == m.descs && r.get == m.get && r.put == m.put && r.held == m.held
    requires r.stack == m.stack && r.freed == m.freed && r.allocations == m.allocations
    ensures WellFormed(r)
  {
  }

  /** Rewriting the metadata of a descriptor on the receive path keeps the model
      well formed. */
  lemma RestampWellFormed(m: Model, d: Id, desc: Descriptor)
    requires WellFormed(m) && d in m.held
    requires desc.next == m.descs[d].next && desc.buffers == m.descs[d].buffers && desc.cookie == m.descs[d].cookie
    ensures WellFormed(m.(descs := m.descs[d := desc]))
  {
    var heap := m.descs[d := desc];
    ChainInHeap(m.descs, HeadOf(m.get), m.get);
    ChainInHeap(m.descs, HeadOf(m.put), m.put);
    ChainFrame(m.descs, heap, HeadOf(m.get), m.get);
    ChainFrame(m.descs, heap, HeadOf(m.put), m.put);
  }

  /** The descriptor with its checksum word stamped (lines 196-207). */
  function WithChecksum(m: Model, d: Id, flags: ChecksumFlags): (r: Model)
    requires d in m.descs
    ensures r == m.(descs := r.descs) && r.descs.Keys == m.descs.Keys
    ensures DecodeChecksum(r.descs[d].checksum) == flags && r.descs[d] == m.descs[d].(checksum := r.descs[d].checksum)
    ensures forall x :: x in m.descs && x != d ==> r.descs[x] == m.descs[x]
  {
    m.(descs := m.descs[d := m.descs[d].(checksum := ChecksumWord(flags))])
  }

  /** The descriptor with its 802.1Q info written (line 220). */
  function WithTag(m: Model, d: Id, tag: TagHeader): (r: Model)
    requires d in m.descs
    ensures r == m.(descs := r.descs) && r.descs.Keys == m.descs.Keys
    ensures r.descs[d].tag == tag && r.descs[d] == m.descs[d].(tag := tag)
    ensures forall x :: x in m.descs && x != d ==> r.descs[x] == m.descs[x]
  {
    m.(descs := m.descs[d := m.descs[d].(tag := tag)])
  }

  /** The receive path after acquisition (lines 185-229): stamp the checksum
      word, then the 802.1Q info when Tag Control Information is present. A tag
      with a VLAN identifier sends the descriptor back to the put list. */
  function StampPacket(m: Model, d: Id, flags: ChecksumFlags, tci: UShort): (r: (Model, Option<Id>))
    requires d in m.descs
    ensures r.1.Some? <==> !TagRejected(tci)
    ensures r.1.Some? ==>
      r.1.value == d && r.0.held == m.held && r.0.stack == m.stack
      && d in r.0.descs && r.0.descs[d].cookie == m.descs[d].cookie
    ensures r.1.None? ==> r.0.held == m.held - {d} && r.0.stack == m.stack - {d}
    ensures SameCounters(m, r.0)
  {
    var m1 := WithChecksum(m, d, flags);
    if tci == 0 then (m1, Some(d))
    else
      var tag := UnpackTci(tci);
      if tag.vlanId != 0 then (ReleaseNetBufferList(m1, d, true).0, None)
      else (WithTag(m1, d, tag), Some(d))
  }

  /** Stamping a held descriptor keeps the model well formed and leaves NDIS's
      descriptors alone. */
  lemma StampWellFormed(m: Model, d: Id, flags: ChecksumFlags, tci: UShort)
    requires WellFormed(m) && d in m.held
    ensures WellFormed(StampPacket(m, d, flags, tci).0) && StampPacket(m, d, flags, tci).0.stack == m.stack
  {
    var m1 := WithChecksum(m, d, flags);
    RestampWellFormed(m, d, m1.descs[d]);
    if tci != 0 {
      var tag := UnpackTci(tci);
      if tag.vlanId != 0 {
        ReleaseWellFormed(m1, d, true);
        RemoveAbsent(m.stack, d);
      } else {
        RestampWellFormed(m1, d, m1.descs[d].(tag := tag));
      }
    }
  }

  /** A delivered descriptor is the held one with the checksum word and the tag
      StampTag gives; a refused one heads the put list with an empty slot.
      Nothing else changes either way. */
  lemma StampEffect(m: Model, d: Id, flags: ChecksumFlags, tci: UShort)
    requires d in m.descs
    ensures var (r, nbl) := StampPacket(m, d, flags, tci);
      r.get == m.get && r.log == m.log && r.allocations == m.allocations && r.freed == m.freed
      && (forall x :: x in m.descs && x != d ==> x in r.descs && r.descs[x] == m.descs[x])
      && (nbl.Some? ==>
            r.put == m.put && d in r.descs
            && r.descs[d] == m.descs[d].(checksum := ChecksumWord(flags), tag := StampTag(m.descs[d].tag, tci).value))
      && (nbl.None? ==> r.put == [d] + m.put && d in r.descs && r.descs[d].cookie == None)
  {
    var m1 := WithChecksum(m, d, flags);
    if tci != 0 && UnpackTci(tci).vlanId != 0 {
      ReleaseEffect(m1, d, true);
    }
  }

  /** __ReceiverReceivePacket (lines 167-230): acquire a descriptor and stamp
      it. The packet is refused when no descriptor can be had or its tag carries
      a VLAN identifier. */
  function ReceivePacket(m: Model, mdl: MdlRef, offset: ULong, length: ULong, flags: ChecksumFlags,
                         tci: UShort, cookie: Cookie, allocOk: bool): (r: (Model, Option<Id>))
    requires Threaded(m)
    ensures r.1.Some? <==> Acquirable(m, allocOk) && !TagRejected(tci)
    ensures r.1.Some? ==>
      r.1.value == NextDescriptor(m) && r.0.held == m.held + {r.1.value} && r.0.stack == m.stack
      && r.1.value in r.0.descs && r.0.descs[r.1.value].cookie == Some(cookie)
    ensures SameCounters(m, r.0)
  {
    var (m1, nbl) := AllocateNetBufferList(m, mdl, offset, length, cookie, allocOk);
    if nbl.None? then (m1, None)
    else StampPacket(m1, nbl.value, flags, tci)
  }

  /** Receiving keeps the model well formed; NDIS's descriptors are untouched, and
      a refused packet leaves the receive path holding what it held before. */
  lemma ReceiveWellFormed(m: Model, mdl: MdlRef, offset: ULong, length: ULong, flags: ChecksumFlags,
                          tci: UShort, cookie: Cookie, allocOk: bool)
    requires WellFormed(m)
    ensures var (r, nbl) := ReceivePacket(m, mdl, offset, length, flags, tci, cookie, allocOk);
      WellFormed(r) && r.stack == m.stack && (nbl.None? ==> r.held == m.held)
  {
    AllocateWellFormed(m, mdl, offset, length, cookie, allocOk);
    var (m1, nbl) := AllocateNetBufferList(m, mdl, offset, length, cookie, allocOk);
    if nbl.Some? {
      StampWellFormed(m1, nbl.value, flags, tci);
      AddRemove(m.held, nbl.value);
    }
  }

  /** A delivered packet's descriptor carries the supplied cookie, the fragment,
      a checksum word made of exactly the reported flags, and the tag StampTag
      gives: a zero tag leaves whatever 802.1Q info the descriptor had from its
      previous use. */
  lemma ReceiveStamps(m: Model, mdl: MdlRef, offset: ULong, length: ULong, flags: ChecksumFlags,
                      tci: UShort, cookie: Cookie, allocOk: bool)
    requires WellFormed(m)
    ensures var (r, nbl) := ReceivePacket(m, mdl, offset, length, flags, tci, cookie, allocOk);
      nbl.Some? ==>
        var d := nbl.value;
        var prior := if d in m.descs then m.descs[d].tag else NoTag;
        d in r.descs
        && r.descs[d].cookie == Some(cookie)
        && r.descs[d].next == None
        && r.descs[d].buffers == [BoundBuffer(mdl, offset, length)]
        && DecodeChecksum(r.descs[d].checksum) == flags
        && r.descs[d].checksum & !RECEIVE_FLAG_BITS == 0
        && Some(r.descs[d].tag) == StampTag(prior, tci)
  {
    AllocateBinds(m, mdl, offset, length, cookie, allocOk);
    var (m1, nbl) := AllocateNetBufferList(m, mdl, offset, length, cookie, allocOk);
    if nbl.Some? {
      StampEffect(m1, nbl.value, flags, tci);
    }
  }

  /** Acquisition and stamping log one allocation exactly when the backing pool
      was drawn on, and nothing else. */
  lemma ReceiveLog(m: Model, mdl: MdlRef, offset: ULong, length: ULong, flags: ChecksumFlags,
                   tci: UShort, cookie: Cookie, allocOk: bool)
    requires WellFormed(m)
    ensures var (r, nbl) := ReceivePacket(m, mdl, offset, length, flags, tci, cookie, allocOk);
      r.log == m.log + (if m.get == [] && m.put == [] && allocOk then [Allocated(m.allocations)] else [])
  {
    AllocateFromPool(m, mdl, offset, length, cookie, allocOk);
    var (m1, nbl) := AllocateNetBufferList(m, mdl, offset, length, cookie, allocOk);
    if nbl.Some? {
      StampEffect(m1, nbl.value, flags, tci);
    }
  }

  /** A refused packet leaves no trace on the receive path: with no descriptor
      to be had nothing changes, and a descriptor refused for its tag is back at
      the head of the put list with an empty slot. */
  lemma ReceiveRejects(m: Model, mdl: MdlRef, offset: ULong, length: ULong, flags: ChecksumFlags,
                       tci: UShort, cookie: Cookie, allocOk: bool)
    requires Threaded(m)
    ensures var (r, nbl) := ReceivePacket(m, mdl, offset, length, flags, tci, cookie, allocOk);
      (!Acquirable(m, allocOk) ==> r == m)
      && (Acquirable(m, allocOk) && TagRejected(tci) ==>
            r.put != [] && r.put[0] == NextDescriptor(m) && r.descs[r.put[0]].cookie == None)
  {
    var (m1, nbl) := AllocateNetBufferList(m, mdl, offset, length, cookie, allocOk);
    if nbl.Some? {
      StampEffect(m1, nbl.value, flags, tci);
    }
  }

  /** The first part of __ReceiverPushPacket (lines 241-264): count the
      descriptor into NDIS, raise the high-water mark, and indicate it, with
      NDIS_RECEIVE_FLAGS_RESOURCES when InNDIS is now above IN_NDIS_MAX. */
  function Indicate(m: Model, d: Id): (r: Model)
    ensures r == m.(inNdis := r.inNdis, inNdisMax := r.inNdisMax, admissions := r.admissions,
                    held := r.held, stack := r.stack, log := r.log)
    ensures r.inNdis == m.inNdis + 1 && r.inNdisMax == Max(m.inNdisMax, m.inNdis + 1)
    ensures r.admissions == m.admissions + [m.inNdis + 1]
    ensures r.held == m.held - {d} && r.stack == m.stack + {d}
    ensures r.log == m.log + [Indicated(d, ReceiveFlags(true, m.inNdis + 1 > IN_NDIS_MAX))]
  {
    var c := Admit(Counters(m.inNdis, m.inNdisMax));
    m.(inNdis := c.inNdis, inNdisMax := c.inNdisMax, admissions := m.admissions + [c.inNdis],
       held := m.held - {d}, stack := m.stack + {d}, log := m.log + [Indicated(d, ReceiveFlags(true, Forced(c.inNdis)))])
  }

  /** Indicating a held descriptor keeps the invariant: NDIS holds one more
      descriptor, InNDIS counts it, and the mark is still the largest count. */
  lemma IndicateInv(m: Model, d: Id)
    requires Inv(m) && d in m.held
    ensures Inv(Indicate(m, d))
  {
    var r := Indicate(m, d);
    assert r.admissions[..|m.admissions|] == m.admissions;
    assert WellFormed(r);
  }

  /** __ReceiverPushPacket (lines 232-268): indicate the descriptor, and take it
      straight back, freed, when the indication carried
      NDIS_RECEIVE_FLAGS_RESOURCES. */
  function PushPacket(m: Model, d: Id): (r: Model)
    requires Returnable(m, d)
    ensures r.held == m.held - {d}
    ensures r.inNdisMax == Max(m.inNdisMax, m.inNdis + 1) && r.inNdisMax >= m.inNdisMax
    ensures r.admissions == m.admissions + [m.inNdis + 1]
    ensures r.inNdis == (if Forced(m.inNdis + 1) then m.inNdis else m.inNdis + 1)
  {
    var m1 := Indicate(m, d);
    if Forced(m1.inNdis) then ReturnNetBufferList(m1, d, false) else m1
  }

  /** The counters after a push are those of the increment at line 241 followed,
      for a forced push, by the decrement of its immediate return. */
  lemma PushCounters(m: Model, d: Id)
    requires Returnable(m, d)
    ensures var r := PushPacket(m, d);
      Counters(r.inNdis, r.inNdisMax) == Run(Counters(m.inNdis, m.inNdisMax), PushOps(m.inNdis + 1))
  {
    var c := Counters(m.inNdis, m.inNdisMax);
    var ops := PushOps(m.inNdis + 1);
    assert ops[..|ops| - 1][..0] == [];
    if Forced(m.inNdis + 1) {
      assert ops[..|ops| - 1] == [Push];
      assert Run(c, ops) == Retire(Run(c, [Push]));
    }
  }

  /** Pushing keeps the invariant. A normal indication leaves the descriptor with
      NDIS; a forced one takes it back, so NDIS holds what it held before. */
  lemma PushInv(m: Model, d: Id)
    requires Inv(m) && d in m.held
    ensures Returnable(m, d)
    ensures var r := PushPacket(m, d);
      Inv(r)
      && (Forced(m.inNdis + 1) ==> r.stack == m.stack)
      && (!Forced(m.inNdis + 1) ==> r.stack == m.stack + {d})
  {
    IndicateInv(m, d);
    var m1 := Indicate(m, d);
    if Forced(m1.inNdis) {
      ReturnInv(m1, d, false);
      AddRemove(m.stack, d);
    }
  }

  /** What a push does to the pool and the log: a normal indication leaves the
      descriptor with NDIS; a forced one frees it and hands its cookie back to the
      VIF without recycling it. */
  lemma PushEffect(m: Model, d: Id)
    requires Returnable(m, d)
    ensures var r := PushPacket(m, d);
      r.get == m.get && r.put == m.put
      && (Forced(m.inNdis + 1) ==>
            d !in r.descs && r.freed == m.freed + {d}
            && r.log == m.log + [Indicated(d, ReceiveFlags(true, true)), Freed(d), PacketReturned(m.descs[d].cookie.value)])
      && (!Forced(m.inNdis + 1) ==>
            r.descs == m.descs && r.freed == m.freed
            && r.log == m.log + [Indicated(d, ReceiveFlags(true, false))])
  {
    var m1 := Indicate(m, d);
    if Forced(m1.inNdis) {
      ReleaseEffect(m1, d, false);
    }
  }

  /** What a return does: the cookie goes back to the VIF after the release, and
      InNDIS drops by one. */
  lemma ReturnEffect(m: Model, d: Id, cache: bool)
    requires Returnable(m, d)
    ensures var r := ReturnNetBufferList(m, d, cache);
      r.get == m.get && r.allocations == m.allocations
      && (cache ==>
            r.put == [d] + m.put && d in r.descs
            && r.descs[d] == m.descs[d].(cookie := None, next := HeadOf(m.put))
            && r.freed == m.freed && r.log == m.log + [PacketReturned(m.descs[d].cookie.value)])
      && (!cache ==>
            r.put == m.put && d !in r.descs && r.freed == m.freed + {d}
            && r.log == m.log + [Freed(d), PacketReturned(m.descs[d].cookie.value)])
      && (forall x :: x in m.descs && x != d ==> x in r.descs && r.descs[x] == m.descs[x])
  {
    ReleaseEffect(m, d, cache);
  }

  /** ReceiverQueuePacket (lines 377-412): the single entry point from the VIF.
      A packet that cannot be acquired or is refused for its tag has its cookie
      handed straight back; otherwise it is pushed to NDIS. */
  function QueuePacket(m: Model, mdl: MdlRef, offset: ULong, length: ULong, flags: ChecksumFlags,
                       tci: UShort, cookie: Cookie, allocOk: bool): (r: Model)
    requires Threaded(m)
    ensures r.inNdisMax >= m.inNdisMax && |r.admissions| <= |m.admissions| + 1
  {
    var (m1, nbl) := ReceivePacket(m, mdl, offset, length, flags, tci, cookie, allocOk);
    if nbl.Some? then PushPacket(m1, nbl.value)
    else m1.(log := m1.log + [PacketReturned(cookie)])
  }

  /** Every packet the VIF queues leaves the receiver in the invariant and at
      rest: whatever it acquired is indicated or cached again. */
  lemma QueueInv(m: Model, mdl: MdlRef, offset: ULong, length: ULong, flags: ChecksumFlags,
                 tci: UShort, cookie: Cookie, allocOk: bool)
    requires Inv(m) && AtRest(m)
    ensures var r := QueuePacket(m, mdl, offset, length, flags, tci, cookie, allocOk);
      Inv(r) && AtRest(r)
  {
    ReceiveWellFormed(m, mdl, offset, length, flags, tci, cookie, allocOk);
    var (m1, nbl) := ReceivePacket(m, mdl, offset, length, flags, tci, cookie, allocOk);
    if nbl.Some? {
      PushInv(m1, nbl.value);
      RemoveAdded(nbl.value);
    } else {
      BookkeepingOnly(m1, m1.(log := m1.log + [PacketReturned(cookie)]));
    }
  }

  /** The counters after a queued packet: a delivered one records the new count,
      and InNDIS ends one higher unless the indication was forced; a refused one
      changes neither. The mark never drops. */
  lemma QueueCounters(m: Model, mdl: MdlRef, offset: ULong, length: ULong, flags: ChecksumFlags,
                      tci: UShort, cookie: Cookie, allocOk: bool)
    requires Inv(m) && AtRest(m)
    ensures var r := QueuePacket(m, mdl, offset, length, flags, tci, cookie, allocOk);
      var delivered := Acquirable(m, allocOk) && !TagRejected(tci);
      r.admissions == m.admissions + (if delivered then [m.inNdis + 1] else [])
      && r.inNdis == m.inNdis + (if delivered && !Forced(m.inNdis + 1) then 1 else 0)
      && r.inNdisMax >= m.inNdisMax
  {
    if Acquirable(m, allocOk) && !TagRejected(tci) {
      QueueDelivered(m, mdl, offset, length, flags, tci, cookie, allocOk);
    } else {
      QueueRefused(m, mdl, offset, length, flags, tci, cookie, allocOk);
    }
  }

  /** A refused packet: InNDIS, the mark and NDIS's descriptors are untouched,
      the cookie is handed back, and the log shows nothing else but the
      allocation, if the pool was drawn on. */
  lemma QueueRefused(m: Model, mdl: MdlRef, offset: ULong, length: ULong, flags: ChecksumFlags,
                     tci: UShort, cookie: Cookie, allocOk: bool)
    requires Inv(m) && AtRest(m)
    requires !Acquirable(m, allocOk) || TagRejected(tci)
    ensures var r := QueuePacket(m, mdl, offset, length, flags, tci, cookie, allocOk);
      var allocs := if m.get == [] && m.put == [] && allocOk then [Allocated(m.allocations)] else [];
      r.inNdis == m.inNdis && r.inNdisMax == m.inNdisMax && r.stack == m.stack
      && r.admissions == m.admissions
      && r.log == m.log + allocs + [PacketReturned(cookie)]
  {
    ReceiveLog(m, mdl, offset, length, flags, tci, cookie, allocOk);
    ReceiveWellFormed(m, mdl, offset, length, flags, tci, cookie, allocOk);
  }

  /** A delivered packet: the descriptor is indicated, and the mark becomes the
      larger of itself and the new InNDIS. Normally NDIS then holds one more
      descriptor, carrying the cookie; when the indication is forced the
      descriptor is freed and its cookie handed back at once, leaving InNDIS
      where it was. */
  lemma QueueDelivered(m: Model, mdl: MdlRef, offset: ULong, length: ULong, flags: ChecksumFlags,
                       tci: UShort, cookie: Cookie, allocOk: bool)
    requires Inv(m) && AtRest(m)
    requires Acquirable(m, allocOk) && !TagRejected(tci)
    ensures var r := QueuePacket(m, mdl, offset, length, flags, tci, cookie, allocOk);
      var n := m.inNdis + 1;
      var d := NextDescriptor(m);
      var allocs := if m.get == [] && m.put == [] && allocOk then [Allocated(m.allocations)] else [];
      r.inNdisMax == Max(m.inNdisMax, n) && r.admissions == m.admissions + [n]
      && (Forced(n) ==>
            r.inNdis == m.inNdis && r.stack == m.stack && d !in r.descs
            && r.log == m.log + allocs + [Indicated(d, ReceiveFlags(true, true)), Freed(d), PacketReturned(cookie)])
      && (!Forced(n) ==>
            r.inNdis == n && r.stack == m.stack + {d} && d in r.descs && r.descs[d].cookie == Some(cookie)
            && r.log == m.log + allocs + [Indicated(d, ReceiveFlags(true, false))])
  {
    ReceiveLog(m, mdl, offset, length, flags, tci, cookie, allocOk);
    ReceiveWellFormed(m, mdl, offset, length, flags, tci, cookie, allocOk);
    var (m1, nbl) := ReceivePacket(m, mdl, offset, length, flags, tci, cookie, allocOk);
    var d := nbl.value;
    assert QueuePacket(m, mdl, offset, length, flags, tci, cookie, allocOk) == PushPacket(m1, d);
    PushEffect(m1, d);
    PushInv(m1, d);
  }

  /** Clearing the next link of a descriptor NDIS holds (line 369) keeps the model
      well formed. */
  lemma UnlinkWellFormed(m: Model, d: Id)
    requires Inv(m) && d in m.stack
    ensures Inv(m.(descs := m.descs[d := m.descs[d].(next := None)]))
  {
    RelinkInv(m, d, None);
  }

  /** Re-pointing the next link of a descriptor NDIS holds, to anything, keeps the
      model well formed: no list the receiver owns runs through it. */
  lemma RelinkInv(m: Model, d: Id, next: Option<Id>)
    requires Inv(m) && d in m.stack
    ensures Inv(m.(descs := m.descs[d := m.descs[d].(next := next)]))
  {
    var heap := m.descs[d := m.descs[d].(next := next)];
    ChainInHeap(m.descs, HeadOf(m.get), m.get);
    ChainInHeap(m.descs, HeadOf(m.put), m.put);
    ChainFrame(m.descs, heap, HeadOf(m.get), m.get);
    ChainFrame(m.descs, heap, HeadOf(m.put), m.put);
  }

  /** NDIS threading descriptors it holds into a chain to hand back: the next
      link of each element is set to the element after it, and of the last to
      NULL. Only next links change, and only those of the chain. */
  function LinkChain(m: Model, chain: seq<Id>): (r: Model)
    requires forall d :: d in chain ==> d in m.descs
    ensures r == m.(descs := r.descs) && r.descs.Keys == m.descs.Keys
    ensures forall x :: x in m.descs && x !in chain ==> r.descs[x] == m.descs[x]
    ensures forall x :: x in chain ==> r.descs[x] == m.descs[x].(next := r.descs[x].next)
    decreases |chain|
  {
    if chain == [] then m
    else
      assert forall x :: x in chain[1..] ==> x in chain;
      var m1 := LinkChain(m, chain[1..]);
      m1.(descs := m1.descs[chain[0] := m1.descs[chain[0]].(next := HeadOf(chain[1..]))])
  }

  /** Linking descriptors NDIS holds keeps the invariant: no list the receiver
      owns runs through them. */
  lemma {:induction false} LinkInv(m: Model, chain: seq<Id>)
    requires Inv(m) && (forall d :: d in chain ==> d in m.stack)
    ensures forall d :: d in chain ==> d in m.descs
    ensures Inv(LinkChain(m, chain))
    decreases |chain|
  {
    if chain != [] {
      var tail := chain[1..];
      assert forall x :: x in tail ==> x in chain;
      LinkInv(m, tail);
      RelinkInv(LinkChain(m, tail), chain[0], HeadOf(tail));
    }
  }

  /** Linking distinct descriptors leaves a NULL-terminated chain from the first
      through exactly those descriptors, in order. */
  lemma {:induction false} LinkChainOf(m: Model, chain: seq<Id>)
    requires Distinct(chain) && (forall d :: d in chain ==> d in m.descs)
    ensures ChainOf(LinkChain(m, chain).descs, HeadOf(chain), chain)
    decreases |chain|
  {
    if chain != [] {
      var tail := chain[1..];
      DistinctTail(chain);
      assert forall x :: x in tail ==> x in chain;
      LinkChainOf(m, tail);
      var heap := LinkChain(m, tail).descs;
      var d := chain[0];
      ChainPush(heap, HeadOf(tail), tail, d, heap[d].(next := HeadOf(tail)));
      assert [d] + tail == chain;
    }
  }

  /** The events of handing back the cookies of `chain`, in order. */
  function ReturnedCookies(heap: map<Id, Descriptor>, chain: seq<Id>): (evs: seq<Event>)
    requires forall d :: d in chain ==> d in heap && heap[d].cookie.Some?
  {
    if chain == [] then []
    else ReturnedCookies(heap, chain[..|chain| - 1]) + [PacketReturned(heap[chain[|chain| - 1]].cookie.value)]
  }

  function Members(chain: seq<Id>): (r: set<Id>)
  {
    set d | d in chain
  }

  /** The last element of a chain and the members before it make up its members. */
  lemma MembersInit(chain: seq<Id>)
    requires chain != []
    ensures Members(chain) == Members(chain[..|chain| - 1]) + {chain[|chain| - 1]}
  {
    assert chain == chain[..|chain| - 1] + [chain[|chain| - 1]];
  }

  /** One step of ReceiverReturnNetBufferLists: unlink the descriptor, then return
      it with caching. */
  function ReturnOne(m: Model, d: Id): (r: Model)
    requires Returnable(m, d)
    ensures r.stack == m.stack - {d} && r.held == m.held - {d}
    ensures r.inNdis == m.inNdis - 1 && r.inNdisMax == m.inNdisMax
  {
    ReturnNetBufferList(m.(descs := m.descs[d := m.descs[d].(next := None)]), d, true)
  }

  /** One step puts the descriptor at the head of the put list with an empty
      slot and hands its cookie back; no other descriptor changes. */
  lemma ReturnOneEffect(m: Model, d: Id)
    requires Returnable(m, d)
    ensures var r := ReturnOne(m, d);
      r.put == [d] + m.put && r.get == m.get
      && r.stack == m.stack - {d} && r.held == m.held - {d}
      && r.inNdis == m.inNdis - 1 && r.inNdisMax == m.inNdisMax && r.admissions == m.admissions
      && r.log == m.log + [PacketReturned(m.descs[d].cookie.value)]
      && r.freed == m.freed && r.allocations == m.allocations
      && d in r.descs && r.descs[d] == m.descs[d].(cookie := None, next := HeadOf(m.put))
      && (forall x :: x in m.descs && x != d ==> x in r.descs && r.descs[x] == m.descs[x])
  {
    ReturnEffect(m.(descs := m.descs[d := m.descs[d].(next := None)]), d, true);
  }

  /** One step keeps the invariant. */
  lemma ReturnOneInv(m: Model, d: Id)
    requires Inv(m) && d in m.stack
    ensures Returnable(m, d) && Inv(ReturnOne(m, d)) && ReturnOne(m, d).held == m.held
  {
    UnlinkWellFormed(m, d);
    ReturnInv(m.(descs := m.descs[d := m.descs[d].(next := None)]), d, true);
  }

  /** Every descriptor of the chain is live with a cookie in its slot. */
  ghost predicate ChainReturnable(m: Model, chain: seq<Id>)
  {
    forall d :: d in chain ==> Returnable(m, d)
  }

  /** ReceiverReturnNetBufferLists (lines 356-375): each descriptor of a chain NDIS
      hands back is unlinked and returned with caching. No descriptor outside
      the chain changes. */
  function ReturnNetBufferLists(m: Model, chain: seq<Id>): (r: Model)
    requires Distinct(chain) && ChainReturnable(m, chain)
    ensures forall x :: x in m.descs && x !in chain ==> x in r.descs && r.descs[x] == m.descs[x]
    ensures r.stack == m.stack - Members(chain)
    decreases |chain|
  {
    if chain == [] then m
    else
      var init := chain[..|chain| - 1];
      var d := chain[|chain| - 1];
      DistinctInit(chain);
      MembersInit(chain);
      var m1 := ReturnNetBufferLists(m, init);
      ReturnOneEffect(m1, d);
      ReturnOne(m1, d)
  }

  /** The chain without its last descriptor can be returned first, and leaves
      that descriptor as it was. */
  lemma ReturnInit(m: Model, chain: seq<Id>)
    requires chain != [] && Distinct(chain) && ChainReturnable(m, chain)
    ensures var init := chain[..|chain| - 1];
      var d := chain[|chain| - 1];
      Distinct(init) && d !in init && ChainReturnable(m, init) && Returnable(m, d)
      && var m1 := ReturnNetBufferLists(m, init);
         Returnable(m1, d) && m1.descs[d] == m.descs[d]
  {
    DistinctInit(chain);
    assert chain[|chain| - 1] in chain;
    assert forall x :: x in chain[..|chain| - 1] ==> x in chain;
  }

  /** Returning a chain of descriptors NDIS holds keeps the invariant, with NDIS
      now holding none of them. */
  lemma {:induction false} ReturnListsInv(m: Model, chain: seq<Id>)
    requires Inv(m) && Distinct(chain) && (forall d :: d in chain ==> d in m.stack)
    ensures ChainReturnable(m, chain)
    ensures Inv(ReturnNetBufferLists(m, chain)) && ReturnNetBufferLists(m, chain).held == m.held
    decreases |chain|
  {
    if chain != [] {
      var init := chain[..|chain| - 1];
      var d := chain[|chain| - 1];
      DistinctInit(chain);
      MembersInit(chain);
      ReturnListsInv(m, init);
      var m1 := ReturnNetBufferLists(m, init);
      ReturnOneInv(m1, d);
      assert ReturnNetBufferLists(m, chain) == ReturnOne(m1, d);
    }
  }

  /** Returning a chain pushes its descriptors onto the put list (the last
      returned on top), lowers InNDIS by the chain's length and leaves the mark. */
  lemma {:induction false} ReturnChainLists(m: Model, chain: seq<Id>)
    requires Distinct(chain) && ChainReturnable(m, chain)
    ensures var r := ReturnNetBufferLists(m, chain);
      r.put == Reversed(chain) + m.put && r.get == m.get
      && r.inNdis == m.inNdis - |chain| && r.inNdisMax == m.inNdisMax
      && r.freed == m.freed && r.allocations == m.allocations
    decreases |chain|
  {
    if chain != [] {
      var init := chain[..|chain| - 1];
      var d := chain[|chain| - 1];
      ReturnInit(m, chain);
      ReturnChainLists(m, init);
      var m1 := ReturnNetBufferLists(m, init);
      var r := ReturnNetBufferLists(m, chain);
      assert r == ReturnOne(m1, d);
      ReturnOneEffect(m1, d);
      ReversedOnto(chain, m.put);
    }
  }

  /** Returning a chain puts exactly the chain's descriptors in front of the put
      list. */
  lemma ReturnChainMembers(m: Model, chain: seq<Id>)
    requires Distinct(chain) && ChainReturnable(m, chain)
    ensures var r := ReturnNetBufferLists(m, chain);
      |r.put| == |chain| + |m.put| && forall x :: x in r.put <==> x in chain || x in m.put
  {
    ReturnChainLists(m, chain);
    ReversedElements(chain);
  }

  /** Returning a chain hands the chain's cookies back to the VIF in chain order. */
  lemma {:induction false} ReturnChainLog(m: Model, chain: seq<Id>)
    requires Distinct(chain) && ChainReturnable(m, chain)
    ensures ReturnNetBufferLists(m, chain).log == m.log + ReturnedCookies(m.descs, chain)
    decreases |chain|
  {
    if chain != [] {
      var init := chain[..|chain| - 1];
      var d := chain[|chain| - 1];
      ReturnInit(m, chain);
      ReturnChainLog(m, init);
      var m1 := ReturnNetBufferLists(m, init);
      ReturnOneEffect(m1, d);
      var r := ReturnNetBufferLists(m, chain);
      assert r == ReturnOne(m1, d);
      assert m1.descs[d] == m.descs[d];
      var e := PacketReturned(m.descs[d].cookie.value);
      assert ReturnedCookies(m.descs, chain) == ReturnedCookies(m.descs, init) + [e];
      assert r.log == (m.log + ReturnedCookies(m.descs, init)) + [e];
      AppendAssoc(m.log, ReturnedCookies(m.descs, init), [e]);
    }
  }

  /** A descriptor back on the put list: its slot is empty, and its buffer
      binding and packet info are those it was indicated with. */
  ghost predicate SlotEmptied(before: Descriptor, after: Descriptor)
  {
    after.cookie == None && after.buffers == before.buffers
    && after.checksum == before.checksum && after.tag == before.tag
  }

  /** Returning a chain empties its descriptors' slots and keeps their buffers,
      checksum words and tags. */
  lemma {:induction false} ReturnChainSlots(m: Model, chain: seq<Id>)
    requires Distinct(chain) && ChainReturnable(m, chain)
    ensures var r := ReturnNetBufferLists(m, chain);
      forall x :: x in chain ==> x in r.descs && SlotEmptied(m.descs[x], r.descs[x])
    decreases |chain|
  {
    if chain != [] {
      var init := chain[..|chain| - 1];
      var d := chain[|chain| - 1];
      ReturnInit(m, chain);
      ReturnChainSlots(m, init);
      var m1 := ReturnNetBufferLists(m, init);
      ReturnOneEffect(m1, d);
      assert ReturnNetBufferLists(m, chain) == ReturnOne(m1, d);
      InitLast(chain);
      SlotsStep(m.descs, m1.descs, ReturnOne(m1, d).descs, init, d);
    }
  }

  /** Emptying one more slot, leaving every other descriptor alone, extends the
      set of emptied slots by that descriptor. */
  lemma SlotsStep(before: map<Id, Descriptor>, mid: map<Id, Descriptor>, after: map<Id, Descriptor>, init: seq<Id>, d: Id)
    requires forall x :: x in init ==> x in before && x in mid && SlotEmptied(before[x], mid[x])
    requires d !in init && d in before && d in mid && mid[d] == before[d]
    requires d in after && after[d].cookie == None && after[d].buffers == mid[d].buffers
    requires after[d].checksum == mid[d].checksum && after[d].tag == mid[d].tag
    requires forall x :: x in mid && x != d ==> x in after && after[x] == mid[x]
    ensures forall x :: x in init + [d] ==> x in after && SlotEmptied(before[x], after[x])
  {
  }

  lemma AddRemove(s: set<Id>, d: Id)
    requires d !in s
    ensures (s + {d}) - {d} == s
  {
  }

  lemma RemoveAdd(s: set<Id>, d: Id)
    requires d in s
    ensures (s - {d}) + {d} == s
  {
  }

  lemma RemoveAbsent(s: set<Id>, d: Id)
    requires d !in s
    ensures s - {d} == s
  {
  }

  lemma RemoveAdded(d: Id)
    ensures ({} + {d}) - {d} == {}
  {
  }

  lemma AppendAssoc(a: seq<Event>, b: seq<Event>, c: seq<Event>)
    ensures (a + b) + c == a + (b + c)
  {
  }

  /** The events of freeing `xs`, in order. */
  function FreedEvents(xs: seq<Id>): (evs: seq<Event>)
  {
    if xs == [] then [] else FreedEvents(xs[..|xs| - 1]) + [Freed(xs[|xs| - 1])]
  }

  /** One of the loops of ReceiverTeardown (lines 323-345): each descriptor of a
      list is freed, in list order. */
  function FreeChain(m: Model, xs: seq<Id>): (r: Model)
    requires Distinct(xs) && (forall x :: x in xs ==> x in m.descs)
    ensures forall x :: x in r.descs <==> x in m.descs && x !in xs
    ensures forall x :: x in r.descs ==> r.descs[x] == m.descs[x]
    ensures r.freed == m.freed + Members(xs)
    ensures r.get == m.get && r.put == m.put && r.held == m.held && r.stack == m.stack
    ensures r.allocations == m.allocations && r.inNdis == m.inNdis && r.inNdisMax == m.inNdisMax
    ensures r.admissions == m.admissions
    decreases |xs|
  {
    if xs == [] then m
    else
      DistinctInit(xs);
      MembersInit(xs);
      Free(FreeChain(m, xs[..|xs| - 1]), xs[|xs| - 1])
  }

  /** Freeing a list frees its descriptors in list order. */
  lemma {:induction false} FreeChainLog(m: Model, xs: seq<Id>)
    requires Distinct(xs) && (forall x :: x in xs ==> x in m.descs)
    ensures FreeChain(m, xs).log == m.log + FreedEvents(xs)
    decreases |xs|
  {
    if xs != [] {
      var init := xs[..|xs| - 1];
      DistinctInit(xs);
      FreeChainLog(m, init);
      AppendAssoc(m.log, FreedEvents(init), [Freed(xs[|xs| - 1])]);
    }
  }

  /** ReceiverTeardown (lines 315-354): free every descriptor cached on the get
      list, then every one on the put list. The receiver record is freed with
      them, so the model leaves both lists empty. */
  function Teardown(m: Model): (r: Model)
    requires WellFormed(m)
    ensures WellFormed(r) && r.get == [] && r.put == []
    ensures forall x :: x in r.descs <==> x in m.held || x in m.stack
    ensures forall x :: x in r.descs ==> r.descs[x] == m.descs[x]
    ensures r.freed == m.freed + Members(m.get) + Members(m.put)
    ensures r.held == m.held && r.stack == m.stack && SameCounters(m, r) && r.allocations == m.allocations
  {
    ChainInHeap(m.descs, HeadOf(m.get), m.get);
    ChainInHeap(m.descs, HeadOf(m.put), m.put);
    ChainDistinct(m.descs, HeadOf(m.get), m.get);
    ChainDistinct(m.descs, HeadOf(m.put), m.put);
    var m1 := FreeChain(m, m.get);
    var m2 := FreeChain(m1, m.put);
    var r := m2.(get := [], put := []);
    EmptiedWellFormed(m, r);
    r
  }

  /** Dropping both lists' descriptors into the pool, and nothing else, keeps the
      model well formed. */
  lemma EmptiedWellFormed(m: Model, r: Model)
    requires WellFormed(m)
    requires r.get == [] && r.put == [] && r.held == m.held && r.stack == m.stack
    requires forall x :: x in r.descs <==> x in m.held || x in m.stack
    requires forall x :: x in r.descs ==> r.descs[x] == m.descs[x]
    requires r.freed == m.freed + Members(m.get) + Members(m.put) && r.allocations == m.allocations
    ensures WellFormed(r)
  {
    ChainInHeap(m.descs, HeadOf(m.get), m.get);
    ChainInHeap(m.descs, HeadOf(m.put), m.put);
    assert Lists(r);
    assert OnePlace(r);
  }

  /** Teardown frees the get list's descriptors and then the put list's, in list
      order, and makes no other call. */
  lemma TeardownLog(m: Model)
    requires WellFormed(m)
    ensures Teardown(m).log == m.log + FreedEvents(m.get) + FreedEvents(m.put)
  {
    ChainInHeap(m.descs, HeadOf(m.get), m.get);
    ChainInHeap(m.descs, HeadOf(m.put), m.put);
    ChainDistinct(m.descs, HeadOf(m.get), m.get);
    ChainDistinct(m.descs, HeadOf(m.put), m.put);
    FreeChainLog(m, m.get);
    FreeChainLog(FreeChain(m, m.get), m.put);
  }

  /** The addresses the pool has handed out: 0 up to n. */
  function Range(n: nat): (s: set<nat>)
    ensures forall d: int :: d in s <==> 0 <= d < n
  {
    if n == 0 then {} else Range(n - 1) + {n - 1}
  }

  lemma {:induction false} RangeSize(n: nat)
    ensures |Range(n)| == n
  {
    if n > 0 {
      RangeSize(n - 1);
      assert Range(n) == Range(n - 1) + {n - 1};
    }
  }

  /** Every descriptor the pool has handed out is either live or freed, never
      both: the live ones and the freed ones add up to the allocations. */
  lemma LiveCount(m: Model)
    requires WellFormed(m)
    ensures |m.descs.Keys| + |m.freed| == m.allocations
  {
    RangeSize(m.allocations);
    assert m.descs.Keys + m.freed == Range(m.allocations);
    assert m.descs.Keys * m.freed == {};
  }
}
