/** The receiver object of receiver.c (struct _XENNET_RECEIVER, lines 40-49)
    and the descriptors it works on, updated in place as the driver does. Each
    method is proved to take the receiver from a state `s` to the state the
    matching function of ReceiverModel gives for `s`. */
module Receiver {
  import opened Types
  import opened Chains
  import opened Metadata
  import opened Admission
  import opened ReceiverModel

  class Receiver {
    /** The memory of every live NET_BUFFER_LIST, by address. */
    var descs: map<Id, Descriptor>
    var getHead: Option<Id>        // GetList
    var putHead: Option<Id>        // PutList
    var inNdis: int                // InNDIS
    var inNdisMax: int             // InNDISMax
    /** The backing pool (NetBufferListPool): it hands out addresses 0, 1, 2, …
        in turn, so its state is the number it has handed out. */
    var allocations: nat

    ghost var getList: seq<Id>
    ghost var putList: seq<Id>
    ghost var held: set<Id>
    ghost var stack: set<Id>
    ghost var freed: set<Id>
    ghost var admissions: seq<int>
    ghost var log: seq<Event>

    /** The receiver and its descriptors as one value. */
    ghost function Abstract(): Model
      reads this
    {
      Model(descs, getList, putList, held, stack, freed, allocations, inNdis, inNdisMax, admissions, log)
    }

    /** The two list heads are the heads of the ghost lists. */
    ghost predicate Heads()
      reads this
    {
      getHead == HeadOf(getList) && putHead == HeadOf(putList)
    }

    /** The receiver between calls: heads, invariant, nothing half received. */
    ghost predicate Valid()
      reads this
    {
      Heads() && Inv(Abstract()) && AtRest(Abstract())
    }

    /** ReceiverInitialize (lines 270-313): the record is zeroed. */
    constructor ()
      ensures Valid() && Abstract() == Initial()
    {
      descs := map[];
      getHead, putHead := None, None;
      inNdis, inNdisMax := 0, 0;
      allocations := 0;
      getList, putList := [], [];
      held, stack, freed := {}, {}, {};
      admissions, log := [], [];
    }

    /** __ReceiverAllocateNetBufferList (lines 61-111). `allocOk` is whether
        NdisAllocateNetBufferAndNetBufferList succeeds; when it fails the NULL
        result is returned before the cookie slot is touched. */
    method AllocateNetBufferList(mdl: MdlRef, offset: ULong, length: ULong, cookie: Cookie, allocOk: bool)
      returns (nbl: Option<Id>)
      requires Heads() && Threaded(Abstract())
      modifies this
      ensures Heads()
      ensures (Abstract(), nbl) == ReceiverModel.AllocateNetBufferList(old(Abstract()), mdl, offset, length, cookie, allocOk)
    {
      if getHead == None {
        // InterlockedExchangePointer: the get list takes over the whole put list
        getHead, putHead, getList, putList := putHead, None, putList, [];
      }
      assert Abstract() == Refill(old(Abstract()));
      if getHead.Some? {
        var d := PopGetList(mdl, offset, length);
        FillSlot(d, cookie);
        nbl := Some(d);
      } else if allocOk {
        var d := allocations;
        descs, log := descs[d := FreshDescriptor(mdl, offset, length)], log + [Allocated(d)];
        allocations := d + 1;
        FillSlot(d, cookie);
        nbl := Some(d);
      } else {
        nbl := None;
      }
    }

    /** Lines 83-93: unlink the get list's head and bind its NET_BUFFER to the
        fragment. */
    method PopGetList(mdl: MdlRef, offset: ULong, length: ULong) returns (d: Id)
      requires Heads() && Threaded(Abstract()) && getHead.Some?
      modifies this
      ensures Heads() && old(getList) != [] && d == old(getList)[0]
      ensures Abstract() == ReceiverModel.PopGetList(old(Abstract()), mdl, offset, length)
    {
      d := getHead.value;
      var desc := descs[d];
      ChainInHeap(descs, getHead, getList);
      ChainInHeap(descs, desc.next, getList[1..]);
      getHead, getList := desc.next, getList[1..];
      descs := descs[d := desc.(next := None, buffers := desc.buffers[0 := BoundBuffer(mdl, offset, length)])];
    }

    /** Lines 106-108: the cookie goes into the descriptor's reserved slot, and
        the receive path now holds the descriptor. */
    method FillSlot(d: Id, cookie: Cookie)
      requires d in descs
      modifies this
      ensures Abstract() == ReceiverModel.FillSlot(old(Abstract()), d, cookie)
      ensures Heads() == old(Heads())
    {
      descs, held := descs[d := descs[d].(cookie := Some(cookie))], held + {d};
    }

    /** __ReceiverReleaseNetBufferList (lines 113-144). The compare-and-swap loop
        that pushes onto the put list is one step; a descriptor that is freed
        is dropped with its slot. */
    method ReleaseNetBufferList(d: Id, cache: bool) returns (cookie: Option<Cookie>)
      requires Heads() && d in descs
      modifies this
      ensures Heads()
      ensures (Abstract(), cookie) == ReceiverModel.ReleaseNetBufferList(old(Abstract()), d, cache)
    {
      cookie := descs[d].cookie;
      if cache {
        descs := descs[d := descs[d].(cookie := None, next := putHead)];
        putHead, putList := Some(d), [d] + putList;
      } else {
        // NdisFreeNetBufferList
        descs, freed, log := descs - {d}, freed + {d}, log + [Freed(d)];
      }
      held, stack := held - {d}, stack - {d};
    }

    /** __ReceiverReturnNetBufferList (lines 146-165). */
    method ReturnNetBufferList(d: Id, cache: bool)
      requires Heads() && d in descs && descs[d].cookie.Some?
      modifies this
      ensures Heads()
      ensures Abstract() == ReceiverModel.ReturnNetBufferList(old(Abstract()), d, cache)
    {
      var cookie := ReleaseNetBufferList(d, cache);
      log := log + [PacketReturned(cookie.value)];   // the VIF's ReceiverReturnPacket
      inNdis := inNdis - 1;                          // InterlockedDecrement
    }

    /** __ReceiverReceivePacket (lines 167-230). */
    method ReceivePacket(mdl: MdlRef, offset: ULong, length: ULong, flags: ChecksumFlags,
                         tci: UShort, cookie: Cookie, allocOk: bool) returns (nbl: Option<Id>)
      requires Heads() && Threaded(Abstract())
      modifies this
      ensures Heads()
      ensures (Abstract(), nbl) == ReceiverModel.ReceivePacket(old(Abstract()), mdl, offset, length, flags, tci, cookie, allocOk)
    {
      nbl := AllocateNetBufferList(mdl, offset, length, cookie, allocOk);
      if nbl.None? {
        return;
      }
      nbl := StampPacket(nbl.value, flags, tci);
    }

    /** Lines 185-229, after a descriptor has been acquired. */
    method StampPacket(d: Id, flags: ChecksumFlags, tci: UShort) returns (nbl: Option<Id>)
      requires Heads() && d in descs
      modifies this
      ensures Heads()
      ensures (Abstract(), nbl) == ReceiverModel.StampPacket(old(Abstract()), d, flags, tci)
    {
      descs := descs[d := descs[d].(checksum := ChecksumWord(flags))];
      assert Abstract() == WithChecksum(old(Abstract()), d, flags);
      nbl := Some(d);
      if tci != 0 {
        var tag := UnpackTci(tci);
        if tag.vlanId != 0 {
          var _ := ReleaseNetBufferList(d, true);
          nbl := None;
        } else {
          descs := descs[d := descs[d].(tag := tag)];
        }
      }
    }

    /** __ReceiverPushPacket (lines 232-268). The compare-and-swap retry loop on
        InNDISMax is one step: with no other writer it exits on its first pass. */
    method PushPacket(d: Id)
      requires Heads() && d in descs && descs[d].cookie.Some?
      modifies this
      ensures Heads()
      ensures Abstract() == ReceiverModel.PushPacket(old(Abstract()), d)
    {
      var resources := Indicate(d);
      if resources {
        ReturnNetBufferList(d, false);
      }
    }

    /** Lines 241-264: count the descriptor into NDIS, raise the mark, and
        indicate it; `resources` is whether NDIS_RECEIVE_FLAGS_RESOURCES was set. */
    method Indicate(d: Id) returns (resources: bool)
      modifies this
      ensures Heads() == old(Heads()) && descs == old(descs)
      ensures resources == Forced(inNdis)
      ensures Abstract() == ReceiverModel.Indicate(old(Abstract()), d)
    {
      var n := inNdis + 1;                                 // InterlockedIncrement
      inNdis := n;
      resources := n > IN_NDIS_MAX;
      if n > inNdisMax {
        inNdisMax := n;
      }
      admissions := admissions + [n];
      // NdisMIndicateReceiveNetBufferLists: NDIS now holds the descriptor
      held, stack, log := held - {d}, stack + {d}, log + [Indicated(d, ReceiveFlags(true, resources))];
    }

    /** ReceiverQueuePacket (lines 377-412). */
    method QueuePacket(mdl: MdlRef, offset: ULong, length: ULong, flags: ChecksumFlags,
                       tci: UShort, cookie: Cookie, allocOk: bool)
      requires Valid()
      modifies this
      ensures Valid()
      ensures Abstract() == ReceiverModel.QueuePacket(old(Abstract()), mdl, offset, length, flags, tci, cookie, allocOk)
    {
      QueueInv(Abstract(), mdl, offset, length, flags, tci, cookie, allocOk);
      Deliver(mdl, offset, length, flags, tci, cookie, allocOk);
    }

    /** The body of ReceiverQueuePacket (lines 399-411): receive, then push the
        descriptor or hand the cookie back. */
    method Deliver(mdl: MdlRef, offset: ULong, length: ULong, flags: ChecksumFlags,
                   tci: UShort, cookie: Cookie, allocOk: bool)
      requires Heads() && Threaded(Abstract())
      modifies this
      ensures Heads()
      ensures Abstract() == ReceiverModel.QueuePacket(old(Abstract()), mdl, offset, length, flags, tci, cookie, allocOk)
    {
      var nbl := ReceivePacket(mdl, offset, length, flags, tci, cookie, allocOk);
      if nbl.Some? {
        PushPacket(nbl.value);
      } else {
        log := log + [PacketReturned(cookie)];             // the VIF's ReceiverReturnPacket
      }
    }

    /** NDIS threading descriptors it holds into the chain it later hands back to
        ReceiverReturnNetBufferLists: each next link is set to the following
        element, the last one's to NULL. */
    method NdisLink(chain: seq<Id>)
      requires Valid() && Distinct(chain) && (forall d :: d in chain ==> d in stack)
      modifies this
      ensures Valid() && ChainOf(descs, HeadOf(chain), chain)
      ensures Abstract() == LinkChain(old(Abstract()), chain)
    {
      ghost var m0 := Abstract();
      LinkInv(m0, chain);
      LinkChainOf(m0, chain);
      LinkEach(chain);
    }

    /** The linking loop of NdisLink, from the last element back to the first. */
    method LinkEach(chain: seq<Id>)
      requires Heads() && (forall d :: d in chain ==> d in descs)
      modifies this
      ensures Heads() && Abstract() == LinkChain(old(Abstract()), chain)
    {
      ghost var m0 := Abstract();
      var i := |chain|;
      assert chain[i..] == [];
      while i > 0
        invariant 0 <= i <= |chain| && Heads()
        invariant Abstract() == LinkChain(m0, chain[i..])
      {
        i := i - 1;
        assert chain[i] in chain;
        descs := descs[chain[i] := descs[chain[i]].(next := HeadOf(chain[i + 1..]))];
        assert chain[i..][1..] == chain[i + 1..];
      }
      assert chain[i..] == chain;
    }

    /** ReceiverReturnNetBufferLists (lines 356-375): NDIS hands back a chain of
        descriptors it holds; each is unlinked and returned with caching. `chain`
        is the sequence the next links visit from `head`. */
    method ReturnNetBufferLists(head: Option<Id>, ghost chain: seq<Id>)
      requires Valid() && ChainOf(descs, head, chain) && (forall d :: d in chain ==> d in stack)
      modifies this
      ensures Valid() && Distinct(chain) && ChainReturnable(old(Abstract()), chain)
      ensures Abstract() == ReceiverModel.ReturnNetBufferLists(old(Abstract()), chain)
    {
      ghost var m0 := Abstract();
      ChainDistinct(descs, head, chain);
      ReturnListsInv(m0, chain);
      ReturnChain(head, chain);
    }

    /** The loop of ReceiverReturnNetBufferLists (lines 362-374), over any chain of
        returnable descriptors. */
    method ReturnChain(head: Option<Id>, ghost chain: seq<Id>)
      requires Heads() && ChainOf(descs, head, chain) && Distinct(chain) && ChainReturnable(Abstract(), chain)
      modifies this
      ensures Heads()
      ensures Abstract() == ReceiverModel.ReturnNetBufferLists(old(Abstract()), chain)
    {
      ghost var m0 := Abstract();
      var nbl := head;
      ghost var i := 0;
      while nbl.Some?
        invariant 0 <= i <= |chain| && Heads()
        invariant ChainOf(m0.descs, nbl, chain[i..])
        invariant Distinct(chain[..i]) && ChainReturnable(m0, chain[..i])
        invariant Abstract() == ReceiverModel.ReturnNetBufferLists(m0, chain[..i])
        decreases |chain| - i
      {
        var d := nbl.value;
        ReturnPrefix(m0, chain, i);
        var next := descs[d].next;
        descs := descs[d := descs[d].(next := None)];   // NET_BUFFER_LIST_NEXT_NBL(NetBufferList) = NULL
        ReturnNetBufferList(d, true);
        assert chain[i..][1..] == chain[i + 1..];
        nbl, i := next, i + 1;
      }
      assert chain[..i] == chain;
    }

    /** One of the loops of ReceiverTeardown (lines 323-345): every descriptor of
        the list from `head` is unlinked and freed. */
    method FreeList(head: Option<Id>, ghost xs: seq<Id>)
      requires ChainOf(descs, head, xs) && Distinct(xs) && (forall x :: x in xs ==> x in descs)
      modifies this
      ensures getHead == old(getHead) && putHead == old(putHead)
      ensures Abstract() == FreeChain(old(Abstract()), xs)
    {
      ghost var m0 := Abstract();
      var nbl := head;
      ghost var i := 0;
      while nbl.Some?
        invariant 0 <= i <= |xs| && getHead == old(getHead) && putHead == old(putHead)
        invariant ChainOf(m0.descs, nbl, xs[i..])
        invariant Abstract() == FreeChain(m0, xs[..i])
        decreases |xs| - i
      {
        var d := nbl.value;
        FreePrefix(m0, xs, i);
        var next := descs[d].next;
        UnlinkAndFree(d);
        assert xs[i..][1..] == xs[i + 1..];
        nbl, i := next, i + 1;
      }
      assert xs[..i] == xs;
    }

    /** Lines 328-331 (and 339-342): clear the descriptor's link, then
        NdisFreeNetBufferList. */
    method UnlinkAndFree(d: Id)
      requires d in descs
      modifies this
      ensures getHead == old(getHead) && putHead == old(putHead)
      ensures Abstract() == Free(old(Abstract()), d)
    {
      ghost var before := descs;
      descs := descs[d := descs[d].(next := None)];
      descs, freed, log := descs - {d}, freed + {d}, log + [Freed(d)];
      UnlinkThenFree(before, d);
    }

    /** ReceiverTeardown (lines 315-354): every cached descriptor is freed, the
        get list's first. The record itself is then freed; here its list heads
        are left empty instead. */
    method Teardown()
      requires Heads() && WellFormed(Abstract())
      modifies this
      ensures Heads()
      ensures Abstract() == ReceiverModel.Teardown(old(Abstract()))
    {
      ChainInHeap(descs, getHead, getList);
      ChainInHeap(descs, putHead, putList);
      ChainDistinct(descs, getHead, getList);
      ChainDistinct(descs, putHead, putList);
      ghost var m0 := Abstract();
      FreeList(getHead, getList);
      assert forall x :: x in putList ==> x in m0.descs && x !in m0.get;
      ChainFrame(m0.descs, descs, putHead, putList);
      FreeList(putHead, putList);
      getHead, putHead, getList, putList := None, None, [], [];
    }
  }

  /** The first i descriptors of a chain, once returned, leave the i-th one as it
      was and ready to be returned. */
  lemma ReturnPrefix(m: Model, chain: seq<Id>, i: nat)
    requires i < |chain| && Distinct(chain) && ChainReturnable(m, chain)
    ensures Distinct(chain[..i]) && ChainReturnable(m, chain[..i])
    ensures Distinct(chain[..i + 1]) && ChainReturnable(m, chain[..i + 1])
    ensures chain[..i + 1][..i] == chain[..i] && chain[..i + 1][i] == chain[i]
    ensures var m1 := ReturnNetBufferLists(m, chain[..i]);
      chain[i] in m.descs && Returnable(m1, chain[i]) && m1.descs[chain[i]] == m.descs[chain[i]]
  {
    assert chain[i] in chain;
    assert forall x :: x in chain[..i + 1] ==> x in chain;
    ReturnInit(m, chain[..i + 1]);
  }

  /** Likewise for freeing the first i descriptors of a list. */
  lemma FreePrefix(m: Model, xs: seq<Id>, i: nat)
    requires i < |xs| && Distinct(xs) && (forall x :: x in xs ==> x in m.descs)
    ensures Distinct(xs[..i]) && (forall x :: x in xs[..i] ==> x in m.descs)
    ensures Distinct(xs[..i + 1]) && (forall x :: x in xs[..i + 1] ==> x in m.descs)
    ensures xs[..i + 1][..i] == xs[..i] && xs[..i + 1][i] == xs[i]
    ensures var m1 := FreeChain(m, xs[..i]);
      xs[i] in m1.descs && m1.descs[xs[i]] == m.descs[xs[i]]
      && FreeChain(m, xs[..i + 1]) == Free(m1, xs[i])
  {
    assert xs[i] in xs;
    assert forall x :: x in xs[..i + 1] ==> x in xs;
    DistinctInit(xs[..i + 1]);
  }

  /** Clearing the link of a descriptor that is then freed leaves no trace. */
  lemma UnlinkThenFree(heap: map<Id, Descriptor>, d: Id)
    requires d in heap
    ensures heap[d := heap[d].(next := None)] - {d} == heap - {d}
  {
  }
}
