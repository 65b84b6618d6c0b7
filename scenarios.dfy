/** A run of the receiver that shows a recycled descriptor keeping the 802.1Q
    info of its previous packet: a zero Tag Control Information value writes
    nothing (receiver.c lines 209-221). */
module Scenarios {
  import opened Types
  import opened Chains
  import opened Metadata
  import opened Admission
  import opened ReceiverModel

  /** A receiver with nothing cached and nothing in NDIS, such as the one
      ReceiverInitialize leaves. */
  ghost predicate Idle(m: Model)
  {
    Inv(m) && AtRest(m) && m.get == [] && m.put == [] && m.stack == {}
  }

  /** From an idle receiver: a packet tagged with priority 1 and no VLAN (TCI
      0x2000) is received and indicated; NDIS returns it; a second packet
      without a tag (TCI 0) is received. The second packet reuses the first
      one's descriptor from the put list and, since a zero TCI writes no 802.1Q
      info, is indicated still carrying the first packet's priority. */
  function StaleTagRun(m0: Model, mdl1: MdlRef, offset1: ULong, length1: ULong, flags1: ChecksumFlags, cookie1: Cookie,
                       mdl2: MdlRef, offset2: ULong, length2: ULong, flags2: ChecksumFlags, cookie2: Cookie): (r: Model)
    requires Idle(m0)
    ensures Inv(r) && AtRest(r)
    ensures r.stack == {m0.allocations} && r.allocations == m0.allocations + 1
    ensures m0.allocations in r.descs && r.descs[m0.allocations].cookie == Some(cookie2)
    ensures r.descs[m0.allocations].buffers == [BoundBuffer(mdl2, offset2, length2)]
    ensures r.descs[m0.allocations].tag == TagHeader(1, 0, 0)
  {
    var d := m0.allocations;
    FirstPacket(m0, mdl1, offset1, length1, flags1, cookie1);
    FirstPacketTag(m0, mdl1, offset1, length1, flags1, cookie1);
    var m1 := QueuePacket(m0, mdl1, offset1, length1, flags1, 0x2000, cookie1, true);
    ReturnFirst(m1, d);
    var m2 := ReturnNetBufferLists(m1, [d]);
    SecondPacket(m2, d, mdl2, offset2, length2, flags2, cookie2);
    SecondPacketSlot(m2, d, mdl2, offset2, length2, flags2, cookie2);
    QueuePacket(m2, mdl2, offset2, length2, flags2, 0, cookie2, true)
  }

  /** The first packet gets a new descriptor, which NDIS then holds; both lists
      stay empty. */
  lemma FirstPacket(m0: Model, mdl: MdlRef, offset: ULong, length: ULong, flags: ChecksumFlags, cookie: Cookie)
    requires Idle(m0)
    ensures var m1 := QueuePacket(m0, mdl, offset, length, flags, 0x2000, cookie, true);
      var d := m0.allocations;
      Inv(m1) && AtRest(m1) && m1.stack == {d} && m1.get == [] && m1.put == [] && m1.allocations == d + 1
  {
    assert !TagRejected(0x2000) && !Forced(m0.inNdis + 1);
    QueueInv(m0, mdl, offset, length, flags, 0x2000, cookie, true);
    QueueDelivered(m0, mdl, offset, length, flags, 0x2000, cookie, true);
    DeliveredPacket(m0, mdl, offset, length, flags, 0x2000, cookie, true);
  }

  /** The first packet's descriptor is tagged with priority 1. */
  lemma FirstPacketTag(m0: Model, mdl: MdlRef, offset: ULong, length: ULong, flags: ChecksumFlags, cookie: Cookie)
    requires Idle(m0)
    ensures var m1 := QueuePacket(m0, mdl, offset, length, flags, 0x2000, cookie, true);
      m0.allocations in m1.descs && m1.descs[m0.allocations].tag == TagHeader(1, 0, 0)
  {
    DeliveredPacket(m0, mdl, offset, length, flags, 0x2000, cookie, true);
    assert UnpackTci(0x2000) == TagHeader(1, 0, 0);
  }

  /** NDIS returns the descriptor, which goes onto the put list with its tag. */
  lemma ReturnFirst(m1: Model, d: Id)
    requires Inv(m1) && AtRest(m1) && m1.stack == {d} && m1.get == [] && m1.put == [] && m1.allocations == d + 1
    requires d in m1.descs && m1.descs[d].tag == TagHeader(1, 0, 0)
    ensures var m2 := ReturnNetBufferLists(m1, [d]);
      Inv(m2) && AtRest(m2) && m2.get == [] && m2.put == [d] && m2.allocations == d + 1
      && d in m2.descs && m2.descs[d].tag == TagHeader(1, 0, 0) && m2.inNdis == 0
  {
    ReturnListsInv(m1, [d]);
    ReturnChainLists(m1, [d]);
    ReturnChainSlots(m1, [d]);
    assert Reversed([d]) == [d];
  }

  /** The second packet takes the descriptor from the put list, and NDIS then
      holds it. */
  lemma SecondPacket(m2: Model, d: Id, mdl: MdlRef, offset: ULong, length: ULong, flags: ChecksumFlags, cookie: Cookie)
    requires Inv(m2) && AtRest(m2) && m2.get == [] && m2.put == [d] && m2.allocations == d + 1 && m2.inNdis == 0
    ensures var r := QueuePacket(m2, mdl, offset, length, flags, 0, cookie, true);
      Inv(r) && AtRest(r) && r.stack == {d} && r.allocations == d + 1
  {
    QueueInv(m2, mdl, offset, length, flags, 0, cookie, true);
    QueueDelivered(m2, mdl, offset, length, flags, 0, cookie, true);
    DeliveredPacket(m2, mdl, offset, length, flags, 0, cookie, true);
    assert m2.stack == {};
  }

  /** The second packet's descriptor carries its own cookie and fragment, and the
      first packet's tag. */
  lemma SecondPacketSlot(m2: Model, d: Id, mdl: MdlRef, offset: ULong, length: ULong, flags: ChecksumFlags, cookie: Cookie)
    requires Inv(m2) && AtRest(m2) && m2.get == [] && m2.put == [d] && m2.inNdis == 0
    requires d in m2.descs && m2.descs[d].tag == TagHeader(1, 0, 0)
    ensures var r := QueuePacket(m2, mdl, offset, length, flags, 0, cookie, true);
      d in r.descs && r.descs[d].cookie == Some(cookie)
      && r.descs[d].buffers == [BoundBuffer(mdl, offset, length)] && r.descs[d].tag == TagHeader(1, 0, 0)
  {
    QueueDelivered(m2, mdl, offset, length, flags, 0, cookie, true);
    DeliveredPacket(m2, mdl, offset, length, flags, 0, cookie, true);
  }

  /** A packet that is delivered and not forced back stays in NDIS with the buffer
      binding and the tag the receive path stamped, and the lists are as
      acquisition left them. */
  lemma DeliveredPacket(m: Model, mdl: MdlRef, offset: ULong, length: ULong, flags: ChecksumFlags,
                        tci: UShort, cookie: Cookie, allocOk: bool)
    requires Inv(m) && AtRest(m)
    requires Acquirable(m, allocOk) && !TagRejected(tci) && !Forced(m.inNdis + 1)
    ensures var r := QueuePacket(m, mdl, offset, length, flags, tci, cookie, allocOk);
      var d := NextDescriptor(m);
      var prior := if d in m.descs then m.descs[d].tag else NoTag;
      d in r.descs && r.descs[d].buffers == [BoundBuffer(mdl, offset, length)]
      && Some(r.descs[d].tag) == StampTag(prior, tci)
      && r.get == (if m.get != [] then m.get[1..] else if m.put != [] then m.put[1..] else [])
      && r.put == (if m.get != [] then m.put else [])
      && r.allocations == m.allocations + (if m.get == [] && m.put == [] then 1 else 0)
  {
    ReceiveStamps(m, mdl, offset, length, flags, tci, cookie, allocOk);
    ReceiveWellFormed(m, mdl, offset, length, flags, tci, cookie, allocOk);
    AllocateRefillsAndPops(m, mdl, offset, length, cookie, allocOk);
    AllocateFromPool(m, mdl, offset, length, cookie, allocOk);
    var (m1, nbl) := AllocateNetBufferList(m, mdl, offset, length, cookie, allocOk);
    StampEffect(m1, nbl.value, flags, tci);
    var (m2, nbl2) := ReceivePacket(m, mdl, offset, length, flags, tci, cookie, allocOk);
    PushEffect(m2, nbl2.value);
  }

  /** Right after ReceiverInitialize, the run leaves NDIS holding descriptor 0,
      the pool's first, still tagged with priority 1. */
  lemma StaleTagFromInitial(mdl1: MdlRef, offset1: ULong, length1: ULong, flags1: ChecksumFlags, cookie1: Cookie,
                            mdl2: MdlRef, offset2: ULong, length2: ULong, flags2: ChecksumFlags, cookie2: Cookie)
    ensures Idle(Initial())
    ensures var r := StaleTagRun(Initial(), mdl1, offset1, length1, flags1, cookie1, mdl2, offset2, length2, flags2, cookie2);
      r.stack == {0} && 0 in r.descs && r.descs[0].cookie == Some(cookie2) && r.descs[0].tag == TagHeader(1, 0, 0)
  {
  }
}
