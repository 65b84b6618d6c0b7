/** __ReceiverAllocateNetBufferList as written (receiver.c lines 61-111): when
    both lists are empty and NdisAllocateNetBufferAndNetBufferList returns NULL,
    lines 106-108 still compute the reserved area of the NULL descriptor, read
    its cookie slot and write the cookie into it. The caller's NULL test at line
    191 comes too late. ReceiverModel.AllocateNetBufferList is the corrected
    routine, which returns NULL before touching the slot. */
module Findings {
  import opened Types
  import opened Chains
  import opened Metadata
  import opened ReceiverModel

  /** What happens to an acquisition that follows the code as written: it
      completes with a descriptor, or it dereferences a NULL descriptor. */
  datatype AllocOutcome = Completed(m: Model, nbl: Id) | NullDereference

  /** The whole of __ReceiverAllocateNetBufferList as written: lines 106-108
      dereference whatever lines 76-102 obtained. It dereferences NULL exactly
      when nothing is cached and the pool allocation fails; otherwise it does
      what the corrected routine does. */
  function AllocateAsWritten(m: Model, mdl: MdlRef, offset: ULong, length: ULong, cookie: Cookie, allocOk: bool)
    : (o: AllocOutcome)
    requires Threaded(m)
    ensures o.NullDereference? <==> !Acquirable(m, allocOk)
    ensures o.Completed? ==>
      AllocateNetBufferList(m, mdl, offset, length, cookie, allocOk) == (o.m, Some(o.nbl))
  {
    var (m1, nbl) := Obtain(m, mdl, offset, length, allocOk);
    if nbl.None? then NullDereference
    else Completed(FillSlot(m1, nbl.value, cookie), nbl.value)
  }

  /** The input that shows it: a receiver fresh from ReceiverInitialize whose
      first receive meets a failing pool allocation. The code as written
      dereferences NULL; the corrected routine refuses the packet and changes
      nothing, and ReceiverQueuePacket then hands the cookie back to the VIF. */
  lemma FirstReceiveWithFailingPool(mdl: MdlRef, offset: ULong, length: ULong, cookie: Cookie)
    ensures AllocateAsWritten(Initial(), mdl, offset, length, cookie, false) == NullDereference
    ensures AllocateNetBufferList(Initial(), mdl, offset, length, cookie, false) == (Initial(), None)
  {
  }

  /** In every well-formed state, whenever the code as written would dereference
      NULL, the corrected routine returns NULL, leaves the receiver as it was,
      and the packet's cookie goes straight back to the VIF. */
  lemma CorrectedRefusesInstead(m: Model, mdl: MdlRef, offset: ULong, length: ULong, flags: ChecksumFlags,
                                tci: UShort, cookie: Cookie, allocOk: bool)
    requires Inv(m) && AtRest(m)
    requires AllocateAsWritten(m, mdl, offset, length, cookie, allocOk).NullDereference?
    ensures AllocateNetBufferList(m, mdl, offset, length, cookie, allocOk) == (m, None)
    ensures QueuePacket(m, mdl, offset, length, flags, tci, cookie, allocOk) == m.(log := m.log + [PacketReturned(cookie)])
  {
  }
}
