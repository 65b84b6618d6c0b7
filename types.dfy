/** Values that the receive side of the xennet driver passes around: descriptors
    (NET_BUFFER_LISTs) by address, their contents, and the calls the receiver makes
    into its collaborators, recorded as events. */
module Types {

  datatype Option<+T> = None | Some(value: T)

  /** A NET_BUFFER_LIST, identified by its address. */
  type Id = nat

  /** A non-NULL producer-side packet context (the PVOID handed in by the VIF);
      an empty cookie slot is `None`. */
  type Cookie = nat

  /** A PMDL describing the fragment's memory. */
  type MdlRef = nat

  /** ULONG and USHORT as the source declares them. */
  type ULong = x: int | 0 <= x < 0x1_0000_0000
  type UShort = x: int | 0 <= x < 0x1_0000

  /** The fields of a NET_BUFFER that the receiver binds to a fragment. */
  datatype NetBuffer = NetBuffer(
    firstMdl: MdlRef,
    currentMdl: MdlRef,
    dataOffset: ULong,
    dataLength: ULong,
    currentMdlOffset: ULong)

  /** A NET_BUFFER describing `length` bytes at `offset` into `mdl`: what
      NdisAllocateNetBufferAndNetBufferList produces and what a recycled
      descriptor is rebound to. */
  function BoundBuffer(mdl: MdlRef, offset: ULong, length: ULong): (b: NetBuffer)
  {
    NetBuffer(mdl, mdl, offset, length, offset)
  }

  /** The header fields of NDIS_NET_BUFFER_LIST_8021Q_INFO that the receiver writes. */
  datatype TagHeader = TagHeader(userPriority: nat, canonicalFormatId: nat, vlanId: nat)

  const NoTag := TagHeader(0, 0, 0)

  /** One NET_BUFFER_LIST as the receiver sees it. */
  datatype Descriptor = Descriptor(
    next: Option<Id>,          // NET_BUFFER_LIST_NEXT_NBL
    buffers: seq<NetBuffer>,   // the first NET_BUFFER and the ones chained after it
    cookie: Option<Cookie>,    // the Cookie slot kept in MiniportReserved
    checksum: bv32,            // TcpIpChecksumNetBufferListInfo
    tag: TagHeader)            // Ieee8021QNetBufferListInfo

  /** A descriptor fresh from the backing pool: unlinked, one buffer bound to the
      fragment, and a zeroed reserved area and info array. */
  function FreshDescriptor(mdl: MdlRef, offset: ULong, length: ULong): (d: Descriptor)
  {
    Descriptor(None, [BoundBuffer(mdl, offset, length)], None, 0, NoTag)
  }

  /** The receive flags passed to NdisMIndicateReceiveNetBufferLists. */
  datatype ReceiveFlags = ReceiveFlags(dispatchLevel: bool, resources: bool)

  /** Calls the receiver makes into the backing pool, the host stack and the VIF. */
  datatype Event =
    | Allocated(d: Id)                          // NdisAllocateNetBufferAndNetBufferList succeeded
    | Freed(d: Id)                              // NdisFreeNetBufferList
    | Indicated(d: Id, flags: ReceiveFlags)     // NdisMIndicateReceiveNetBufferLists
    | PacketReturned(cookie: Cookie)            // the VIF's ReceiverReturnPacket
}
