/** The metadata the receiver stamps on a descriptor before indicating it
    (receiver.c lines 196-221): the checksum outcome word and the 802.1Q tag. */
module Metadata {
  import opened Types

  /** The checksum outcome the VIF reports for a packet (the six fields of
      XENVIF_PACKET_CHECKSUM_FLAGS that the receiver reads). */
  datatype ChecksumFlags = ChecksumFlags(
    ipChecksumSucceeded: bool,
    ipChecksumFailed: bool,
    tcpChecksumSucceeded: bool,
    tcpChecksumFailed: bool,
    udpChecksumSucceeded: bool,
    udpChecksumFailed: bool)

  /* Bit positions of the Receive view of NDIS_TCP_IP_CHECKSUM_NET_BUFFER_LIST_INFO,
     in the order the NDIS headers declare its bit-fields (an assumption: those
     headers are not part of this model). Bits 6 and up are Loopback, the two
     ValueInvalid flags and reserved bits, which the receiver leaves zero. */
  const TCP_CHECKSUM_FAILED: bv32 := 0x01
  const UDP_CHECKSUM_FAILED: bv32 := 0x02
  const IP_CHECKSUM_FAILED: bv32 := 0x04
  const TCP_CHECKSUM_SUCCEEDED: bv32 := 0x08
  const UDP_CHECKSUM_SUCCEEDED: bv32 := 0x10
  const IP_CHECKSUM_SUCCEEDED: bv32 := 0x20
  const RECEIVE_FLAG_BITS: bv32 := 0x3F

  /** `mask` when `b` holds, else no bit. */
  function BitIf(b: bool, mask: bv32): (r: bv32)
  {
    if b then mask else 0
  }

  /** Reads the six receive flags back out of a checksum word. */
  function DecodeChecksum(w: bv32): (f: ChecksumFlags)
  {
    ChecksumFlags(
      w & IP_CHECKSUM_SUCCEEDED != 0, w & IP_CHECKSUM_FAILED != 0,
      w & TCP_CHECKSUM_SUCCEEDED != 0, w & TCP_CHECKSUM_FAILED != 0,
      w & UDP_CHECKSUM_SUCCEEDED != 0, w & UDP_CHECKSUM_FAILED != 0)
  }

  /** The word written to TcpIpChecksumNetBufferListInfo: a zeroed word with each
      reported flag copied into its own bit. */
  function ChecksumWord(f: ChecksumFlags): (w: bv32)
    ensures DecodeChecksum(w) == f
    ensures w & !RECEIVE_FLAG_BITS == 0
  {
    BitIf(f.ipChecksumSucceeded, IP_CHECKSUM_SUCCEEDED) | BitIf(f.ipChecksumFailed, IP_CHECKSUM_FAILED)
    | BitIf(f.tcpChecksumSucceeded, TCP_CHECKSUM_SUCCEEDED) | BitIf(f.tcpChecksumFailed, TCP_CHECKSUM_FAILED)
    | BitIf(f.udpChecksumSucceeded, UDP_CHECKSUM_SUCCEEDED) | BitIf(f.udpChecksumFailed, UDP_CHECKSUM_FAILED)
  }

  /** Every word with only receive-flag bits set is the stamp of exactly one set of
      flags: the stamp loses nothing and adds nothing. */
  lemma ChecksumWordOnto(w: bv32)
    requires w & !RECEIVE_FLAG_BITS == 0
    ensures ChecksumWord(DecodeChecksum(w)) == w
  {
  }

  /* The Tag Control Information layout of section 9.6 of IEEE 802.1Q-2018, which
     UNPACK_TAG_CONTROL_INFORMATION (util.h, not part of this model) is taken to
     follow: priority code point in bits 15-13, drop eligible / canonical format
     indicator in bit 12, VLAN identifier in bits 11-0. */

  /** The three header fields a Tag Control Information value packs. */
  function UnpackTci(tci: UShort): (h: TagHeader)
    ensures h.userPriority < 8 && h.canonicalFormatId < 2 && h.vlanId < 0x1000
    ensures PackTci(h) == tci
  {
    TciFields(tci);
    TagHeader(tci / 0x2000, (tci / 0x1000) % 2, tci % 0x1000)
  }

  /** The three fields of a 16-bit word put back together give the word. */
  lemma TciFields(t: UShort)
    ensures t / 0x2000 < 8
    ensures t == t / 0x2000 * 0x2000 + (t / 0x1000) % 2 * 0x1000 + t % 0x1000
  {
    var q, r := t / 0x1000, t % 0x1000;
    assert t == 0x1000 * q + r;
    var a, b := q / 2, q % 2;
    assert q == 2 * a + b;
    assert t == 0x2000 * a + (0x1000 * b + r);
    DivByUnique(t, a, 0x1000 * b + r);
  }

  /** Division by 0x2000 is determined by any quotient and in-range remainder. */
  lemma DivByUnique(t: int, q: int, r: int)
    requires t == 0x2000 * q + r && 0 <= r < 0x2000
    ensures t / 0x2000 == q
  {
  }

  /** The 16-bit TCI a header stands for: priority in bits 13-15, CFI in bit 12,
      VLAN identifier in bits 0-11. The inverse of UnpackTci. */
  function PackTci(h: TagHeader): (t: int)
    ensures 0 <= t
  {
    h.userPriority * 0x2000 + h.canonicalFormatId * 0x1000 + h.vlanId
  }

  /** Unpacking recovers any header whose fields fit their widths. */
  lemma UnpackPackTci(h: TagHeader)
    requires h.userPriority < 8 && h.canonicalFormatId < 2 && h.vlanId < 0x1000
    ensures 0 <= PackTci(h) < 0x1_0000
    ensures UnpackTci(PackTci(h)) == h
  {
    var t := PackTci(h);
    DivByUnique(t, h.userPriority, h.canonicalFormatId * 0x1000 + h.vlanId);
    assert t == 0x1000 * (2 * h.userPriority + h.canonicalFormatId) + h.vlanId;
    assert t / 0x1000 == 2 * h.userPriority + h.canonicalFormatId;
    assert t % 0x1000 == h.vlanId;
  }

  /** A packet is refused when its tag carries a VLAN identifier (lines 209-218).
      The zero test on the whole word never decides the outcome: a zero word has
      a zero identifier. */
  predicate TagRejected(tci: UShort): (r: bool)
    ensures r <==> tci % 0x1000 != 0
  {
    tci != 0 && UnpackTci(tci).vlanId != 0
  }

  /** The 802.1Q info a descriptor carries after stamping, or `None` when the tag
      makes the receiver refuse the packet. A zero tag leaves what was there. */
  function StampTag(prior: TagHeader, tci: UShort): (r: Option<TagHeader>)
    ensures r.None? <==> tci % 0x1000 != 0
    ensures tci == 0 ==> r == Some(prior)
    ensures r.Some? && tci != 0 ==> r.value == UnpackTci(tci) && r.value.vlanId == 0 && PackTci(r.value) == tci
  {
    if tci == 0 then Some(prior)
    else
      var h := UnpackTci(tci);
      if h.vlanId != 0 then None else Some(h)
  }
}
