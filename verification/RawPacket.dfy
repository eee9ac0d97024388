/** Building UDP packets with a chosen source address, and what a receiver reads back from them. */
module RawPacket {
  import opened Net
  import opened Counting
  import opened Checksum
  import opened Numbers

  /** The part of the IPv4 header before the addresses. */
  function HeaderLead(totalLen: nat): (s: seq<Byte>)
    ensures |s| == 12
  {
    [0x45, 0x00, totalLen / 0x100 % 0x100, totalLen % 0x100, 0x00, 0x00, 0x40, 0x00, 64, 17, 0x00, 0x00]
  }

  /** The header checksum and UDP checksum fields hold zero in the header and the segment. */
  function HeaderV4(src: seq<Byte>, dst: seq<Byte>, totalLen: nat): seq<Byte> {
    HeaderLead(totalLen) + src + dst
  }

  function SegmentHead(srcPort: Word, dstPort: Word, len: nat): seq<Byte> {
    [Hi(srcPort), Lo(srcPort), Hi(dstPort), Lo(dstPort), len / 0x100 % 0x100, len % 0x100, 0x00, 0x00]
  }

  function Segment(srcPort: Word, dstPort: Word, payload: seq<Byte>): (s: seq<Byte>)
    ensures |s| == 8 + |payload|
  {
    SegmentHead(srcPort, dstPort, 8 + |payload|) + payload
  }

  /** Stores a word at an even offset. */
  function PutWord(s: seq<Byte>, at: nat, w: Word): (r: seq<Byte>)
    requires at + 1 < |s|
    ensures |r| == |s|
  {
    s[at := Hi(w)][at + 1 := Lo(w)]
  }

  function HeaderChecksum(header: seq<Byte>): Word {
    0xFFFF - OcSum(Words(header))
  }

  function ChecksumV4(src: seq<Byte>, dst: seq<Byte>, segment: seq<Byte>): Word
    requires |segment| <= 0xFFFF
  {
    Transmitted(0xFFFF - OcSum(PseudoV4(src, dst, |segment|) + Words(segment)))
  }

  function ChecksumV6(src: seq<Byte>, dst: seq<Byte>, segment: seq<Byte>): Word
    requires |segment| <= 0xFFFF
  {
    Transmitted(0xFFFF - OcSum(PseudoV6(src, dst, |segment|) + Words(segment)))
  }

  function PacketV4(src: seq<Byte>, dst: seq<Byte>, srcPort: Word, dstPort: Word, payload: seq<Byte>): seq<Byte>
    requires |src| == |dst| == 4 && |payload| <= 65527
  {
    var header := HeaderV4(src, dst, 28 + |payload|);
    var segment := Segment(srcPort, dstPort, payload);
    PutWord(header, 10, HeaderChecksum(header)) + PutWord(segment, 6, ChecksumV4(src, dst, segment))
  }

  function PacketV6(src: seq<Byte>, dst: seq<Byte>, srcPort: Word, dstPort: Word, payload: seq<Byte>): seq<Byte>
    requires |src| == |dst| == 16 && |payload| <= 65527
  {
    var segment := Segment(srcPort, dstPort, payload);
    PutWord(segment, 6, ChecksumV6(src, dst, segment))
  }

  method FillLead(packet: array<Byte>, totalLen: nat)
    requires packet.Length >= 12
    modifies packet
    ensures packet[..] == HeaderLead(totalLen) + old(packet[12..])
  {
    packet[0] := 0x45;
    packet[1] := 0x00;
    packet[2] := totalLen / 0x100 % 0x100;
    packet[3] := totalLen % 0x100;
    packet[4] := 0x00;
    packet[5] := 0x00;
    packet[6] := 0x40;
    packet[7] := 0x00;
    packet[8] := 64;
    packet[9] := 17;
    packet[10] := 0x00;
    packet[11] := 0x00;
    assert packet[..12] == HeaderLead(totalLen);
    assert packet[..] == packet[..12] + packet[12..];
  }

  /** The first twenty bytes of the buffer become the header, checksum still zero. */
  method FillHeader(packet: array<Byte>, src: seq<Byte>, dst: seq<Byte>, totalLen: nat)
    requires |src| == |dst| == 4 && packet.Length >= 20
    modifies packet
    ensures packet[..] == HeaderV4(src, dst, totalLen) + old(packet[20..])
  {
    hide HeaderLead;
    ghost var rest := packet[12..];
    FillLead(packet, totalLen);
    Behind(HeaderLead(totalLen), rest, packet[..]);
    CopyInto(packet, 12, src);
    assert packet[..16] == HeaderLead(totalLen) + src;
    CopyInto(packet, 16, dst);
    assert packet[..20] == HeaderLead(totalLen) + src + dst;
    assert packet[20..] == rest[8..];
    assert packet[..] == packet[..20] + packet[20..];
  }

  lemma Behind(head: seq<Byte>, rest: seq<Byte>, all: seq<Byte>)
    requires all == head + rest
    ensures all[..|head|] == head && all[|head|..] == rest
  {
  }

  /** The rest of the buffer becomes the UDP segment, checksum still zero. */
  method FillSegment(packet: array<Byte>, at: nat, srcPort: Word, dstPort: Word, payload: seq<Byte>)
    requires packet.Length == at + 8 + |payload|
    modifies packet
    ensures packet[..] == old(packet[..at]) + Segment(srcPort, dstPort, payload)
  {
    FillSegmentHead(packet, at, srcPort, dstPort, 8 + |payload|);
    hide SegmentHead;
    ghost var head := old(packet[..at]) + SegmentHead(srcPort, dstPort, 8 + |payload|);
    assert packet[..at + 8] == head;
    CopyInto(packet, at + 8, payload);
    assert packet[..] == head + payload;
  }

  method FillSegmentHead(packet: array<Byte>, at: nat, srcPort: Word, dstPort: Word, udpLen: nat)
    requires at + 8 <= packet.Length
    modifies packet
    ensures |SegmentHead(srcPort, dstPort, udpLen)| == 8
    ensures packet[..] == old(packet[..at]) + SegmentHead(srcPort, dstPort, udpLen) + old(packet[at + 8..])
  {
    packet[at] := Hi(srcPort);
    packet[at + 1] := Lo(srcPort);
    packet[at + 2] := Hi(dstPort);
    packet[at + 3] := Lo(dstPort);
    packet[at + 4] := udpLen / 0x100 % 0x100;
    packet[at + 5] := udpLen % 0x100;
    packet[at + 6] := 0x00;
    packet[at + 7] := 0x00;
    hide Hi, Lo;
    assert packet[at..at + 8] == SegmentHead(srcPort, dstPort, udpLen);
    assert packet[..] == packet[..at] + packet[at..at + 8] + packet[at + 8..];
  }

  method StoreWord(packet: array<Byte>, at: nat, w: Word)
    requires at + 1 < packet.Length
    modifies packet
    ensures packet[..] == PutWord(old(packet[..]), at, w)
  {
    packet[at] := Hi(w);
    packet[at + 1] := Lo(w);
  }

  lemma PutLeft(a: seq<Byte>, b: seq<Byte>, at: nat, w: Word)
    requires at + 1 < |a|
    ensures PutWord(a + b, at, w) == PutWord(a, at, w) + b
  {
  }

  lemma PutRight(a: seq<Byte>, b: seq<Byte>, at: nat, w: Word)
    requires at + 1 < |b|
    ensures PutWord(a + b, |a| + at, w) == a + PutWord(b, at, w)
  {
  }

  lemma HeaderLength(src: seq<Byte>, dst: seq<Byte>, totalLen: nat)
    requires |src| == |dst| == 4
    ensures |HeaderV4(src, dst, totalLen)| == 20
  {
  }

  /** The header, then its checksum over those twenty bytes. */
  method PutHeader(packet: array<Byte>, src: seq<Byte>, dst: seq<Byte>, totalLen: nat)
    requires |src| == |dst| == 4 && packet.Length >= 20
    modifies packet
    ensures |HeaderV4(src, dst, totalLen)| == 20
    ensures packet[..]
      == PutWord(HeaderV4(src, dst, totalLen), 10, HeaderChecksum(HeaderV4(src, dst, totalLen))) + old(packet[20..])
  {
    hide HeaderV4, HeaderLead, PutWord, Words, OcSum, Sum;
    ghost var header, rest := HeaderV4(src, dst, totalLen), packet[20..];
    HeaderLength(src, dst, totalLen);
    FillHeader(packet, src, dst, totalLen);
    Behind(header, rest, packet[..]);
    assert packet[0..20] == header;
    SumBound(Words(packet[0..20]));
    var ipChecksum := Compute(packet[0..20]);
    StoreWord(packet, 10, ipChecksum);
    PutLeft(header, rest, 10, ipChecksum);
  }

  /** The segment after the header, then its checksum over the pseudo-header and those bytes. */
  method PutSegmentV4(packet: array<Byte>, src: seq<Byte>, dst: seq<Byte>,
                      srcPort: Word, dstPort: Word, payload: seq<Byte>)
    requires |src| == |dst| == 4 && |payload| <= 65527 && packet.Length == 28 + |payload|
    modifies packet
    ensures packet[..] == old(packet[..20])
      + PutWord(Segment(srcPort, dstPort, payload), 6, ChecksumV4(src, dst, Segment(srcPort, dstPort, payload)))
  {
    ghost var head, segment := packet[..20], Segment(srcPort, dstPort, payload);
    hide Segment, PutWord, Words, OcSum, Transmitted, PseudoV4;
    FillSegment(packet, 20, srcPort, dstPort, payload);
    ghost var filled := packet[..];
    assert |head| == 20 && filled == head + segment;
    assert packet[20..] == segment;
    var udpChecksum := UdpV4(src, dst, packet[20..]);
    PutRight(head, segment, 6, udpChecksum);
    StoreWord(packet, 26, udpChecksum);
    assert packet[..] == PutWord(filled, 26, udpChecksum);
  }

  /** Fills the buffer in place; the UDP length must fit 16 bits, the total length is truncated to 16 bits. */
  method BuildV4(src: seq<Byte>, dst: seq<Byte>, srcPort: Word, dstPort: Word, payload: seq<Byte>)
    returns (packet: array<Byte>)
    requires |src| == |dst| == 4 && |payload| <= 65527
    ensures fresh(packet) && packet[..] == PacketV4(src, dst, srcPort, dstPort, payload)
  {
    var totalLen := 20 + 8 + |payload|;
    packet := new Byte[totalLen](_ => 0);
    PutHeader(packet, src, dst, totalLen);
    hide *;
    PacketParts(src, dst, srcPort, dstPort, payload);
    ghost var header := PutWord(HeaderV4(src, dst, totalLen), 10, HeaderChecksum(HeaderV4(src, dst, totalLen)));
    assert packet[..20] == header;
    PutSegmentV4(packet, src, dst, srcPort, dstPort, payload);
  }

  /** The segment, then its checksum over the pseudo-header and those bytes. */
  method PutSegmentV6(packet: array<Byte>, src: seq<Byte>, dst: seq<Byte>,
                      srcPort: Word, dstPort: Word, payload: seq<Byte>)
    requires |src| == |dst| == 16 && |payload| <= 65527 && packet.Length == 8 + |payload|
    modifies packet
    ensures packet[..] == PacketV6(src, dst, srcPort, dstPort, payload)
  {
    hide *;
    ghost var segment := Segment(srcPort, dstPort, payload);
    FillSegment(packet, 0, srcPort, dstPort, payload);
    assert packet[..] == segment;
    var udpChecksum := UdpV6(src, dst, packet[..]);
    PacketV6Is(src, dst, srcPort, dstPort, payload);
    StoreWord(packet, 6, udpChecksum);
  }

  method BuildV6(src: seq<Byte>, dst: seq<Byte>, srcPort: Word, dstPort: Word, payload: seq<Byte>)
    returns (packet: array<Byte>)
    requires |src| == |dst| == 16 && |payload| <= 65527
    ensures fresh(packet) && packet[..] == PacketV6(src, dst, srcPort, dstPort, payload)
  {
    hide *;
    packet := new Byte[8 + |payload|](_ => 0);
    PutSegmentV6(packet, src, dst, srcPort, dstPort, payload);
  }

  lemma PacketV6Is(src: seq<Byte>, dst: seq<Byte>, srcPort: Word, dstPort: Word, payload: seq<Byte>)
    requires |src| == |dst| == 16 && |payload| <= 65527
    ensures var segment := Segment(srcPort, dstPort, payload);
      PacketV6(src, dst, srcPort, dstPort, payload)
      == PutWord(segment, 6, Transmitted(0xFFFF - OcSum(PseudoV6(src, dst, |segment|) + Words(segment))))
  {
  }

  /** `copy_from_slice` into the buffer from the given offset. */
  method CopyInto(buffer: array<Byte>, at: nat, bytes: seq<Byte>)
    requires at + |bytes| <= buffer.Length
    modifies buffer
    ensures buffer[..] == old(buffer[..at]) + bytes + old(buffer[at + |bytes|..])
  {
    for k := 0 to |bytes|
      invariant buffer[..at] == old(buffer[..at])
      invariant buffer[at..at + k] == bytes[..k]
      invariant buffer[at + k..] == old(buffer[at + k..])
    {
      buffer[at + k] := bytes[k];
    }
    assert buffer[..] == buffer[..at] + buffer[at..at + |bytes|] + buffer[at + |bytes|..];
  }

  // ----- the receiver -----

  lemma WordsOfPut(s: seq<Byte>, k: nat, w: Word)
    requires 2 * k + 1 < |s|
    ensures Words(PutWord(s, 2 * k, w)) == Words(s)[k := w]
  {
    var p := PutWord(s, 2 * k, w);
    forall j | 0 <= j < |Words(s)|
      ensures Words(p)[j] == Words(s)[k := w][j]
    {
      assert Words(p)[j] == WordAt(p, j) && Words(s)[j] == WordAt(s, j);
    }
  }

  /** The IPv4 header of every built packet verifies. */
  lemma HeaderVerifies(src: seq<Byte>, dst: seq<Byte>, totalLen: nat)
    requires |src| == |dst| == 4
    ensures var header := HeaderV4(src, dst, totalLen);
      Verifies(Words(PutWord(header, 10, HeaderChecksum(header))))
  {
    var header := HeaderV4(src, dst, totalLen);
    WordsOfPut(header, 5, HeaderChecksum(header));
    assert Words(header)[5] == WordAt(header, 5) == 0;
    ChecksumCompletes(Words(header), 5);
  }

  /** Filling the checksum of a segment makes it verify with any pseudo-header, odd lengths included. */
  lemma SegmentVerifies(pseudo: seq<Word>, segment: seq<Byte>)
    requires |segment| >= 8 && segment[6] == 0 && segment[7] == 0
    ensures Verifies(pseudo + Words(PutWord(segment, 6, Transmitted(0xFFFF - OcSum(pseudo + Words(segment))))))
  {
    var all := pseudo + Words(segment);
    var c := 0xFFFF - OcSum(all);
    WordsOfPut(segment, 3, Transmitted(c));
    assert Words(segment)[3] == WordAt(segment, 3) == 0;
    ChecksumCompletes(all, |pseudo| + 3);
    assert all[|pseudo| + 3 := Transmitted(c)] == pseudo + Words(segment)[3 := Transmitted(c)];
  }

  /**
    Corruption of one aligned word of a verified header or segment is noticed exactly when the new word differs
    mod 65535, as long as another word j is not zero: the version in a header, the protocol in a pseudo-header.
   */
  lemma CorruptionDetected(pseudo: seq<Word>, bytes: seq<Byte>, k: nat, w: Word, j: nat)
    requires Verifies(pseudo + Words(bytes)) && 2 * k + 1 < |bytes|
    requires j < |pseudo| + |Words(bytes)| && j != |pseudo| + k && (pseudo + Words(bytes))[j] > 0
    ensures Verifies(pseudo + Words(PutWord(bytes, 2 * k, w))) <==> w % 0xFFFF == WordAt(bytes, k) % 0xFFFF
  {
    var all := pseudo + Words(bytes);
    var p := |pseudo| + k;
    WordsOfPut(bytes, k, w);
    assert pseudo + Words(bytes)[k := w] == all[p := w];
    assert all[p] == WordAt(bytes, k);
    SingleWordDetection(all, p, w);
    TermAtMostSum(all[p := w], j);
  }

  /** The word that holds byte i, once that byte is x. */
  function WordWith(bytes: seq<Byte>, i: nat, x: Byte): Word
    requires i < |bytes|
  {
    WordAt(bytes[i := x], i / 2)
  }

  lemma WordsWith(bytes: seq<Byte>, i: nat, x: Byte)
    requires i < |bytes|
    ensures i / 2 < |Words(bytes)| == |Words(bytes[i := x])|
    ensures Words(bytes[i := x]) == Words(bytes)[i / 2 := WordWith(bytes, i, x)]
  {
    var changed := bytes[i := x];
    forall j | 0 <= j < |Words(bytes)|
      ensures Words(changed)[j] == Words(bytes)[i / 2 := WordWith(bytes, i, x)][j]
    {
      assert Words(changed)[j] == WordAt(changed, j) && Words(bytes)[j] == WordAt(bytes, j);
    }
  }

  /** Changing one byte moves its word by less than 65535, so it leaves its residue only by leaving its value. */
  lemma WordResidue(bytes: seq<Byte>, i: nat, x: Byte)
    requires i < |bytes|
    ensures WordWith(bytes, i, x) % 0xFFFF == WordAt(bytes, i / 2) % 0xFFFF <==> x == bytes[i]
  {
    var hi: Byte, lo: Byte := bytes[i / 2 * 2], if i / 2 * 2 + 1 < |bytes| then bytes[i / 2 * 2 + 1] else 0;
    if i % 2 == 0 {
      assert WordWith(bytes, i, x) == BigEndian(x, lo);
      BytesDiffer(hi, x, lo, lo);
    } else {
      assert WordWith(bytes, i, x) == BigEndian(hi, x);
      BytesDiffer(hi, hi, lo, x);
    }
  }

  lemma ResidueOfWord(a: Word)
    ensures a % 0xFFFF == if a == 0xFFFF then 0 else a
  {
  }

  lemma BytesOfWord(hi: Byte, lo: Byte)
    ensures BigEndian(hi, lo) == 0 <==> hi == 0 && lo == 0
    ensures BigEndian(hi, lo) == 0xFFFF <==> hi == 0xFF && lo == 0xFF
  {
  }

  lemma BytesDiffer(hi: Byte, hi': Byte, lo: Byte, lo': Byte)
    requires hi == hi' || lo == lo'
    ensures BigEndian(hi, lo) % 0xFFFF == BigEndian(hi', lo') % 0xFFFF <==> hi == hi' && lo == lo'
  {
    ResidueOfWord(BigEndian(hi, lo));
    ResidueOfWord(BigEndian(hi', lo'));
    BytesOfWord(hi, lo);
    BytesOfWord(hi', lo');
  }

  /** Every corruption of a single byte of a verified header or segment is noticed, the odd last one included. */
  lemma SingleByteDetected(pseudo: seq<Word>, bytes: seq<Byte>, i: nat, x: Byte)
    requires Verifies(pseudo + Words(bytes)) && i < |bytes|
    ensures Verifies(pseudo + Words(bytes[i := x])) <==> x == bytes[i]
  {
    hide OcSum, Words, WordAt, WordWith, BigEndian, Sum;
    var all, w := pseudo + Words(bytes), WordWith(bytes, i, x);
    WordsWith(bytes, i, x);
    WordResidue(bytes, i, x);
    assert all[|pseudo| + i / 2] == Words(bytes)[i / 2] == WordAt(bytes, i / 2);
    assert pseudo + Words(bytes)[i / 2 := w] == all[|pseudo| + i / 2 := w];
    SingleWordDetection(all, |pseudo| + i / 2, w);
    if x == bytes[i] { assert bytes[i := x] == bytes; }
  }

  datatype Datagram = Datagram(src: seq<Byte>, dst: seq<Byte>, srcPort: Word, dstPort: Word, payload: seq<Byte>)

  /** The ports and payload of a UDP segment whose length field is right. */
  function ParseSegment(segment: seq<Byte>): Option<(Word, Word, seq<Byte>)> {
    if |segment| < 8 || BigEndian(segment[4], segment[5]) != |segment| then None
    else Some((BigEndian(segment[0], segment[1]), BigEndian(segment[2], segment[3]), segment[8..]))
  }

  /** The fields of an IPv4 header without options (section 3.1 of RFC 791). */
  datatype Ipv4Header = Ipv4Header(
    version: nat,
    headerWords: nat,
    typeOfService: nat,
    totalLength: nat,
    identification: nat,
    reserved: bool,
    dontFragment: bool,
    moreFragments: bool,
    fragmentOffset: nat,
    timeToLive: nat,
    protocol: nat,
    checksum: nat,
    src: seq<Byte>,
    dst: seq<Byte>)

  function ReadHeader(h: seq<Byte>): Ipv4Header
    requires |h| == 20
  {
    var flags: int, offset: int := h[6] / 32, h[6] % 32;
    Ipv4Header(
      h[0] / 16, h[0] % 16, h[1], Number(h[2..4]), Number(h[4..6]),
      flags / 4 % 2 == 1, flags / 2 % 2 == 1, flags % 2 == 1, 256 * offset + h[7] as int,
      h[8], h[9], Number(h[10..12]), h[12..16], h[16..20])
  }

  /** A header of a whole UDP datagram. */
  predicate WholeUdp(h: Ipv4Header, length: nat) {
    && h.version == 4 && h.headerWords == 5 && h.protocol == 17 && h.totalLength == length
    && !h.moreFragments && h.fragmentOffset == 0
  }

  /** A receiver of IPv4: checks the header, that it is not a fragment, its length, and both checksums. */
  function ParseV4(packet: seq<Byte>): Option<Datagram> {
    if |packet| < 28 || !WholeUdp(ReadHeader(packet[..20]), |packet|) then None
    else if !Verifies(Words(packet[..20])) then None
    else
      match ParseSegment(packet[20..])
      case None => None
      case Some((srcPort, dstPort, payload)) =>
        if !Verifies(PseudoV4(packet[12..16], packet[16..20], |packet| - 20) + Words(packet[20..])) then None
        else Some(Datagram(packet[12..16], packet[16..20], srcPort, dstPort, payload))
  }

  /** A receiver of the UDP segment carried by IPv6, which knows the addresses from the IPv6 header. */
  function ParseV6(src: seq<Byte>, dst: seq<Byte>, segment: seq<Byte>): Option<Datagram> {
    match ParseSegment(segment)
    case None => None
    case Some((srcPort, dstPort, payload)) =>
      if |segment| > 0xFFFF || !Verifies(PseudoV6(src, dst, |segment|) + Words(segment)) then None
      else Some(Datagram(src, dst, srcPort, dstPort, payload))
  }

  lemma SegmentParses(srcPort: Word, dstPort: Word, payload: seq<Byte>, c: Word)
    requires |payload| <= 65527
    ensures ParseSegment(PutWord(Segment(srcPort, dstPort, payload), 6, c)) == Some((srcPort, dstPort, payload))
  {
    var segment := PutWord(Segment(srcPort, dstPort, payload), 6, c);
    assert segment[8..] == payload;
  }

  /** A fixed part with the two addresses behind it, and a word stored inside the fixed part. */
  lemma FixedPart(fixed: seq<Byte>, src: seq<Byte>, dst: seq<Byte>, c: Word)
    requires |fixed| == 12 && |src| == |dst| == 4
    ensures var h := PutWord(fixed + src + dst, 10, c);
      && |h| == 20 && h[..10] == fixed[..10] && h[10..12] == [Hi(c), Lo(c)] && h[12..16] == src && h[16..20] == dst
  {
  }

  /** The header of a sent packet, its total length cut to sixteen bits: no fragment and not to be fragmented. */
  function SentHeader(src: seq<Byte>, dst: seq<Byte>, totalLen: nat, c: Word): Ipv4Header {
    Ipv4Header(4, 5, 0, totalLen % 0x1_0000, 0, false, true, false, 0, 64, 17, c, src, dst)
  }

  lemma LeadSays(totalLen: nat)
    ensures var lead := HeaderLead(totalLen);
      && lead[0] == 0x45 && lead[1] == 0 && lead[6] == 0x40 && lead[7] == 0 && lead[8] == 64 && lead[9] == 17
      && Number(lead[2..4]) == totalLen % 0x1_0000 && Number(lead[4..6]) == 0
  {
    hide Number;
    var lead := HeaderLead(totalLen);
    assert lead[2..4] == [totalLen / 0x100 % 0x100, totalLen % 0x100] && lead[4..6] == [0, 0];
    NumberTwo(lead[2..4]);
    NumberTwo(lead[4..6]);
    LowWord(totalLen);
  }

  lemma LowWord(n: nat)
    ensures n / 0x100 % 0x100 * 256 + n % 0x100 == n % 0x1_0000
  {
  }

  lemma SameLead(h: seq<Byte>, lead: seq<Byte>)
    requires |h| == 20 && |lead| == 12 && h[..10] == lead[..10]
    ensures h[0] == lead[0] && h[1] == lead[1] && h[6] == lead[6]
    ensures h[7] == lead[7] && h[8] == lead[8] && h[9] == lead[9]
    ensures h[2..4] == lead[2..4] && h[4..6] == lead[4..6]
  {
    var both := h[..10];
    assert both[0] == h[0] && both[1] == h[1] && both[6] == h[6];
    assert both[7] == h[7] && both[8] == h[8] && both[9] == h[9];
    assert h[2..4] == both[2..4] && h[4..6] == both[4..6] && lead[2..4] == both[2..4] && lead[4..6] == both[4..6];
  }

  lemma HeaderFields(src: seq<Byte>, dst: seq<Byte>, totalLen: nat, c: Word)
    requires |src| == |dst| == 4
    ensures |HeaderV4(src, dst, totalLen)| == 20
    ensures ReadHeader(PutWord(HeaderV4(src, dst, totalLen), 10, c)) == SentHeader(src, dst, totalLen, c)
  {
    hide PutWord, Number, HeaderLead;
    var h, lead := PutWord(HeaderV4(src, dst, totalLen), 10, c), HeaderLead(totalLen);
    FixedPart(lead, src, dst, c);
    SameLead(h, lead);
    LeadSays(totalLen);
    NumberTwo(h[10..12]);
  }

  /** What the receiver makes of a good header followed by a good segment hangs on the total length alone. */
  lemma ParseJoined(h: seq<Byte>, g: seq<Byte>, totalLen: nat, c: Word, src: seq<Byte>, dst: seq<Byte>,
                    srcPort: Word, dstPort: Word, payload: seq<Byte>)
    requires |h| == 20 && ReadHeader(h) == SentHeader(src, dst, totalLen, c) && h[12..16] == src && h[16..20] == dst
    requires 8 <= |g| <= 0xFFFF && ParseSegment(g) == Some((srcPort, dstPort, payload))
    requires Verifies(Words(h)) && Verifies(PseudoV4(src, dst, |g|) + Words(g))
    ensures ParseV4(h + g)
      == if totalLen % 0x1_0000 == 20 + |g| then Some(Datagram(src, dst, srcPort, dstPort, payload)) else None
  {
    hide Words, Verifies, OcSum, PseudoV4, ParseSegment, ReadHeader;
    var packet := h + g;
    assert packet[..20] == h && packet[20..] == g;
    assert packet[12..16] == src && packet[16..20] == dst;
  }

  /**
    The round trip over IPv4: a receiver gets back exactly what was sent, and accepts both checksums, if and only
    if the payload leaves the total length within 16 bits.
   */
  lemma RoundTripV4(src: seq<Byte>, dst: seq<Byte>, srcPort: Word, dstPort: Word, payload: seq<Byte>)
    requires |src| == |dst| == 4 && |payload| <= 65527
    ensures |payload| <= 65507 ==>
      ParseV4(PacketV4(src, dst, srcPort, dstPort, payload)) == Some(Datagram(src, dst, srcPort, dstPort, payload))
    ensures |payload| > 65507 ==> ParseV4(PacketV4(src, dst, srcPort, dstPort, payload)) == None
  {
    hide *;
    var h := GoodHeader(src, dst, 28 + |payload|);
    var g := GoodSegmentV4(src, dst, srcPort, dstPort, payload);
    PacketParts(src, dst, srcPort, dstPort, payload);
    var c := HeaderChecksum(HeaderV4(src, dst, 28 + |payload|));
    ParseJoined(h, g, 28 + |payload|, c, src, dst, srcPort, dstPort, payload);
  }

  lemma PacketParts(src: seq<Byte>, dst: seq<Byte>, srcPort: Word, dstPort: Word, payload: seq<Byte>)
    requires |src| == |dst| == 4 && |payload| <= 65527
    ensures |HeaderV4(src, dst, 28 + |payload|)| == 20
    ensures PacketV4(src, dst, srcPort, dstPort, payload)
      == PutWord(HeaderV4(src, dst, 28 + |payload|), 10, HeaderChecksum(HeaderV4(src, dst, 28 + |payload|)))
       + PutWord(Segment(srcPort, dstPort, payload), 6, ChecksumV4(src, dst, Segment(srcPort, dstPort, payload)))
  {
  }

  lemma GoodHeader(src: seq<Byte>, dst: seq<Byte>, totalLen: nat) returns (h: seq<Byte>)
    requires |src| == |dst| == 4
    ensures |h| == 20 && h == PutWord(HeaderV4(src, dst, totalLen), 10, HeaderChecksum(HeaderV4(src, dst, totalLen)))
    ensures ReadHeader(h) == SentHeader(src, dst, totalLen, HeaderChecksum(HeaderV4(src, dst, totalLen)))
    ensures h[12..16] == src && h[16..20] == dst && Verifies(Words(h))
  {
    h := PutWord(HeaderV4(src, dst, totalLen), 10, HeaderChecksum(HeaderV4(src, dst, totalLen)));
    HeaderFields(src, dst, totalLen, HeaderChecksum(HeaderV4(src, dst, totalLen)));
    HeaderVerifies(src, dst, totalLen);
  }

  lemma GoodSegmentV4(src: seq<Byte>, dst: seq<Byte>, srcPort: Word, dstPort: Word, payload: seq<Byte>)
    returns (g: seq<Byte>)
    requires |payload| <= 65527
    ensures |g| == 8 + |payload|
    ensures g
      == PutWord(Segment(srcPort, dstPort, payload), 6, ChecksumV4(src, dst, Segment(srcPort, dstPort, payload)))
    ensures ParseSegment(g) == Some((srcPort, dstPort, payload))
    ensures Verifies(PseudoV4(src, dst, |g|) + Words(g))
  {
    var segment := Segment(srcPort, dstPort, payload);
    g := PutWord(segment, 6, ChecksumV4(src, dst, segment));
    SegmentZero(srcPort, dstPort, payload);
    SegmentVerifies(PseudoV4(src, dst, |segment|), segment);
    SegmentParses(srcPort, dstPort, payload, ChecksumV4(src, dst, segment));
  }

  lemma SegmentZero(srcPort: Word, dstPort: Word, payload: seq<Byte>)
    ensures Segment(srcPort, dstPort, payload)[6] == 0 && Segment(srcPort, dstPort, payload)[7] == 0
  {
  }

  /** The round trip over IPv6, for every payload whose UDP length fits 16 bits. */
  lemma RoundTripV6(src: seq<Byte>, dst: seq<Byte>, srcPort: Word, dstPort: Word, payload: seq<Byte>)
    requires |src| == |dst| == 16 && |payload| <= 65527
    ensures ParseV6(src, dst, PacketV6(src, dst, srcPort, dstPort, payload))
      == Some(Datagram(src, dst, srcPort, dstPort, payload))
  {
    var segment := Segment(srcPort, dstPort, payload);
    SegmentVerifies(PseudoV6(src, dst, |segment|), segment);
    SegmentParses(srcPort, dstPort, payload, ChecksumV6(src, dst, segment));
  }

  /** What the header of a sent packet says, field by field. */
  lemma HeaderRead(src: seq<Byte>, dst: seq<Byte>, srcPort: Word, dstPort: Word, payload: seq<Byte>)
    requires |src| == |dst| == 4 && |payload| <= 65527
    ensures |PacketV4(src, dst, srcPort, dstPort, payload)| == 28 + |payload|
    ensures var header := ReadHeader(PacketV4(src, dst, srcPort, dstPort, payload)[..20]);
      && header.version == 4 && header.headerWords == 5 && header.typeOfService == 0
      && header.totalLength == (28 + |payload|) % 0x1_0000 && header.identification == 0
      && !header.reserved && header.dontFragment && !header.moreFragments && header.fragmentOffset == 0
      && header.timeToLive == 64 && header.protocol == 17 && header.src == src && header.dst == dst
  {
    hide *;
    var h := GoodHeader(src, dst, 28 + |payload|);
    var g := GoodSegmentV4(src, dst, srcPort, dstPort, payload);
    PacketParts(src, dst, srcPort, dstPort, payload);
    assert (h + g)[..20] == h;
    SentHeaderSays(src, dst, 28 + |payload|, HeaderChecksum(HeaderV4(src, dst, 28 + |payload|)));
  }

  /** Where a receiver finds what was sent, octet by octet: addresses, ports, UDP length and payload. */
  lemma WirePlaces(src: seq<Byte>, dst: seq<Byte>, srcPort: Word, dstPort: Word, payload: seq<Byte>)
    requires |payload| <= 65527
    ensures |src| == |dst| == 4 ==>
      var packet := PacketV4(src, dst, srcPort, dstPort, payload);
      && |packet| == 28 + |payload| && packet[12..16] == src && packet[16..20] == dst
      && SegmentPlaces(packet[20..], srcPort, dstPort, payload)
    ensures |src| == |dst| == 16 ==>
      SegmentPlaces(PacketV6(src, dst, srcPort, dstPort, payload), srcPort, dstPort, payload)
  {
    hide HeaderV4, HeaderLead, HeaderChecksum, ChecksumV4, ChecksumV6, Segment, SegmentPlaces, PutWord;
    var segment := Segment(srcPort, dstPort, payload);
    if |src| == |dst| == 4 {
      var c := HeaderChecksum(HeaderV4(src, dst, 28 + |payload|));
      HeaderLength(src, dst, 28 + |payload|);
      AddressPlaces(src, dst, 28 + |payload|, c);
      SegmentFilled(srcPort, dstPort, payload, ChecksumV4(src, dst, segment));
      var packet := PacketV4(src, dst, srcPort, dstPort, payload);
      var head := PutWord(HeaderV4(src, dst, 28 + |payload|), 10, c);
      assert packet[12..16] == head[12..16] && packet[16..20] == head[16..20];
      assert packet[20..] == PutWord(segment, 6, ChecksumV4(src, dst, segment));
    }
    if |src| == |dst| == 16 {
      SegmentFilled(srcPort, dstPort, payload, ChecksumV6(src, dst, segment));
    }
  }

  ghost predicate SegmentPlaces(segment: seq<Byte>, srcPort: Word, dstPort: Word, payload: seq<Byte>) {
    && |segment| == 8 + |payload|
    && Number(segment[0..2]) == srcPort && Number(segment[2..4]) == dstPort
    && Number(segment[4..6]) == 8 + |payload| && segment[8..] == payload
  }

  lemma HeadSays(srcPort: Word, dstPort: Word, len: Word)
    ensures var head := SegmentHead(srcPort, dstPort, len);
      |head| == 8 && Number(head[0..2]) == srcPort && Number(head[2..4]) == dstPort && Number(head[4..6]) == len
  {
    hide Number;
    var head := SegmentHead(srcPort, dstPort, len);
    assert head[0..2] == [Hi(srcPort), Lo(srcPort)] && head[2..4] == [Hi(dstPort), Lo(dstPort)];
    assert head[4..6] == [len / 0x100 % 0x100, len % 0x100];
    NumberTwo(head[0..2]);
    NumberTwo(head[2..4]);
    NumberTwo(head[4..6]);
  }

  lemma PutInside(head: seq<Byte>, rest: seq<Byte>, c: Word)
    requires |head| == 8
    ensures var s := PutWord(head + rest, 6, c); |s| == 8 + |rest| && s[..6] == head[..6] && s[8..] == rest
  {
  }

  lemma SegmentFilled(srcPort: Word, dstPort: Word, payload: seq<Byte>, c: Word)
    requires |payload| <= 65527
    ensures SegmentPlaces(PutWord(Segment(srcPort, dstPort, payload), 6, c), srcPort, dstPort, payload)
  {
    hide Number, PutWord, SegmentHead;
    var head := SegmentHead(srcPort, dstPort, 8 + |payload|);
    var segment := PutWord(Segment(srcPort, dstPort, payload), 6, c);
    HeadSays(srcPort, dstPort, 8 + |payload|);
    PutInside(head, payload, c);
    assert segment[0..2] == segment[..6][0..2] == head[0..2] && segment[2..4] == segment[..6][2..4] == head[2..4];
    assert segment[4..6] == segment[..6][4..6] == head[4..6];
  }

  lemma AddressPlaces(src: seq<Byte>, dst: seq<Byte>, totalLen: nat, c: Word)
    requires |src| == |dst| == 4
    ensures |HeaderV4(src, dst, totalLen)| == 20
    ensures var h := PutWord(HeaderV4(src, dst, totalLen), 10, c); h[12..16] == src && h[16..20] == dst
  {
    hide HeaderLead, PutWord;
    FixedPart(HeaderLead(totalLen), src, dst, c);
  }

  lemma SentHeaderSays(src: seq<Byte>, dst: seq<Byte>, totalLen: nat, c: Word)
    ensures var header := SentHeader(src, dst, totalLen, c);
      && header.version == 4 && header.headerWords == 5 && header.typeOfService == 0
      && header.totalLength == totalLen % 0x1_0000 && header.identification == 0
      && !header.reserved && header.dontFragment && !header.moreFragments && header.fragmentOffset == 0
      && header.timeToLive == 64 && header.protocol == 17 && header.src == src && header.dst == dst
  {
  }

  /** Every sent datagram carries a checksum: the field is never zero, which would mean that there is none (RFC 768). */
  lemma ChecksumPresent(src: seq<Byte>, dst: seq<Byte>, srcPort: Word, dstPort: Word, payload: seq<Byte>)
    requires |payload| <= 65527
    ensures |src| == |dst| == 4 ==>
      && |PacketV4(src, dst, srcPort, dstPort, payload)| == 28 + |payload|
      && Number(PacketV4(src, dst, srcPort, dstPort, payload)[26..28]) != 0
    ensures |src| == |dst| == 16 ==>
      && |PacketV6(src, dst, srcPort, dstPort, payload)| == 8 + |payload|
      && Number(PacketV6(src, dst, srcPort, dstPort, payload)[6..8]) != 0
  {
    hide Segment, HeaderV4, PutWord, HeaderChecksum, ChecksumV4, ChecksumV6, Number;
    var segment := Segment(srcPort, dstPort, payload);
    if |src| == |dst| == 4 {
      HeaderLength(src, dst, 28 + |payload|);
      var c, packet := ChecksumV4(src, dst, segment), PacketV4(src, dst, srcPort, dstPort, payload);
      PutNumber(segment, 6, c);
      NeverZero(src, dst, segment);
      assert packet[26..28] == PutWord(segment, 6, c)[6..8];
    }
    if |src| == |dst| == 16 {
      PutNumber(segment, 6, ChecksumV6(src, dst, segment));
      NeverZero(src, dst, segment);
    }
  }

  lemma NeverZero(src: seq<Byte>, dst: seq<Byte>, segment: seq<Byte>)
    requires |segment| <= 0xFFFF
    ensures ChecksumV4(src, dst, segment) != 0 && ChecksumV6(src, dst, segment) != 0
  {
    hide OcSum, PseudoV4, PseudoV6, Words;
  }

  lemma PutNumber(s: seq<Byte>, at: nat, w: Word)
    requires at + 1 < |s|
    ensures Number(PutWord(s, at, w)[at..at + 2]) == w
  {
    NumberTwo(PutWord(s, at, w)[at..at + 2]);
  }
}
