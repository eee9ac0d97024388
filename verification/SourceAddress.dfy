/** Which source address a raw packet carries, for every client, backend and mode. */
module SourceAddress {
  import opened Net
  import opened Numbers
  import opened RawPacket

  /** The well-known prefix 64:ff9b::/96 (section 2.2 of RFC 6052). */
  const PREFIX: seq<Byte> := [0x00, 0x64, 0xff, 0x9b, 0, 0, 0, 0, 0, 0, 0, 0]

  function Embed(v4: Octets4): Octets16 {
    PREFIX + v4
  }

  /** Reading the embedded address back. */
  function Extract(v6: Octets16): Option<Octets4> {
    if v6[..12] == PREFIX then Some(v6[12..]) else None
  }

  lemma EmbedInvertible(v4: Octets4, v6: Octets16)
    ensures Extract(v6) == Some(v4) <==> v6 == Embed(v4)
  {
    assert Embed(v4)[..12] == PREFIX && Embed(v4)[12..] == v4;
    assert v6 == v6[..12] + v6[12..];
  }

  lemma PrefixNumber()
    ensures Number(PREFIX) == 0x64_ff9b * Limit(8)
  {
    var head: seq<Byte>, tail: seq<Byte> := [0, 0x64, 0xff, 0x9b], [0, 0, 0, 0, 0, 0, 0, 0];
    assert PREFIX == head + tail;
    NumberConcat(head, tail);
    NumberFour(head);
    NoNumber(tail);
  }

  lemma {:induction false} NoNumber(s: seq<Byte>)
    requires forall i :: 0 <= i < |s| ==> s[i] == 0
    ensures Number(s) == 0
  {
    if s != [] {
      NoNumber(s[..|s| - 1]);
    }
  }

  lemma HighLimits()
    ensures Limit(4) == 0x1_0000_0000 && Limit(8) == 0x1_0000_0000_0000_0000
    ensures Limit(12) == 0x1_0000_0000_0000_0000_0000_0000
  {
    Limits();
    assert Limit(5) == 0x100_0000_0000 && Limit(6) == 0x1_0000_0000_0000 && Limit(7) == 0x100_0000_0000_0000;
    assert Limit(8) == 0x1_0000_0000_0000_0000 && Limit(9) == 0x100_0000_0000_0000_0000;
    assert Limit(10) == 0x1_0000_0000_0000_0000_0000 && Limit(11) == 0x100_0000_0000_0000_0000_0000;
  }

  /** As a number, an embedded address is 64:ff9b::/96 with the IPv4 address in its last 32 bits. */
  lemma EmbedNumber(v4: Octets4)
    ensures Number(Embed(v4)) == 0x64_ff9b * Limit(12) + Number(v4)
    ensures Limit(12) == 0x1_0000_0000_0000_0000_0000_0000
  {
    hide Number, Limit;
    NumberConcat(PREFIX, v4);
    PrefixNumber();
    HighLimits();
  }

  /** `to_ipv4_mapped`: the address in ::ffff:a.b.c.d. */
  function FromMapped(v6: Octets16): Option<Octets4> {
    if v6[..10] == [0, 0, 0, 0, 0, 0, 0, 0, 0, 0] && v6[10] == 0xff && v6[11] == 0xff then Some(v6[12..]) else None
  }

  /** The mapped addresses are exactly those of ten zero octets, two octets 255 and an IPv4 address. */
  lemma MappedExact(v6: Octets16, v4: Octets4)
    ensures FromMapped(v6) == Some(v4) <==> v6 == [0, 0, 0, 0, 0, 0, 0, 0, 0, 0] + [255, 255] + v4
  {
    var mapped: seq<Byte> := [0, 0, 0, 0, 0, 0, 0, 0, 0, 0] + [255, 255] + v4;
    assert mapped[..10] == [0, 0, 0, 0, 0, 0, 0, 0, 0, 0] && mapped[12..] == v4;
    assert v6 == v6[..10] + [v6[10], v6[11]] + v6[12..];
  }

  /** What leaves the raw socket: a whole IPv4 packet, or a UDP segment with its IPv6 addresses. */
  datatype Outcome =
    | SentV4(v4src: Octets4, v4dst: Octets4, packet: seq<Byte>)
    | SentV6(v6src: Octets16, v6dst: Octets16, segment: seq<Byte>)
    | FamilyMismatch
    | NeedsFallback

  /** `RawSocket::send_to` on a socket of the given family. */
  function SendTo(isIpv6: bool, src: SocketAddr, dst: SocketAddr, payload: seq<Byte>): Outcome
    requires |payload| <= 65527
  {
    match (src.ip, dst.ip)
    case (V4(s), V4(d)) => if isIpv6 then FamilyMismatch else SentV4(s, d, PacketV4(s, d, src.port, dst.port, payload))
    case (V6(s), V6(d)) => if !isIpv6 then FamilyMismatch else SentV6(s, d, PacketV6(s, d, src.port, dst.port, payload))
    case (V4(s), V6(d)) =>
      if !isIpv6 then FamilyMismatch else SentV6(Embed(s), d, PacketV6(Embed(s), d, src.port, dst.port, payload))
    case (V6(_), V4(_)) => FamilyMismatch
  }

  /** An IPv4 client on a dual-stack listener shows up as a mapped IPv6 address. */
  function RealSource(client: IpAddr): IpAddr {
    match client
    case V4(_) => client
    case V6(a) => match FromMapped(a) case Some(v4) => V4(v4) case None => client
  }

  /** `send` in the mode that preserves the client's address; the raw socket has the backend's family. */
  function SendPreserving(client: SocketAddr, backend: SocketAddr,
                          fallback: Option<Octets4>, payload: seq<Byte>): Outcome
    requires |payload| <= 65527
  {
    var source := RealSource(client.ip);
    if source.V6? && backend.ip.V4? then
      match fallback
      case Some(f) => SendTo(backend.ip.V6?, SocketAddr(V4(f), client.port), backend, payload)
      case None => NeedsFallback
    else SendTo(backend.ip.V6?, SocketAddr(source, client.port), backend, payload)
  }

  function SendFaking(fake: IpAddr, client: SocketAddr, backend: SocketAddr, payload: seq<Byte>): Outcome
    requires |payload| <= 65527
  {
    SendTo(backend.ip.V6?, SocketAddr(fake, client.port), backend, payload)
  }

  /** The configuration check: an IPv6 source address is refused for an IPv4 backend. */
  predicate ValidFake(fake: IpAddr, backend: IpAddr) {
    !(fake.V6? && backend.V4?)
  }

  /** What the backend reads from what arrives: both addresses, both ports, the payload. */
  datatype Seen = Seen(src: IpAddr, dst: IpAddr, srcPort: Word, dstPort: Word, payload: seq<Byte>)

  function SeenBy(o: Outcome): Option<Seen> {
    match o
    case SentV4(_, _, packet) =>
      (match ParseV4(packet)
       case Some(d) =>
         if |d.src| == |d.dst| == 4 then Some(Seen(V4(d.src), V4(d.dst), d.srcPort, d.dstPort, d.payload)) else None
       case None => None)
    case SentV6(src, dst, segment) =>
      (match ParseV6(src, dst, segment)
       case Some(d) => Some(Seen(V6(src), V6(dst), d.srcPort, d.dstPort, d.payload))
       case None => None)
    case _ => None
  }

  /** The sender that the client of a preserving send stands for on the backend's side. */
  function ExpectedSender(client: IpAddr, backend: IpAddr, fallback: Option<Octets4>): Option<IpAddr> {
    match client
    case V4(a) => Some(Seen4(a, backend))
    case V6(v6) =>
      match FromMapped(v6)
      case Some(a) => Some(Seen4(a, backend))
      case None => if backend.V6? then Some(V6(v6)) else match fallback case Some(f) => Some(V4(f)) case None => None
  }

  /** How a backend sees an IPv4 sender. */
  function Seen4(a: Octets4, backend: IpAddr): IpAddr {
    if backend.V4? then V4(a) else V6(Embed(a))
  }

  /**
    Preservation end to end: the backend parses the packet, accepts its checksums, and reads the client's own address
    (embedded for an IPv6 backend, or the fallback), the client's port and the payload, provided that an IPv4
    packet's length fits 16 bits; otherwise it reads nothing.
   */
  lemma SourcePreserved(client: SocketAddr, backend: SocketAddr, fallback: Option<Octets4>, payload: seq<Byte>)
    requires |payload| <= 65527
    ensures SeenBy(SendPreserving(client, backend, fallback, payload)) ==
      match ExpectedSender(client.ip, backend.ip, fallback)
      case None => None
      case Some(ip) =>
        if backend.ip.V4? && |payload| > 65507 then None
        else Some(Seen(ip, backend.ip, client.port, backend.port, payload))
  {
    hide PacketV4, PacketV6, ParseV4, ParseV6, Embed, FromMapped;
    match SendPreserving(client, backend, fallback, payload) {
      case SentV4(src, dst, _) => RoundTripV4(src, dst, client.port, backend.port, payload);
      case SentV6(src, dst, _) => RoundTripV6(src, dst, client.port, backend.port, payload);
      case _ =>
    }
  }

  /**
    Faking end to end: the backend reads the configured address (embedded for an IPv6 backend), the client's port and
    the payload, exactly when the configuration check allows that address and an IPv4 packet's length fits 16 bits.
   */
  lemma SourceFaked(fake: IpAddr, client: SocketAddr, backend: SocketAddr, payload: seq<Byte>)
    requires |payload| <= 65527
    ensures SeenBy(SendFaking(fake, client, backend, payload)) ==
      if !ValidFake(fake, backend.ip) || (backend.ip.V4? && |payload| > 65507) then None
      else
        var source := if fake.V4? && backend.ip.V6? then V6(Embed(fake.v4)) else fake;
        Some(Seen(source, backend.ip, client.port, backend.port, payload))
  {
    hide PacketV4, PacketV6, ParseV4, ParseV6, Embed;
    match SendFaking(fake, client, backend, payload) {
      case SentV4(src, dst, _) => RoundTripV4(src, dst, client.port, backend.port, payload);
      case SentV6(src, dst, _) => RoundTripV6(src, dst, client.port, backend.port, payload);
      case _ =>
    }
  }

  /** Corollary of the definitions: a fake source is rejected exactly when the configuration check refuses it. */
  lemma FakingExact(fake: IpAddr, client: SocketAddr, backend: SocketAddr, payload: seq<Byte>)
    requires |payload| <= 65527
    ensures SendFaking(fake, client, backend, payload) == FamilyMismatch <==> !ValidFake(fake, backend.ip)
    ensures SendFaking(fake, client, backend, payload) != NeedsFallback
  {
  }

  /**
    Corollary of the definitions: preserving never meets a family mismatch, and it is refused exactly for a true IPv6
    client, an IPv4 backend and no fallback.
   */
  lemma PreservingExact(client: SocketAddr, backend: SocketAddr, fallback: Option<Octets4>, payload: seq<Byte>)
    requires |payload| <= 65527
    ensures SendPreserving(client, backend, fallback, payload) != FamilyMismatch
    ensures SendPreserving(client, backend, fallback, payload) == NeedsFallback <==>
      client.ip.V6? && FromMapped(client.ip.v6).None? && backend.ip.V4? && fallback.None?
  {
  }
}
