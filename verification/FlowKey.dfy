/** The hash key of a packet: the bytes of the configured fields, one after the other. */
module FlowKey {
  import opened Net
  import opened Ipfix
  import opened LookupTable
  import TableProtocol
  import Rendezvous
  import Fnv
  import Maglev
  import RawPacket

  datatype Field = SrcIp | DstIp | SrcPort | DstPort | Ipfix | IpfixTemplateId

  datatype Packet = Packet(srcIp: IpAddr, dstIp: IpAddr, srcPort: Word, dstPort: Word, payload: seq<Byte>)

  datatype Value = Ip(ip: IpAddr) | Port(port: Word) | Domain(id: Option<nat>) | Template(template: Option<Word>)

  function AddressBytes(ip: IpAddr): seq<Byte> {
    match ip
    case V4(o) => o
    case V6(o) => o
  }

  function WordBytes(w: Word): seq<Byte> {
    [Hi(w), Lo(w)]
  }

  /** What a field of a packet is, before encoding. */
  function ValueOf(f: Field, p: Packet): Value {
    match f
    case SrcIp => Ip(p.srcIp)
    case DstIp => Ip(p.dstIp)
    case SrcPort => Port(p.srcPort)
    case DstPort => Port(p.dstPort)
    case Ipfix => Domain(ObservationDomainId(p.payload))
    case IpfixTemplateId => Template(TemplateId(p.payload))
  }

  /** Addresses and ports in network order; an absent IPFIX field contributes nothing. */
  function Encode(f: Field, p: Packet): seq<Byte> {
    match f
    case SrcIp => AddressBytes(p.srcIp)
    case DstIp => AddressBytes(p.dstIp)
    case SrcPort => WordBytes(p.srcPort)
    case DstPort => WordBytes(p.dstPort)
    case Ipfix =>
      (match ObservationDomainId(p.payload)
       case None => []
       case Some(id) => WordBytes(id / 0x1_0000) + WordBytes(id % 0x1_0000))
    case IpfixTemplateId =>
      (match TemplateId(p.payload)
       case None => []
       case Some(id) => WordBytes(id))
  }

  /**
    What a field adds to the key is what the packet carries on the wire: the octets of an address, the ports as the
    first four octets of the UDP header, and the IPFIX fields as they stand in the message.
   */
  lemma EncodeIsWire(f: Field, p: Packet)
    ensures var segment := RawPacket.Segment(p.srcPort, p.dstPort, p.payload);
      match f
      case SrcIp => Encode(f, p) == if p.srcIp.V4? then p.srcIp.v4 else p.srcIp.v6
      case DstIp => Encode(f, p) == if p.dstIp.V4? then p.dstIp.v4 else p.dstIp.v6
      case SrcPort => Encode(f, p) == segment[0..2]
      case DstPort => Encode(f, p) == segment[2..4]
      case Ipfix => Encode(f, p) == if ObservationDomainId(p.payload).Some? then p.payload[12..16] else []
      case IpfixTemplateId => Encode(f, p) == if TemplateId(p.payload).Some? then p.payload[16..18] else []
  {
    match f {
      case Ipfix => if ObservationDomainId(p.payload).Some? { DomainBytes(p.payload); }
      case IpfixTemplateId => if TemplateId(p.payload).Some? { WordBytesOf(p.payload[16], p.payload[17]); }
      case _ =>
    }
  }

  lemma WordBytesOf(hi: Byte, lo: Byte)
    ensures WordBytes(BigEndian(hi, lo)) == [hi, lo]
  {
  }

  lemma SplitWords(high: Word, low: Word)
    ensures (high * 0x1_0000 + low) / 0x1_0000 == high && (high * 0x1_0000 + low) % 0x1_0000 == low
  {
  }

  lemma DomainBytes(payload: seq<Byte>)
    requires ObservationDomainId(payload).Some?
    ensures var id := ObservationDomainId(payload).value;
      WordBytes(id / 0x1_0000) + WordBytes(id % 0x1_0000) == payload[12..16]
  {
    hide BigEndian, WordBytes;
    WordBytesOf(payload[12], payload[13]);
    WordBytesOf(payload[14], payload[15]);
    SplitWords(BigEndian(payload[12], payload[13]), BigEndian(payload[14], payload[15]));
  }

  function KeyOf(fields: seq<Field>, p: Packet): seq<Byte> {
    if fields == [] then [] else KeyOf(fields[..|fields| - 1], p) + Encode(fields[|fields| - 1], p)
  }

  lemma Associate(x: seq<Byte>, y: seq<Byte>, z: seq<Byte>)
    ensures (x + y) + z == x + (y + z)
  {
  }

  /** The fields contribute one after the other. */
  lemma {:induction false} KeyOfConcat(a: seq<Field>, b: seq<Field>, p: Packet)
    ensures KeyOf(a + b, p) == KeyOf(a, p) + KeyOf(b, p)
  {
    hide Encode;
    if b == [] {
      assert a + b == a;
    } else {
      var init, f := b[..|b| - 1], b[|b| - 1];
      assert (a + b)[..|a + b| - 1] == a + init && (a + b)[|a + b| - 1] == f;
      KeyOfConcat(a, init, p);
      Associate(KeyOf(a, p), KeyOf(init, p), Encode(f, p));
    }
  }

  lemma KeyOfOne(f: Field, p: Packet)
    ensures KeyOf([f], p) == Encode(f, p)
  {
    assert [f][..0] == [];
  }

  method BuildHashKey(fields: seq<Field>, p: Packet) returns (key: seq<Byte>)
    ensures key == KeyOf(fields, p)
  {
    key := [];
    for n := 0 to |fields|
      invariant key == KeyOf(fields[..n], p)
    {
      assert fields[..n + 1][..n] == fields[..n];
      key := key + Encode(fields[n], p);
    }
    assert fields[..|fields|] == fields;
  }

  /** The two packets agree on every selected field. */
  ghost predicate Agree(fields: seq<Field>, p: Packet, q: Packet) {
    && (SrcIp in fields ==> p.srcIp == q.srcIp)
    && (DstIp in fields ==> p.dstIp == q.dstIp)
    && (SrcPort in fields ==> p.srcPort == q.srcPort)
    && (DstPort in fields ==> p.dstPort == q.dstPort)
    && (Ipfix in fields ==> ObservationDomainId(p.payload) == ObservationDomainId(q.payload))
    && (IpfixTemplateId in fields ==> TemplateId(p.payload) == TemplateId(q.payload))
  }

  lemma AgreeOn(fields: seq<Field>, f: Field, p: Packet, q: Packet)
    requires Agree(fields, p, q) && f in fields
    ensures ValueOf(f, p) == ValueOf(f, q)
  {
    hide ObservationDomainId, TemplateId;
  }

  /** Same address families, as far as addresses are selected. */
  ghost predicate SameFamilies(fields: seq<Field>, p: Packet, q: Packet) {
    && (SrcIp in fields ==> (p.srcIp.V4? <==> q.srcIp.V4?))
    && (DstIp in fields ==> (p.dstIp.V4? <==> q.dstIp.V4?))
  }

  /** Same address families and same presence of IPFIX fields, as far as they are selected. */
  ghost predicate SameShape(fields: seq<Field>, p: Packet, q: Packet) {
    forall i :: 0 <= i < |fields| ==> SameForm(ValueOf(fields[i], p), ValueOf(fields[i], q))
  }

  predicate SameForm(a: Value, b: Value) {
    match a
    case Ip(x) => b.Ip? && (x.V4? <==> b.ip.V4?)
    case Port(_) => b.Port?
    case Domain(x) => b.Domain? && (x.Some? <==> b.id.Some?)
    case Template(x) => b.Template? && (x.Some? <==> b.template.Some?)
  }

  lemma WordBytesInjective(v: Word, w: Word)
    ensures WordBytes(v) == WordBytes(w) <==> v == w
  {
    if WordBytes(v) == WordBytes(w) {
      assert WordBytes(v)[0] == WordBytes(w)[0] && WordBytes(v)[1] == WordBytes(w)[1];
    }
  }

  lemma DomainBytesInjective(a: nat, b: nat)
    requires a < 0x1_0000_0000 && b < 0x1_0000_0000
    ensures a == b <==>
      WordBytes(a / 0x1_0000) + WordBytes(a % 0x1_0000) == WordBytes(b / 0x1_0000) + WordBytes(b % 0x1_0000)
  {
    var x, y := WordBytes(a / 0x1_0000) + WordBytes(a % 0x1_0000), WordBytes(b / 0x1_0000) + WordBytes(b % 0x1_0000);
    if x == y {
      assert x[..2] == WordBytes(a / 0x1_0000) && y[..2] == WordBytes(b / 0x1_0000);
      assert x[2..] == WordBytes(a % 0x1_0000) && y[2..] == WordBytes(b % 0x1_0000);
      WordBytesInjective(a / 0x1_0000, b / 0x1_0000);
      WordBytesInjective(a % 0x1_0000, b % 0x1_0000);
    }
  }

  /** One field: equal form means equal length, and then equal bytes mean an equal value. */
  lemma EncodeFaithful(f: Field, p: Packet, q: Packet)
    ensures ValueOf(f, p) == ValueOf(f, q) ==> Encode(f, p) == Encode(f, q)
    ensures SameForm(ValueOf(f, p), ValueOf(f, q)) <==> |Encode(f, p)| == |Encode(f, q)|
    ensures SameForm(ValueOf(f, p), ValueOf(f, q)) && Encode(f, p) == Encode(f, q) ==> ValueOf(f, p) == ValueOf(f, q)
  {
    match f {
      case SrcPort => WordBytesInjective(p.srcPort, q.srcPort);
      case DstPort => WordBytesInjective(p.dstPort, q.dstPort);
      case Ipfix =>
        var a, b := ObservationDomainId(p.payload), ObservationDomainId(q.payload);
        if a.Some? && b.Some? { DomainBytesInjective(a.value, b.value); }
      case IpfixTemplateId =>
        var a, b := TemplateId(p.payload), TemplateId(q.payload);
        if a.Some? && b.Some? { WordBytesInjective(a.value, b.value); }
      case _ =>
    }
  }

  /** Packets that agree on every selected field get the same key. */
  lemma {:induction false} AgreeSameKey(fields: seq<Field>, p: Packet, q: Packet)
    requires Agree(fields, p, q)
    ensures KeyOf(fields, p) == KeyOf(fields, q)
  {
    if fields != [] {
      AgreeSameKey(fields[..|fields| - 1], p, q);
      AgreeOn(fields, fields[|fields| - 1], p, q);
      EncodeFaithful(fields[|fields| - 1], p, q);
    }
  }

  lemma SameParts(a: seq<Byte>, x: seq<Byte>, b: seq<Byte>, y: seq<Byte>)
    requires a + x == b + y && |x| == |y|
    ensures a == b && x == y
  {
    assert a == (a + x)[..|a|] && b == (b + y)[..|b|];
    assert x == (a + x)[|a|..] && y == (b + y)[|b|..];
  }

  lemma AgreeMore(fields: seq<Field>, f: Field, p: Packet, q: Packet)
    requires Agree(fields, p, q) && ValueOf(f, p) == ValueOf(f, q)
    ensures Agree(fields + [f], p, q)
  {
    hide ObservationDomainId, TemplateId;
    assert forall g :: g in fields + [f] <==> g in fields || g == f;
  }

  lemma {:induction false} SameKeyAgree(fields: seq<Field>, p: Packet, q: Packet)
    requires SameShape(fields, p, q) && KeyOf(fields, p) == KeyOf(fields, q)
    ensures Agree(fields, p, q)
  {
    hide Encode, ValueOf, SameForm;
    if fields != [] {
      var init, f := fields[..|fields| - 1], fields[|fields| - 1];
      EncodeFaithful(f, p, q);
      SameParts(KeyOf(init, p), Encode(f, p), KeyOf(init, q), Encode(f, q));
      SameKeyAgree(init, p, q);
      AgreeMore(init, f, p, q);
      assert fields == init + [f];
    }
  }

  /** Every IPFIX field that q has, p has as well. */
  ghost predicate Richer(p: Packet, q: Packet) {
    && (ObservationDomainId(q.payload).Some? ==> ObservationDomainId(p.payload).Some?)
    && (TemplateId(q.payload).Some? ==> TemplateId(p.payload).Some?)
  }

  /** A template comes with a domain, so of two packets one has every IPFIX field of the other. */
  lemma EitherRicher(p: Packet, q: Packet)
    ensures Richer(p, q) || Richer(q, p)
  {
  }

  /** Each field of the richer packet is encoded at least as long, and equally long only in the same form. */
  lemma EncodeLengths(fields: seq<Field>, i: nat, p: Packet, q: Packet)
    requires i < |fields| && SameFamilies(fields, p, q) && Richer(p, q)
    ensures |Encode(fields[i], p)| >= |Encode(fields[i], q)|
    ensures |Encode(fields[i], p)| == |Encode(fields[i], q)| ==> SameForm(ValueOf(fields[i], p), ValueOf(fields[i], q))
  {
    hide ObservationDomainId, TemplateId;
    EncodeFaithful(fields[i], p, q);
  }

  /** Within the same families the lengths of the keys already give away which IPFIX fields are present. */
  lemma {:induction false} LengthsTellShape(fields: seq<Field>, p: Packet, q: Packet)
    requires SameFamilies(fields, p, q) && Richer(p, q)
    ensures |KeyOf(fields, p)| >= |KeyOf(fields, q)|
    ensures |KeyOf(fields, p)| == |KeyOf(fields, q)| ==> SameShape(fields, p, q)
  {
    hide Encode, Richer, SameForm, ValueOf;
    if fields != [] {
      LengthsTellShape(fields[..|fields| - 1], p, q);
      EncodeLengths(fields, |fields| - 1, p, q);
    }
  }

  lemma ShapeSymmetric(fields: seq<Field>, p: Packet, q: Packet)
    requires SameShape(fields, p, q)
    ensures SameShape(fields, q, p)
  {
  }

  lemma AgreeSameFamilies(fields: seq<Field>, p: Packet, q: Packet)
    requires Agree(fields, p, q)
    ensures SameFamilies(fields, p, q)
  {
  }

  /**
    The key is faithful: two packets agree on every selected field if and only if they have the same key and the
    selected addresses are of the same families. The packets of one listener always are of the same families, as all
    its sockets are bound to one address, so there no two flows share a key.
   */
  lemma KeyFaithful(fields: seq<Field>, p: Packet, q: Packet)
    ensures Agree(fields, p, q) <==> KeyOf(fields, p) == KeyOf(fields, q) && SameFamilies(fields, p, q)
    ensures (p.srcIp.V4? <==> q.srcIp.V4?) && (p.dstIp.V4? <==> q.dstIp.V4?) ==>
      (KeyOf(fields, p) == KeyOf(fields, q) <==> Agree(fields, p, q))
  {
    hide KeyOf, Agree, SameShape, Richer;
    if Agree(fields, p, q) {
      AgreeSameKey(fields, p, q);
      AgreeSameFamilies(fields, p, q);
    } else if KeyOf(fields, p) == KeyOf(fields, q) && SameFamilies(fields, p, q) {
      EitherRicher(p, q);
      FamiliesSymmetric(fields, p, q);
      if Richer(p, q) {
        LengthsTellShape(fields, p, q);
      } else {
        LengthsTellShape(fields, q, p);
        ShapeSymmetric(fields, q, p);
      }
      SameKeyAgree(fields, p, q);
    }
  }

  lemma FamiliesSymmetric(fields: seq<Field>, p: Packet, q: Packet)
    ensures SameFamilies(fields, p, q) <==> SameFamilies(fields, q, p)
  {
  }

  lemma KeyOfTwo(f: Field, g: Field, p: Packet)
    ensures KeyOf([f, g], p) == Encode(f, p) + Encode(g, p)
  {
    assert KeyOf([], p) == [] && [f][..0] == [];
    assert KeyOf([f], p) == Encode(f, p);
    assert [f, g][..1] == [f];
  }

  /** The function alone, given both families, can yield equal keys: an IPv4 and an IPv6 address swapped. */
  lemma KeysCoincideAcrossFamilies() returns (p: Packet, q: Packet)
    ensures KeyOf([SrcIp, DstIp], p) == KeyOf([SrcIp, DstIp], q) && !Agree([SrcIp, DstIp], p, q)
  {
    var four: Octets4, sixteen: Octets16 := [0, 0, 0, 0], seq(16, _ => 0);
    p, q := Packet(V4(four), V6(sixteen), 0, 0, []), Packet(V6(sixteen), V4(four), 0, 0, []);
    KeyOfTwo(SrcIp, DstIp, p);
    KeyOfTwo(SrcIp, DstIp, q);
    var a: seq<Byte>, b: seq<Byte> := four, sixteen;
    assert a + b == b + a;
    assert ValueOf([SrcIp, DstIp][0], p) != ValueOf([SrcIp, DstIp][0], q);
  }

  /**
    Keyed by source address, no packet of one client is served while 10.0.0.5:53 is the only backend, though it is up.
   */
  lemma UnservedFlow(p: Packet, weight: real, curve: (nat, real) -> real)
    requires p.srcIp == V6(Fnv.UnservedClient()) && weight > 0.0
    ensures Rendezvous.Choose(Rendezvous.Lone(weight, curve), [true], KeyOf([SrcIp], p)) == None
  {
    hide Fnv.UnservedClient, Rendezvous.Choose, Rendezvous.Lone;
    var client: seq<Byte> := Fnv.UnservedClient();
    assert [SrcIp][..0] == [];
    assert KeyOf([SrcIp], p) == [] + client == client;
    Rendezvous.ZeroHashNeverWins(weight, curve);
  }

  /**
    Flow affinity with rendezvous hashing, over failures and recoveries: a later packet of a flow goes where the first
    one went exactly when that backend is up and no newcomer beats it.
   */
  lemma RendezvousAffinity(pool: Rendezvous.Pool, flags: seq<bool>, flips: seq<Rendezvous.Flip>,
                           fields: seq<Field>, p: Packet, q: Packet)
    requires |flags| == |pool.backends| && Agree(fields, p, q)
    requires Rendezvous.Choose(pool, flags, KeyOf(fields, p)).Some?
    ensures var b, now := Rendezvous.Choose(pool, flags, KeyOf(fields, p)).value, Rendezvous.Flipped(flags, flips);
      Rendezvous.Choose(pool, now, KeyOf(fields, q)) == Some(b) <==>
        Rendezvous.KeepsPlace(pool, flags, now, KeyOf(fields, p), b)
  {
    AgreeSameKey(fields, p, q);
    Rendezvous.KeysMoveOnlyForCause(pool, flags, flips, KeyOf(fields, p));
  }

  /**
    Flow affinity with Maglev while lookups, flag reads, rebuilds and health flips interleave: when packet p of a flow
    finds backend b up in its slot and no rebuild is under way, then, as long as no first look finds an owner down, a
    later packet q of the flow that is looked up undisturbed is answered with b exactly when b is up.
   */
  lemma MaglevAffinity(pool: Maglev.Pool, engine: Engine, s: TableProtocol.System, actions: seq<TableProtocol.Action>,
                       u: nat, fields: seq<Field>, p: Packet, q: Packet)
    requires pool.Valid() && engine == Maglev.EngineOf(pool) && TableProtocol.Sane(engine, s) && Agree(fields, p, q)
    ensures Sound(engine) && engine.index(KeyOf(fields, p)) < engine.size
    ensures var glance := TableProtocol.Look(engine, s, engine.index(KeyOf(fields, p)));
      var end := TableProtocol.Execute(engine, s, actions);
      glance.Up? && TableProtocol.Quiet(engine, s, actions)
      && u in end.tasks && end.tasks[u] == TableProtocol.Asked(KeyOf(fields, q)) ==>
        && glance.b < |end.flags|
        && u in TableProtocol.Solo(engine, end, u).tasks && TableProtocol.Solo(engine, end, u).tasks[u].Answered?
        && (TableProtocol.Solo(engine, end, u).tasks[u].result == Some(glance.b) <==> end.flags[glance.b])
  {
    hide *;
    Maglev.EngineIsSound(pool);
    SoundIndex(engine, KeyOf(fields, p));
    AgreeSameKey(fields, p, q);
    var glance := TableProtocol.Look(engine, s, engine.index(KeyOf(fields, p)));
    var end := TableProtocol.Execute(engine, s, actions);
    if glance.Up? && TableProtocol.Quiet(engine, s, actions)
      && u in end.tasks && end.tasks[u] == TableProtocol.Asked(KeyOf(fields, q)) {
      TableProtocol.QuietSticky(engine, s, actions, u);
    }
  }

  /**
    Flow affinity with Maglev when lookups are single steps, over failures and recoveries: when packet p of a flow was
    answered with backend b, then, as long as no lookup has found the owner of its slot down, a later packet q of the
    flow is answered with b exactly when b is up.
   */
  lemma MaglevAffinitySingly(pool: Maglev.Pool, engine: Engine, s: State, ops: seq<Op>,
                     fields: seq<Field>, p: Packet, q: Packet)
    requires pool.Valid() && engine == Maglev.EngineOf(pool) && Consistent(engine, s) && Agree(fields, p, q)
    ensures Sound(engine)
    ensures var (s', first) := LookupStep(engine, s, KeyOf(fields, p));
      first.Some? && OwnersUpAtLookups(engine, s', ops) ==>
        && first.value < |Run(engine, s', ops).flags|
        && (ResultAfter(engine, s', ops, KeyOf(fields, q)) == first <==> Run(engine, s', ops).flags[first.value])
  {
    hide Maglev.EngineOf, Sound, OwnersUpAtLookups, LookupStep, KeyOf, Agree, ResultAfter, Run;
    Maglev.EngineIsSound(pool);
    AgreeSameKey(fields, p, q);
    var (s', first) := LookupStep(engine, s, KeyOf(fields, p));
    if first.Some? && OwnersUpAtLookups(engine, s', ops) {
      AnswerOwnsSlot(engine, s, KeyOf(fields, p));
      Sticky(engine, s', ops, KeyOf(fields, p));
    }
  }
}
