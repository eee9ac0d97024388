/** What the hash key takes from an IPFIX message, against the layout of RFC 7011. */
module Ipfix {
  import opened Net
  import opened Numbers

  /** The observation domain of an IPFIX message: version 10, bytes 12 to 15 (section 3.1 of RFC 7011). */
  function ObservationDomainId(payload: seq<Byte>): (r: Option<nat>)
    ensures r.Some? ==> r.value < 0x1_0000_0000
  {
    if |payload| < 16 || BigEndian(payload[0], payload[1]) != 10 then None
    else Some(BigEndian(payload[12], payload[13]) * 0x1_0000 + BigEndian(payload[14], payload[15]))
  }

  /** The template of a leading data set: a set identifier of at least 256 (section 3.3.2 of RFC 7011). */
  function TemplateId(payload: seq<Byte>): Option<Word> {
    if |payload| < 18 || BigEndian(payload[0], payload[1]) != 10 then None
    else
      var id := BigEndian(payload[16], payload[17]);
      if id >= 256 then Some(id) else None
  }

  /** A message header (section 3.1 of RFC 7011) and what follows it. */
  datatype Message = Message(version: nat, length: nat, exportTime: nat, sequence: nat, domain: nat, sets: seq<Byte>)
  {
    ghost predicate Fits() {
      && version < 0x1_0000 && length < 0x1_0000
      && exportTime < 0x1_0000_0000 && sequence < 0x1_0000_0000 && domain < 0x1_0000_0000
    }

    function Encoded(): seq<Byte> {
      Octets(version, 2) + Octets(length, 2) + Octets(exportTime, 4) + Octets(sequence, 4) + Octets(domain, 4) + sets
    }
  }

  /** The fields of a message, by their places. */
  lemma FieldPlaces(m: Message)
    requires m.Fits()
    ensures var bytes := m.Encoded();
      && |bytes| >= 16 && bytes[16..] == m.sets
      && Number(bytes[0..2]) == m.version && Number(bytes[2..4]) == m.length && Number(bytes[4..8]) == m.exportTime
      && Number(bytes[8..12]) == m.sequence && Number(bytes[12..16]) == m.domain
  {
    hide Octets, Number, Limit;
    Limits();
    NumberOfOctets(m.version, 2);
    NumberOfOctets(m.length, 2);
    NumberOfOctets(m.exportTime, 4);
    NumberOfOctets(m.sequence, 4);
    NumberOfOctets(m.domain, 4);
    var bytes := m.Encoded();
    assert bytes[0..2] == Octets(m.version, 2) && bytes[2..4] == Octets(m.length, 2);
    assert bytes[4..8] == Octets(m.exportTime, 4) && bytes[8..12] == Octets(m.sequence, 4);
    assert bytes[12..16] == Octets(m.domain, 4) && bytes[16..] == m.sets;
  }

  /** Every payload of at least sixteen bytes is a message with some header. */
  lemma AnyMessage(payload: seq<Byte>) returns (m: Message)
    requires |payload| >= 16
    ensures m.Fits() && payload == m.Encoded()
  {
    hide Octets, Number, Limit;
    Limits();
    OctetsOfNumber(payload[0..2]);
    OctetsOfNumber(payload[2..4]);
    OctetsOfNumber(payload[4..8]);
    OctetsOfNumber(payload[8..12]);
    OctetsOfNumber(payload[12..16]);
    m := Message(Number(payload[0..2]), Number(payload[2..4]), Number(payload[4..8]), Number(payload[8..12]),
                 Number(payload[12..16]), payload[16..]);
    assert payload == payload[0..2] + payload[2..4] + payload[4..8] + payload[8..12] + payload[12..16] + payload[16..];
  }

  /** The domain read from a message is the one in its header if and only if the version is 10. */
  lemma DomainExact(m: Message)
    requires m.Fits()
    ensures ObservationDomainId(m.Encoded()) == if m.version == 10 then Some(m.domain) else None
  {
    var bytes := m.Encoded();
    FieldPlaces(m);
    NumberTwo(bytes[0..2]);
    NumberFour(bytes[12..16]);
  }

  /**
    The template read from a message is the identifier with which its first set begins (section 3.3.2 of RFC 7011), its
    length and contents being the rest, if and only if the version is 10 and that set is a data set.
   */
  lemma TemplateExact(m: Message, id: nat, rest: seq<Byte>)
    requires m.Fits() && id < 0x1_0000 && m.sets == Octets(id, 2) + rest
    ensures TemplateId(m.Encoded()) == if m.version == 10 && id >= 256 then Some(id) else None
  {
    var bytes := m.Encoded();
    FieldPlaces(m);
    NumberTwo(bytes[0..2]);
    Limits();
    NumberOfOctets(id, 2);
    assert bytes[16..18] == bytes[16..][..2] == Octets(id, 2);
    NumberTwo(bytes[16..18]);
  }

  /** The fields are absent when the payload ends before them. */
  lemma TooShort(payload: seq<Byte>)
    ensures |payload| < 16 ==> ObservationDomainId(payload) == None
    ensures |payload| < 18 ==> TemplateId(payload) == None
    ensures TemplateId(payload).Some? ==> ObservationDomainId(payload).Some?
  {
  }
}
