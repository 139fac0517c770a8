/**
  IPv4 packets as they are written down: section 3.1 of RFC 791, with TCP (section 3.1 of RFC 793), UDP
  (RFC 768) and ICMP echo messages (RFC 792) inside; and that the access rules read them as written.
*/
module PacketFormat {
  import opened Options
  import opened AclPackets

  type Word = n: nat | n < 0x1_0000
  type Long = n: nat | n < 0x1_0000_0000

  datatype Datagram = Datagram(
    serviceType: Byte,
    totalLength: Word,
    identification: Word,
    reserved: bool,
    dontFragment: bool,
    moreFragments: bool,
    fragmentOffset: nat,
    timeToLive: Byte,
    protocol: Byte,
    checksum: Word,
    source: Long,
    destination: Long,
    options: Packet,
    payload: Packet)

  /** Options fill up to ten words of four bytes, and the offset has thirteen bits. */
  ghost predicate Valid(d: Datagram) {
    d.fragmentOffset < 0x2000 && |d.options| % 4 == 0 && |d.options| <= 40
  }

  function One(flag: bool, weight: nat): nat {
    if flag then weight else 0
  }

  function High(n: Word): Byte {
    n / 256
  }

  function Low(n: Word): Byte {
    n % 256
  }

  /** One of the four bytes of a number, the highest first. */
  function Octet(n: Long, k: nat): Byte
    requires k < 4
  {
    var word := if k < 2 then n / 0x1_0000 else n % 0x1_0000;
    if k % 2 == 0 then High(word) else Low(word)
  }

  function FixedHeader(d: Datagram): (r: Packet)
    requires Valid(d)
    ensures |r| == 20
  {
    [4 * 16 + 5 + |d.options| / 4, d.serviceType, High(d.totalLength), Low(d.totalLength),
     High(d.identification), Low(d.identification),
     One(d.reserved, 128) + One(d.dontFragment, 64) + One(d.moreFragments, 32) + d.fragmentOffset / 256, d.fragmentOffset % 256,
     d.timeToLive, d.protocol, High(d.checksum), Low(d.checksum),
     Octet(d.source, 0), Octet(d.source, 1), Octet(d.source, 2), Octet(d.source, 3),
     Octet(d.destination, 0), Octet(d.destination, 1), Octet(d.destination, 2), Octet(d.destination, 3)]
  }

  function Encode(d: Datagram): (r: Packet)
    requires Valid(d)
    ensures |r| == 20 + |d.options| + |d.payload|
  {
    FixedHeader(d) + d.options + d.payload
  }

  // ----- the fields of the header -----

  lemma HeaderBytes(d: Datagram)
    requires Valid(d)
    ensures forall i | 0 <= i < 20 :: Encode(d)[i] == FixedHeader(d)[i]
    ensures forall i | 0 <= i < |d.payload| :: Encode(d)[20 + |d.options| + i] == d.payload[i]
  {
  }

  lemma WordsMakeNumber(n: Word)
    ensures (High(n) as nat) * 256 + Low(n) == n
  {
  }

  lemma OctetsMakeNumber(n: Long)
    ensures ((Octet(n, 0) as nat) * 256 + Octet(n, 1)) * 0x1_0000 + ((Octet(n, 2) as nat) * 256 + Octet(n, 3)) == n
  {
    WordsMakeNumber(n / 0x1_0000);
    WordsMakeNumber(n % 0x1_0000);
  }

  lemma AddressesRead(d: Datagram)
    requires Valid(d)
    ensures Addr(Encode(d), 12) == d.source && Addr(Encode(d), 16) == d.destination
  {
    HeaderBytes(d);
    OctetsMakeNumber(d.source);
    OctetsMakeNumber(d.destination);
  }

  /** Fragments are told by the offset, counted in units, and by the flag behind the reserved one and Don't Fragment. */
  lemma FragmentBitsRead(d: Datagram)
    requires Valid(d)
    ensures InitialFragment(Encode(d)) <==> d.fragmentOffset == 0
    ensures MoreFragments(Encode(d)) <==> d.moreFragments
    ensures U16(Encode(d), 4) == d.identification
  {
    HeaderBytes(d);
    FlagBits(d.reserved, d.dontFragment, d.moreFragments, d.fragmentOffset);
  }

  lemma FlagBits(reserved: bool, dontFragment: bool, moreFragments: bool, offset: nat)
    requires offset < 0x2000
    ensures
      var high := One(reserved, 128) + One(dontFragment, 64) + One(moreFragments, 32) + offset / 256;
      && (high * 256 + offset % 256) % 0x2000 == offset
      && (high / 32 % 2 == 1 <==> moreFragments) && high < 256
  {
    var flags := One(reserved, 4) + One(dontFragment, 2) + One(moreFragments, 1);
    assert (One(reserved, 128) + One(dontFragment, 64) + One(moreFragments, 32) + offset / 256) * 256 + offset % 256 == 0x2000 * flags + offset;
  }

  lemma LengthReads(d: Datagram)
    requires Valid(d)
    ensures Encode(d)[0] / 16 == 4 && Encode(d)[0] % 16 * 4 == 20 + |d.options|
  {
    HeaderBytes(d);
  }

  /** Whatever was written as source, destination and protocol is read back. */
  lemma HeaderIsRead(d: Datagram)
    requires Valid(d)
    ensures Ipv4(Encode(d)) == Some(Header(d.source, d.destination, d.protocol, 20 + |d.options|))
  {
    LengthReads(d);
    AddressesRead(d);
    HeaderBytes(d);
  }

  /** The port to which a first fragment of TCP or UDP goes, if it is there. */
  function DestinationPort(d: Datagram): Option<nat> {
    if (d.protocol == 6 || d.protocol == 17) && d.fragmentOffset == 0 && |d.payload| >= 4
    then Some((d.payload[2] as nat) * 256 + d.payload[3]) else None
  }

  /** And the rules are asked about just these values. */
  lemma FieldsAreRead(d: Datagram)
    requires Valid(d)
    ensures PacketFields(Encode(d)) == Some(Fields(d.source, d.destination, d.protocol, DestinationPort(d)))
  {
    HeaderIsRead(d);
    FragmentBitsRead(d);
    HeaderBytes(d);
  }

  // ----- what the packets carry -----

  datatype Flags = Flags(urgent: bool, ack: bool, push: bool, reset: bool, syn: bool, fin: bool)

  datatype Message =
    | Tcp(sourcePort: Word, destinationPort: Word, sequence: Long, acknowledged: Long, dataOffset: nat, flags: Flags, rest: Packet)
    | Udp(sourcePort: Word, destinationPort: Word, rest: Packet)
    | Echo(request: bool, checksum: Word, identifier: Word, sequenceNumber: Word, rest: Packet)

  ghost predicate ValidMessage(m: Message) {
    m.Tcp? ==> m.dataOffset < 16
  }

  function ProtocolOf(m: Message): Byte {
    match m
    case Tcp(_, _, _, _, _, _, _) => 6
    case Udp(_, _, _) => 17
    case Echo(_, _, _, _, _) => 1
  }

  function FlagByte(f: Flags): Byte {
    One(f.urgent, 32) + One(f.ack, 16) + One(f.push, 8) + One(f.reset, 4) + One(f.syn, 2) + One(f.fin, 1)
  }

  function Content(m: Message): Packet
    requires ValidMessage(m)
  {
    match m
    case Tcp(from, to, seq0, ack0, offset, flags, rest) =>
      [High(from), Low(from), High(to), Low(to),
       Octet(seq0, 0), Octet(seq0, 1), Octet(seq0, 2), Octet(seq0, 3),
       Octet(ack0, 0), Octet(ack0, 1), Octet(ack0, 2), Octet(ack0, 3), offset * 16, FlagByte(flags)] + rest
    case Udp(from, to, rest) => [High(from), Low(from), High(to), Low(to)] + rest
    case Echo(request, checksum, identifier, number, rest) =>
      [if request then 8 else 0, 0, High(checksum), Low(checksum), High(identifier), Low(identifier), High(number), Low(number)] + rest
  }

  /** The packet carries the message whole or as the beginning of its first fragment. */
  ghost predicate Carries(d: Datagram, m: Message) {
    Valid(d) && ValidMessage(m) && d.protocol == ProtocolOf(m) && d.fragmentOffset == 0 && d.payload == Content(m)
  }

  lemma FlagsRead(f: Flags)
    ensures Bit(FlagByte(f), 0x02) <==> f.syn
    ensures Bit(FlagByte(f), 0x10) <==> f.ack
  {
  }

  /** Where the first word of the message is read. */
  lemma PortsRead(d: Datagram, m: Message)
    requires Carries(d, m) && !m.Echo?
    ensures
      var at := 20 + |d.options|;
      && |Encode(d)| >= at + 4
      && U16(Encode(d), at) == m.sourcePort && U16(Encode(d), at + 2) == m.destinationPort
  {
    HeaderBytes(d);
    WordsMakeNumber(m.sourcePort);
    WordsMakeNumber(m.destinationPort);
    assert forall i | 0 <= i < 4 :: Encode(d)[20 + |d.options| + i] == Content(m)[i];
  }

  lemma TcpFlagsRead(d: Datagram, m: Message)
    requires Carries(d, m) && m.Tcp?
    ensures
      var at := 20 + |d.options|;
      && |Encode(d)| >= at + 14
      && (Bit(Encode(d)[at + 13], 0x02) <==> m.flags.syn) && (Bit(Encode(d)[at + 13], 0x10) <==> m.flags.ack)
  {
    HeaderBytes(d);
    FlagsRead(m.flags);
    assert Encode(d)[20 + |d.options| + 13] == Content(m)[13];
  }

  lemma EchoRead(d: Datagram, m: Message)
    requires Carries(d, m) && m.Echo?
    ensures
      var at := 20 + |d.options|;
      && |Encode(d)| >= at + 8 && Encode(d)[at] == (if m.request then 8 else 0) && U16(Encode(d), at + 4) == m.identifier
  {
    HeaderBytes(d);
    WordsMakeNumber(m.identifier);
    assert forall i | 0 <= i < 8 :: Encode(d)[20 + |d.options| + i] == Content(m)[i];
  }

  /** What the session table makes of an allowed packet. */
  function CandidateFor(d: Datagram, m: Message): Candidate {
    match m
    case Tcp(from, to, _, _, _, flags, _) =>
      TransportOf(Transport(d.destination, d.source, 6, to, from), 6, flags.syn && !flags.ack)
    case Udp(from, to, _) => TransportOf(Transport(d.destination, d.source, 17, to, from), 17, true)
    case Echo(request, _, identifier, _, _) =>
      if request then EchoRequest(IcmpEcho(d.destination, d.source, 0, identifier)) else Other
  }

  /** Under which key it looks for the session that a packet answers. */
  function AnswerKeyFor(d: Datagram, m: Message): ReplyKey {
    match m
    case Tcp(from, to, _, _, _, _, _) => Transport(d.source, d.destination, 6, from, to)
    case Udp(from, to, _) => Transport(d.source, d.destination, 17, from, to)
    case Echo(request, _, identifier, _, _) => IcmpEcho(d.source, d.destination, if request then 8 else 0, identifier)
  }

  /** The keys of the session table are those of the message that was written, the way back turned round. */
  lemma KeysAreRead(d: Datagram, m: Message)
    requires Carries(d, m)
    ensures SessionCandidate(Encode(d)) == Some(CandidateFor(d, m))
    ensures PacketReplyKey(Encode(d)) == Some(AnswerKeyFor(d, m))
  {
    HeaderIsRead(d);
    FragmentBitsRead(d);
    match m
    case Tcp(_, _, _, _, _, _, _) =>
      PortsRead(d, m);
      TcpFlagsRead(d, m);
    case Udp(_, _, _) => PortsRead(d, m);
    case Echo(_, _, _, _, _) => EchoRead(d, m);
  }

  /** A later fragment is nobody's answer and opens nothing; all fragments of a datagram share one key. */
  lemma FragmentKeyIsRead(d: Datagram)
    requires Valid(d)
    ensures FragmentKeyOf(Encode(d)) == Some(FragmentKey(d.source, d.destination, d.protocol, d.identification))
    ensures d.fragmentOffset > 0 ==> SessionCandidate(Encode(d)).None? && PacketReplyKey(Encode(d)).None?
  {
    HeaderIsRead(d);
    FragmentBitsRead(d);
  }

  /** The messages that open a session: any over UDP, the first segment of a TCP connection, a request for an echo. */
  lemma OpeningIff(d: Datagram, m: Message)
    requires Carries(d, m)
    ensures OpeningPacket(Encode(d)) <==>
      match m
      case Tcp(_, _, _, _, _, flags, _) => flags.syn && !flags.ack
      case Udp(_, _, _) => true
      case Echo(request, _, _, _, _) => request
  {
    HeaderIsRead(d);
    FragmentBitsRead(d);
    match m
    case Tcp(_, _, _, _, _, _, _) => TcpFlagsRead(d, m);
    case Udp(_, _, _) => PortsRead(d, m);
    case Echo(_, _, _, _, _) => EchoRead(d, m);
  }

  /** One message answers another: between the same two ends and ports the other way, or an echo of the request. */
  ghost predicate Answers(d: Datagram, m: Message, o: Datagram, n: Message) {
    && d.source == o.destination && d.destination == o.source
    && match (m, n)
       case (Tcp(from, to, _, _, _, _, _), Tcp(from', to', _, _, _, _, _)) => from == to' && to == from'
       case (Udp(from, to, _), Udp(from', to', _)) => from == to' && to == from'
       case (Echo(request, _, identifier, _, _), Echo(request', _, identifier', _, _)) =>
         !request && request' && identifier == identifier'
       case _ => false
  }

  lemma ReversesIff(d: Datagram, m: Message, o: Datagram, n: Message)
    requires Carries(d, m) && Carries(o, n)
    ensures Reverses(Encode(d), Encode(o)) <==> Answers(d, m, o, n)
  {
    HeaderIsRead(d);
    HeaderIsRead(o);
    if m.Echo? {
      EchoRead(d, m);
    } else {
      PortsRead(d, m);
    }
    if n.Echo? {
      EchoRead(o, n);
    } else {
      PortsRead(o, n);
    }
  }

  // ----- every packet that is read was written so -----

  lemma NumberInOctets(a: Byte, b: Byte, c: Byte, d: Byte)
    ensures
      var n := ((a as nat) * 256 + b) * 0x1_0000 + ((c as nat) * 256 + d);
      n < 0x1_0000_0000 && Octet(n, 0) == a && Octet(n, 1) == b && Octet(n, 2) == c && Octet(n, 3) == d
  {
    WordInBytes(a, b);
    WordInBytes(c, d);
  }

  lemma FlagsOfByte(high: Byte, low: Byte)
    ensures
      var offset := (high as nat) % 32 * 256 + low;
      && offset < 0x2000 && offset % 256 == low
      && One(high / 128 == 1, 128) + One(high / 64 % 2 == 1, 64) + One(high / 32 % 2 == 1, 32) + offset / 256 == high
  {
  }

  lemma WordInBytes(a: Byte, b: Byte)
    ensures (a as nat) * 256 + b < 0x1_0000 && High((a as nat) * 256 + b) == a && Low((a as nat) * 256 + b) == b
  {
  }

  lemma Split(p: Packet, length: nat)
    requires 20 <= length <= |p|
    ensures p == p[..20] + p[20..length] + p[length..]
  {
  }

  lemma Readable(p: Packet) returns (d: Datagram)
    requires Ipv4(p).Some?
    ensures Valid(d) && Encode(d) == p
  {
    var length := Ipv4(p).value.length;
    WordInBytes(p[2], p[3]);
    WordInBytes(p[4], p[5]);
    WordInBytes(p[10], p[11]);
    NumberInOctets(p[12], p[13], p[14], p[15]);
    NumberInOctets(p[16], p[17], p[18], p[19]);
    FlagsOfByte(p[6], p[7]);
    d := Datagram(
      p[1], (p[2] as nat) * 256 + p[3], (p[4] as nat) * 256 + p[5],
      p[6] / 128 == 1, p[6] / 64 % 2 == 1, p[6] / 32 % 2 == 1, (p[6] as nat) % 32 * 256 + p[7],
      p[8], p[9], (p[10] as nat) * 256 + p[11], Addr(p, 12), Addr(p, 16), p[20..length], p[length..]);
    Split(p, length);
    SameHeader(p, d, length);
  }

  lemma SameHeader(p: Packet, d: Datagram, length: nat)
    requires Ipv4(p).Some? && length == Ipv4(p).value.length && Valid(d) && |d.options| == length - 20
    requires
      && d.serviceType == p[1] && High(d.totalLength) == p[2] && Low(d.totalLength) == p[3]
      && High(d.identification) == p[4] && Low(d.identification) == p[5]
      && One(d.reserved, 128) + One(d.dontFragment, 64) + One(d.moreFragments, 32) + d.fragmentOffset / 256 == p[6]
      && d.fragmentOffset % 256 == p[7] && d.timeToLive == p[8] && d.protocol == p[9]
      && High(d.checksum) == p[10] && Low(d.checksum) == p[11]
    requires forall k | 0 <= k < 4 :: Octet(d.source, k) == p[12 + k] && Octet(d.destination, k) == p[16 + k]
    ensures FixedHeader(d) == p[..20]
  {
    assert 4 * 16 + 5 + |d.options| / 4 == p[0];
  }

  /** A packet is readable exactly if it was written in this format. */
  lemma ReadableIff(p: Packet)
    ensures Ipv4(p).Some? <==> exists d: Datagram :: Valid(d) && Encode(d) == p
  {
    if Ipv4(p).Some? {
      var d := Readable(p);
    }
    if d: Datagram :| Valid(d) && Encode(d) == p {
      HeaderIsRead(d);
    }
  }
}
