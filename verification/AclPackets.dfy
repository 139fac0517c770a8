/** What the access control list reads out of an IPv4 packet (crates/peercove-core/src/acl.rs). */
module AclPackets {
  import opened Options

  type Packet = seq<Byte>

  type Ip = nat

  const ICMP := 1
  const TCP := 6
  const UDP := 17

  datatype Header = Header(src: Ip, dst: Ip, protocol: Byte, length: nat)

  datatype Fields = Fields(src: Ip, dst: Ip, protocol: Byte, port: Option<nat>)

  /** The direction that an answer takes. */
  datatype ReplyKey =
    | Transport(src: Ip, dst: Ip, protocol: Byte, srcPort: nat, dstPort: nat)
    | IcmpEcho(src: Ip, dst: Ip, kind: Byte, identifier: nat)

  datatype FragmentKey = FragmentKey(src: Ip, dst: Ip, protocol: Byte, identification: nat)

  datatype Candidate =
    | TransportOf(reply: ReplyKey, protocol: Byte, opens: bool)
    | EchoRequest(reply: ReplyKey)
    | Other

  function U16(p: Packet, i: nat): nat
    requires i + 1 < |p|
  {
    (p[i] as nat) * 256 + p[i + 1]
  }

  function Addr(p: Packet, i: nat): Ip
    requires i + 3 < |p|
  {
    U16(p, i) * 0x1_0000 + U16(p, i + 2)
  }

  function Bit(b: Byte, weight: nat): bool
    requires weight > 0
  {
    b / weight % 2 == 1
  }

  function Ipv4(p: Packet): (r: Option<Header>)
    ensures r.Some? ==> 20 <= r.value.length <= |p|
  {
    if |p| < 20 || p[0] / 16 != 4 then None
    else
      var length := p[0] % 16 * 4;
      if length < 20 || |p| < length then None
      else Some(Header(Addr(p, 12), Addr(p, 16), p[9], length))
  }

  predicate InitialFragment(p: Packet) {
    |p| >= 8 && U16(p, 6) % 0x2000 == 0
  }

  predicate MoreFragments(p: Packet) {
    |p| >= 8 && Bit(p[6], 0x20)
  }

  /** Later fragments carry no ports, so none is read from them. */
  function PacketFields(p: Packet): Option<Fields> {
    match Ipv4(p)
    case None => None
    case Some(h) =>
      var port := if (h.protocol == TCP || h.protocol == UDP) && InitialFragment(p) && |p| >= h.length + 4
                  then Some(U16(p, h.length + 2)) else None;
      Some(Fields(h.src, h.dst, h.protocol, port))
  }

  /** An opening TCP segment has SYN set and ACK clear; every UDP datagram opens. */
  predicate Opens(p: Packet, h: Header)
    requires h.length <= |p|
  {
    h.protocol == UDP || (|p| >= h.length + 14 && Bit(p[h.length + 13], 0x02) && !Bit(p[h.length + 13], 0x10))
  }

  function SessionCandidate(p: Packet): Option<Candidate> {
    if !InitialFragment(p) then None
    else
      match Ipv4(p)
      case None => None
      case Some(h) =>
        if (h.protocol == TCP || h.protocol == UDP) && |p| >= h.length + 4 then
          Some(TransportOf(
            Transport(h.dst, h.src, h.protocol, U16(p, h.length + 2), U16(p, h.length)),
            h.protocol, Opens(p, h)))
        else if h.protocol == ICMP && |p| >= h.length + 8 && p[h.length] == 8 then
          Some(EchoRequest(IcmpEcho(h.dst, h.src, 0, U16(p, h.length + 4))))
        else Some(Other)
  }

  function PacketReplyKey(p: Packet): Option<ReplyKey> {
    if !InitialFragment(p) then None
    else
      match Ipv4(p)
      case None => None
      case Some(h) =>
        if (h.protocol == TCP || h.protocol == UDP) && |p| >= h.length + 4 then
          Some(Transport(h.src, h.dst, h.protocol, U16(p, h.length), U16(p, h.length + 2)))
        else if h.protocol == ICMP && |p| >= h.length + 8 && (p[h.length] == 0 || p[h.length] == 8) then
          Some(IcmpEcho(h.src, h.dst, p[h.length], U16(p, h.length + 4)))
        else None
  }

  function FragmentKeyOf(p: Packet): Option<FragmentKey> {
    match Ipv4(p)
    case None => None
    case Some(h) => Some(FragmentKey(h.src, h.dst, h.protocol, U16(p, 4)))
  }

  /** A packet that may open a session: UDP, TCP with SYN but no ACK, or an ICMP echo request. */
  ghost predicate OpeningPacket(p: Packet) {
    && InitialFragment(p) && Ipv4(p).Some?
    && var h := Ipv4(p).value;
       || (h.protocol == UDP && |p| >= h.length + 4)
       || (h.protocol == TCP && |p| >= h.length + 14 && Bit(p[h.length + 13], 0x02) && !Bit(p[h.length + 13], 0x10))
       || (h.protocol == ICMP && |p| >= h.length + 8 && p[h.length] == 8)
  }

  /** `p` answers in the direction opposite to `o`: ends and ports swapped, or the echo of a request. */
  ghost predicate Reverses(p: Packet, o: Packet) {
    && Ipv4(p).Some? && Ipv4(o).Some?
    && var hp, ho := Ipv4(p).value, Ipv4(o).value;
       && hp.src == ho.dst && hp.dst == ho.src && hp.protocol == ho.protocol
       && if hp.protocol == ICMP then
            && |p| >= hp.length + 8 && |o| >= ho.length + 8
            && p[hp.length] == 0 && o[ho.length] == 8
            && U16(p, hp.length + 4) == U16(o, ho.length + 4)
          else
            && |p| >= hp.length + 4 && |o| >= ho.length + 4
            && U16(p, hp.length) == U16(o, ho.length + 2) && U16(p, hp.length + 2) == U16(o, ho.length)
  }

  function KeyOpenedBy(c: Option<Candidate>): Option<ReplyKey> {
    match c
    case Some(TransportOf(reply, _, true)) => Some(reply)
    case Some(EchoRequest(reply)) => Some(reply)
    case _ => None
  }

  function OpenedKey(p: Packet): Option<ReplyKey> {
    KeyOpenedBy(SessionCandidate(p))
  }

  /** The key under which a session is opened is met exactly by the packets that go the other way. */
  lemma KeyMeansReversed(p: Packet, o: Packet)
    ensures OpenedKey(o).Some? <==> OpeningPacket(o)
    ensures PacketReplyKey(p).Some? && OpenedKey(o).Some? ==>
      (PacketReplyKey(p) == OpenedKey(o) <==> Reverses(p, o))
  {
  }
}
