/** The reply to a query (crates/peercove-cli/src/dns.rs, 149-275), and how any resolver would read it. */
module DnsReplies {
  import opened Options
  import opened Dns

  // ----- looking a name up -----

  function FirstDot(name: Bytes): (r: Option<nat>)
    ensures r.Some? ==> r.value < |name| && name[r.value] == DOT && forall i | 0 <= i < r.value :: name[i] != DOT
    ensures r.None? ==> forall i | 0 <= i < |name| :: name[i] != DOT
  {
    if name == [] then None
    else if name[0] == DOT then Some(0)
    else match FirstDot(name[1..]) case None => None case Some(i) => Some(i + 1)
  }

  /** The name with its first label replaced by a star. */
  function Starred(name: Bytes): Option<Bytes> {
    match FirstDot(name)
    case None => None
    case Some(i) => Some([STAR] + name[i..])
  }

  function WildcardLookup<T>(m: map<Bytes, T>, name: Bytes): Option<T> {
    match FirstDot(name)
    case None => None
    case Some(i) => Lookup(m, [STAR, DOT] + name[i + 1..])
  }

  datatype Answer = Address(ip: Ip) | Elsewhere(target: Bytes) | NoSuchName

  /** Exact name before wildcard, address before alias. */
  function Resolve(zone: Zone, name: Bytes): Answer {
    var star := Starred(name);
    if name in zone.a then Address(zone.a[name])
    else if star.Some? && star.value in zone.a then Address(zone.a[star.value])
    else if name in zone.cname then AnswerOf(zone.cname[name])
    else if star.Some? && star.value in zone.cname then AnswerOf(zone.cname[star.value])
    else NoSuchName
  }

  function AnswerOf(alias: Alias): Answer {
    if alias.ip.Some? then Address(alias.ip.value) else Elsewhere(alias.target)
  }

  lemma WildcardIsStarred<T>(m: map<Bytes, T>, name: Bytes)
    ensures WildcardLookup(m, name) == if Starred(name).Some? then Lookup(m, Starred(name).value) else None
  {
    var at := FirstDot(name);
    if at.Some? {
      assert [STAR, DOT] + name[at.value + 1..] == [STAR] + name[at.value..];
    }
  }

  // ----- the reply -----

  function OrElse<T>(a: Option<T>, b: Option<T>): Option<T> {
    if a.Some? then a else b
  }

  function Opcode(query: Bytes): nat
    requires |query| >= 12
  {
    query[2] / 8 % 16
  }

  function Header(query: Bytes, rcode: Byte, answers: nat, echo: bool): (h: Bytes)
    requires |query| >= 12 && rcode < 16
    ensures |h| == 12
  {
    [query[0], query[1], 128 + 8 * Opcode(query) + 4 + query[2] % 2, rcode]
    + U16(if echo then 1 else 0) + U16(answers) + [0, 0, 0, 0]
  }

  /** A record for the name of the question, to which the first two bytes point. */
  function RecordBytes(rtype: nat, data: Bytes): (r: Bytes)
    ensures |r| == 12 + |data|
  {
    [0xC0, 0x0C] + U16(rtype) + U16(CLASS_IN) + U32(TTL_SECS) + U16(|data| % 0x1_0000) + data
  }

  function AddressReply(query: Bytes, q: Question, ip: Ip): Bytes
    requires 16 < q.end <= |query|
  {
    var answered := q.qtype == TYPE_A && q.qclass == CLASS_IN;
    Header(query, NOERROR, if answered then 1 else 0, true) + query[12..q.end]
    + if answered then RecordBytes(TYPE_A, U32(ip)) else []
  }

  function AliasReply(query: Bytes, q: Question, target: Bytes): Bytes
    requires 16 < q.end <= |query|
  {
    var answered := q.qclass == CLASS_IN;
    Header(query, NOERROR, if answered then 1 else 0, true) + query[12..q.end]
    + if answered then RecordBytes(TYPE_CNAME, Encoded(target)) else []
  }

  function Respond(query: Bytes, zone: Zone): Option<Bytes> {
    if |query| < 12 then None
    else if query[2] >= 0x80 then None
    else if Opcode(query) != 0 then Some(Header(query, NOTIMP, 0, false))
    else if ReadU16(query, 4) != 1 then Some(Header(query, FORMERR, 0, false))
    else
      match QuestionOf(query)
      case None => Some(Header(query, FORMERR, 0, false))
      case Some(q) =>
        var ip := OrElse(Lookup(zone.a, q.name), WildcardLookup(zone.a, q.name));
        if ip.Some? then Some(AddressReply(query, q, ip.value))
        else
          var alias := OrElse(Lookup(zone.cname, q.name), WildcardLookup(zone.cname, q.name));
          if alias.Some? then
            if alias.value.ip.Some? then Some(AddressReply(query, q, alias.value.ip.value))
            else Some(AliasReply(query, q, alias.value.target))
          else Some(Header(query, NXDOMAIN, 0, true) + query[12..q.end])
  }

  // ----- how a resolver reads a message (section 4.1 of RFC 1035) -----

  datatype Record = Record(name: seq<Bytes>, rtype: nat, rclass: nat, ttl: nat, data: Bytes)

  datatype Asked = Asked(name: seq<Bytes>, qtype: nat, qclass: nat)

  datatype Flags = Flags(
    response: bool,
    opcode: nat,
    authoritative: bool,
    truncated: bool,
    recursionDesired: bool,
    recursionAvailable: bool,
    reserved: nat,
    rcode: nat)

  datatype Reply = Reply(id: nat, flags: Flags, questions: seq<Asked>, answers: seq<Record>)

  function ReadFlags(m: Bytes): Flags
    requires |m| >= 12
  {
    Flags(m[2] >= 128, m[2] / 8 % 16, m[2] / 4 % 2 == 1, m[2] / 2 % 2 == 1, m[2] % 2 == 1,
          m[3] >= 128, m[3] / 16 % 8, m[3] % 16)
  }

  /** Labels, or a pointer to labels further up. */
  function ReadName(m: Bytes, pos: nat): (r: Option<(seq<Bytes>, nat)>)
    ensures r.Some? ==> pos < r.value.1 <= |m|
  {
    if pos + 2 <= |m| && m[pos] >= 192 then
      match ReadLabels(m, 256 * (m[pos] as nat - 192) + m[pos + 1] as nat)
      case None => None
      case Some((labels, _)) => Some((labels, pos + 2))
    else ReadLabels(m, pos)
  }

  function ReadQuestions(m: Bytes, pos: nat, n: nat): (r: Option<(seq<Asked>, nat)>)
    decreases n
  {
    if n == 0 then Some(([], pos))
    else
      match ReadName(m, pos)
      case None => None
      case Some((name, end)) =>
        if end + 4 > |m| then None
        else
          match ReadQuestions(m, end + 4, n - 1)
          case None => None
          case Some((more, last)) => Some(([Asked(name, ReadU16(m, end), ReadU16(m, end + 2))] + more, last))
  }

  function ReadRecords(m: Bytes, pos: nat, n: nat): (r: Option<(seq<Record>, nat)>)
    decreases n
  {
    if n == 0 then Some(([], pos))
    else
      match ReadName(m, pos)
      case None => None
      case Some((name, at)) =>
        if at + 10 > |m| || at + 10 + ReadU16(m, at + 8) > |m| then None
        else
          var end := at + 10 + ReadU16(m, at + 8);
          match ReadRecords(m, end, n - 1)
          case None => None
          case Some((more, last)) =>
            Some(([Record(name, ReadU16(m, at), ReadU16(m, at + 2), ReadU32(m, at + 4), m[at + 10..end])] + more, last))
  }

  /** The whole message, to its last byte, with as many entries as its header says; no other sections. */
  function Decode(m: Bytes): Option<Reply> {
    if |m| < 12 || ReadU16(m, 8) != 0 || ReadU16(m, 10) != 0 then None
    else
      match ReadQuestions(m, 12, ReadU16(m, 4))
      case None => None
      case Some((questions, pos)) =>
        match ReadRecords(m, pos, ReadU16(m, 6))
        case None => None
        case Some((answers, end)) => if end != |m| then None else Some(Reply(ReadU16(m, 0), ReadFlags(m), questions, answers))
  }

  // ----- what a reply ought to say -----

  function ReplyFlags(query: Bytes, rcode: nat): Flags
    requires |query| >= 12
  {
    Flags(true, Opcode(query), true, false, query[2] % 2 == 1, false, 0, rcode)
  }

  function LabelsOf(query: Bytes): seq<Bytes> {
    match ReadLabels(query, 12)
    case None => []
    case Some((labels, _)) => labels
  }

  function Expected(query: Bytes, zone: Zone): Reply
    requires |query| >= 12
  {
    var id := ReadU16(query, 0);
    if Opcode(query) != 0 then Reply(id, ReplyFlags(query, NOTIMP), [], [])
    else if ReadU16(query, 4) != 1 || QuestionOf(query).None? then Reply(id, ReplyFlags(query, FORMERR), [], [])
    else
      var q, labels := QuestionOf(query).value, LabelsOf(query);
      var asked := [Asked(labels, q.qtype, q.qclass)];
      match Resolve(zone, q.name)
      case NoSuchName => Reply(id, ReplyFlags(query, NXDOMAIN), asked, [])
      case Address(ip) =>
        Reply(id, ReplyFlags(query, NOERROR), asked,
              if q.qtype == TYPE_A && q.qclass == CLASS_IN then [Record(labels, TYPE_A, CLASS_IN, TTL_SECS, U32(ip))] else [])
      case Elsewhere(target) =>
        Reply(id, ReplyFlags(query, NOERROR), asked,
              if q.qclass == CLASS_IN then [Record(labels, TYPE_CNAME, CLASS_IN, TTL_SECS, Encoded(target))] else [])
  }

  /** The only data that does not fit its two-byte length is an alias of more than 65535 bytes. */
  predicate TooLong(query: Bytes, zone: Zone) {
    |query| >= 12 && Opcode(query) == 0 && ReadU16(query, 4) == 1
    && match QuestionOf(query)
       case None => false
       case Some(q) =>
         q.qclass == CLASS_IN && Resolve(zone, q.name).Elsewhere? && |Encoded(Resolve(zone, q.name).target)| > 0xFFFF
  }

  // ----- the proof -----

  lemma {:induction false} SameLabels(a: Bytes, b: Bytes, pos: nat, end: nat)
    requires end <= |a| && end <= |b| && forall i | pos <= i < end :: a[i] == b[i]
    requires ReadLabels(a, pos).Some? && ReadLabels(a, pos).value.1 <= end
    ensures ReadLabels(b, pos) == ReadLabels(a, pos)
    decreases |a| - pos
  {
    var len := a[pos] as nat;
    if len != 0 {
      assert a[pos + 1..pos + 1 + len] == b[pos + 1..pos + 1 + len];
      SameLabels(a, b, pos + 1 + len, end);
    }
  }

  lemma HeaderReads(query: Bytes, rcode: Byte, answers: nat, echo: bool, rest: Bytes)
    requires |query| >= 12 && rcode < 16 && answers <= 1
    ensures
      var m := Header(query, rcode, answers, echo) + rest;
      && ReadU16(m, 0) == ReadU16(query, 0) && ReadFlags(m) == ReplyFlags(query, rcode)
      && ReadU16(m, 4) == (if echo then 1 else 0) && ReadU16(m, 6) == answers && ReadU16(m, 8) == 0 && ReadU16(m, 10) == 0
  {
    FlagByte(Opcode(query), query[2] % 2);
  }

  lemma FlagByte(opcode: nat, rd: nat)
    requires opcode < 16 && rd < 2
    ensures
      var f := 128 + 8 * opcode + 4 + rd;
      f / 8 % 16 == opcode && f / 4 % 2 == 1 && f / 2 % 2 == 0 && f % 2 == rd
  {
  }

  lemma QuestionReads(query: Bytes, q: Question, header: Bytes, rest: Bytes)
    requires QuestionOf(query) == Some(q) && |header| == 12
    ensures
      var m := header + query[12..q.end] + rest;
      ReadQuestions(m, 12, 1) == Some(([Asked(LabelsOf(query), q.qtype, q.qclass)], q.end))
      && ReadLabels(m, 12) == ReadLabels(query, 12)
  {
    SameQuestion(query, q, header + query[12..q.end] + rest);
  }

  lemma SameQuestion(query: Bytes, q: Question, m: Bytes)
    requires QuestionOf(query) == Some(q) && q.end <= |m| && forall i | 12 <= i < q.end :: m[i] == query[i]
    ensures ReadQuestions(m, 12, 1) == Some(([Asked(LabelsOf(query), q.qtype, q.qclass)], q.end))
    ensures ReadLabels(m, 12) == ReadLabels(query, 12)
  {
    var at := q.end - 4;
    SameLabels(query, m, 12, q.end);
    FirstIsNoPointer(query);
    assert m[12] == query[12];
    assert ReadU16(m, at) == ReadU16(query, at) && ReadU16(m, at + 2) == ReadU16(query, at + 2);
    OneQuestion(m, at, LabelsOf(query));
  }

  lemma OneQuestion(m: Bytes, at: nat, labels: seq<Bytes>)
    requires ReadName(m, 12) == Some((labels, at)) && at + 4 <= |m|
    ensures ReadQuestions(m, 12, 1) == Some(([Asked(labels, ReadU16(m, at), ReadU16(m, at + 2))], at + 4))
  {
    NoMoreQuestions(m, at + 4);
    var asked := Asked(labels, ReadU16(m, at), ReadU16(m, at + 2));
    assert [asked] + [] == [asked];
  }

  lemma NoMoreQuestions(m: Bytes, at: nat)
    ensures ReadQuestions(m, at, 0) == Some(([], at))
  {
  }

  lemma FirstIsNoPointer(query: Bytes)
    requires ReadLabels(query, 12).Some?
    ensures query[12] < 192
  {
  }

  lemma RecordReads(before: Bytes, rtype: nat, data: Bytes)
    requires |before| >= 12 && rtype < 0x1_0000 && ReadLabels(before, 12).Some?
    ensures
      var m := before + RecordBytes(rtype, data);
      if |data| <= 0xFFFF then
        ReadRecords(m, |before|, 1)
        == Some(([Record(ReadLabels(before, 12).value.0, rtype, CLASS_IN, TTL_SECS, data)], |m|))
      else
        ReadRecords(m, |before|, 1).Some? ==> ReadRecords(m, |before|, 1).value.1 != |m|
  {
    var m, at := before + RecordBytes(rtype, data), |before| + 2;
    SameLabels(before, m, 12, |before|);
    FieldsRead(before, rtype, data);
    assert ReadName(m, |before|) == Some((ReadLabels(before, 12).value.0, at));
    if |data| <= 0xFFFF {
      assert m[at + 10..] == data;
      assert m[at + 10..at + 10 + |data|] == data;
      assert ReadRecords(m, |m|, 0) == Some(([], |m|));
      var r := Record(ReadLabels(before, 12).value.0, rtype, CLASS_IN, TTL_SECS, data);
      assert [r] + [] == [r];
    }
  }

  lemma FieldsRead(before: Bytes, rtype: nat, data: Bytes)
    requires rtype < 0x1_0000
    ensures
      var m, at := before + RecordBytes(rtype, data), |before| + 2;
      && m[at - 2] == 0xC0 && m[at - 1] == 0x0C && |m| == at + 10 + |data|
      && ReadU16(m, at) == rtype && ReadU16(m, at + 2) == CLASS_IN && ReadU32(m, at + 4) == TTL_SECS
      && ReadU16(m, at + 8) == |data| % 0x1_0000 && m[at + 10..] == data
  {
  }

  lemma BareReply(query: Bytes, rcode: Byte)
    requires |query| >= 12 && rcode < 16
    ensures Decode(Header(query, rcode, 0, false)) == Some(Reply(ReadU16(query, 0), ReplyFlags(query, rcode), [], []))
  {
    var m := Header(query, rcode, 0, false);
    HeaderReads(query, rcode, 0, false, []);
    assert m + [] == m;
  }

  lemma EmptyReply(query: Bytes, q: Question, rcode: Byte)
    requires QuestionOf(query) == Some(q) && rcode < 16
    ensures Decode(Header(query, rcode, 0, true) + query[12..q.end])
         == Some(Reply(ReadU16(query, 0), ReplyFlags(query, rcode), [Asked(LabelsOf(query), q.qtype, q.qclass)], []))
  {
    var header := Header(query, rcode, 0, true);
    var m := header + query[12..q.end];
    HeaderReads(query, rcode, 0, true, query[12..q.end]);
    QuestionReads(query, q, header, []);
    assert m + [] == m;
    assert ReadRecords(m, q.end, 0) == Some(([], q.end));
  }

  lemma FullReply(query: Bytes, q: Question, rtype: nat, data: Bytes)
    requires QuestionOf(query) == Some(q) && rtype < 0x1_0000
    ensures Decode(Header(query, NOERROR, 1, true) + query[12..q.end] + RecordBytes(rtype, data))
         == if |data| > 0xFFFF then None
            else Some(Reply(ReadU16(query, 0), ReplyFlags(query, NOERROR), [Asked(LabelsOf(query), q.qtype, q.qclass)],
                            [Record(LabelsOf(query), rtype, CLASS_IN, TTL_SECS, data)]))
  {
    var header, record := Header(query, NOERROR, 1, true), RecordBytes(rtype, data);
    var before := header + query[12..q.end];
    var m := before + record;
    assert m == header + (query[12..q.end] + record);
    HeaderReads(query, NOERROR, 1, true, query[12..q.end] + record);
    QuestionReads(query, q, header, record);
    QuestionReads(query, q, header, []);
    assert before + [] == before;
    RecordReads(before, rtype, data);
  }

  lemma RespondResolves(query: Bytes, zone: Zone, q: Question)
    requires |query| >= 12 && query[2] < 0x80 && Opcode(query) == 0 && ReadU16(query, 4) == 1 && QuestionOf(query) == Some(q)
    ensures Respond(query, zone) ==
      match Resolve(zone, q.name)
      case Address(ip) => Some(AddressReply(query, q, ip))
      case Elsewhere(target) => Some(AliasReply(query, q, target))
      case NoSuchName => Some(Header(query, NXDOMAIN, 0, true) + query[12..q.end])
  {
    WildcardIsStarred(zone.a, q.name);
    WildcardIsStarred(zone.cname, q.name);
  }

  lemma NothingAdded(b: Bytes)
    ensures b + [] == b
  {
  }

  /**
    For every query and every zone: no reply to what is too short or is a reply itself. Any other
    reply is read by a resolver as exactly what simple lookup says, except that it cannot be read at
    all if an unresolved alias takes more than 65535 bytes.
  */
  lemma RepliesAreRead(query: Bytes, zone: Zone)
    ensures Respond(query, zone).None? <==> |query| < 12 || query[2] >= 0x80
    ensures Respond(query, zone).Some? ==>
      Decode(Respond(query, zone).value) == if TooLong(query, zone) then None else Some(Expected(query, zone))
  {
    if |query| >= 12 && query[2] < 0x80 {
      if Opcode(query) != 0 {
        BareReply(query, NOTIMP);
      } else if ReadU16(query, 4) != 1 || QuestionOf(query).None? {
        BareReply(query, FORMERR);
      } else {
        var q := QuestionOf(query).value;
        RespondResolves(query, zone, q);
        match Resolve(zone, q.name)
        case NoSuchName => EmptyReply(query, q, NXDOMAIN);
        case Address(ip) =>
          EmptyReply(query, q, NOERROR);
          FullReply(query, q, TYPE_A, U32(ip));
          NothingAdded(Header(query, NOERROR, 0, true) + query[12..q.end]);
        case Elsewhere(target) =>
          EmptyReply(query, q, NOERROR);
          FullReply(query, q, TYPE_CNAME, Encoded(target));
          NothingAdded(Header(query, NOERROR, 0, true) + query[12..q.end]);
      }
    }
  }

  /** And the data of an alias is the labels of its target. */
  lemma AliasDataIsRead(target: Bytes)
    ensures ReadLabels(Encoded(target), 0) == Some((Dns.Sendable(Split(target)), |Encoded(target)|))
  {
    var b := Encoded(target);
    assert b[0..0 + |b|] == b;
    LabelsAreReadBack(b, 0, Split(target));
  }
}
