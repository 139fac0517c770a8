/**
  The table of sessions whose answers are let through (crates/peercove-core/src/acl.rs). Expired
  entries are cleared away at most once a second.
*/
module AclSessions {
  import opened Options
  import opened AclPackets

  // Times are in nanoseconds.
  const SECOND: nat := 1_000_000_000
  const TCP_SESSION_LIFETIME := 300 * SECOND
  const UDP_SESSION_LIFETIME := 30 * SECOND
  const ICMP_SESSION_LIFETIME := 10 * SECOND
  const FRAGMENT_LIFETIME := 15 * SECOND
  const MAX_ACL_SESSIONS := 16384

  datatype Session = Session(expiresAt: nat, lifetime: nat)

  datatype Table = Table(
    replies: map<ReplyKey, Session>,
    fragments: map<FragmentKey, Session>,
    nextPrune: Option<nat>)

  const EMPTY := Table(map[], map[], None)

  // ----- specification -----

  function Unexpired<K>(m: map<K, Session>, now: nat): map<K, Session> {
    map k <- m | m[k].expiresAt > now :: m[k]
  }

  function Swept(t: Table, now: nat): Table {
    if t.nextPrune.Some? && now < t.nextPrune.value then t
    else Table(Unexpired(t.replies, now), Unexpired(t.fragments, now), Some(now + SECOND))
  }

  /** A full table takes in no new key, but still renews the ones it has. */
  function Inserted<K>(m: map<K, Session>, k: K, lifetime: nat, now: nat): map<K, Session> {
    if |m| >= MAX_ACL_SESSIONS && k !in m then m else m[k := Session(now + lifetime, lifetime)]
  }

  /** What an allowed packet does to a swept table. */
  function ObservedAs(t: Table, c: Option<Candidate>, now: nat): Table {
    match c
    case Some(TransportOf(reply, protocol, opens)) =>
      if opens || reply in t.replies then
        t.(replies := Inserted(t.replies, reply, if protocol == TCP then TCP_SESSION_LIFETIME else UDP_SESSION_LIFETIME, now))
      else t
    case Some(EchoRequest(reply)) => t.(replies := Inserted(t.replies, reply, ICMP_SESSION_LIFETIME, now))
    case _ => t
  }

  function Observed(t: Table, p: Packet, now: nat): Table {
    ObservedAs(Swept(t, now), SessionCandidate(p), now)
  }

  predicate Lets(t: Table, p: Packet, now: nat) {
    PacketReplyKey(p).Some? && PacketReplyKey(p).value in Swept(t, now).replies
  }

  function Replied(t0: Table, p: Packet, now: nat): Table {
    var t := Swept(t0, now);
    if Lets(t0, p, now) then
      var k := PacketReplyKey(p).value;
      t.(replies := t.replies[k := Session(now + t.replies[k].lifetime, t.replies[k].lifetime)])
    else t
  }

  function Forwarded(t: Table, p: Packet, now: nat): Table {
    if InitialFragment(p) && MoreFragments(p) && FragmentKeyOf(p).Some? then
      t.(fragments := Inserted(t.fragments, FragmentKeyOf(p).value, FRAGMENT_LIFETIME, now))
    else t
  }

  predicate LetsFragment(t: Table, p: Packet, now: nat) {
    FragmentKeyOf(p).Some? && FragmentKeyOf(p).value in Swept(t, now).fragments
  }

  class AclSessionTracker {
    var replies: map<ReplyKey, Session>
    var fragments: map<FragmentKey, Session>
    var nextPrune: Option<nat>

    constructor ()
      ensures View() == EMPTY
    {
      replies, fragments, nextPrune := map[], map[], None;
    }

    function View(): Table
      reads this
    {
      Table(replies, fragments, nextPrune)
    }

    method RemoveExpired(now: nat)
      modifies this
      ensures View() == Swept(old(View()), now)
    {
      if nextPrune.Some? && now < nextPrune.value {
        return;
      }
      replies := map k <- replies | replies[k].expiresAt > now :: replies[k];
      fragments := map k <- fragments | fragments[k].expiresAt > now :: fragments[k];
      nextPrune := Some(now + SECOND);
    }

    method Insert(key: ReplyKey, lifetime: nat, now: nat)
      modifies this`replies
      ensures replies == Inserted(old(replies), key, lifetime, now)
    {
      if |replies| >= MAX_ACL_SESSIONS && key !in replies {
        return;
      }
      replies := replies[key := Session(now + lifetime, lifetime)];
    }

    /** Opens or renews the way back for a packet that the policy allowed. */
    method ObserveAllowed(p: Packet, now: nat)
      modifies this
      ensures View() == Observed(old(View()), p, now)
    {
      RemoveExpired(now);
      match SessionCandidate(p)
      case Some(TransportOf(reply, protocol, opens)) =>
        var lifetime := if protocol == TCP then TCP_SESSION_LIFETIME else UDP_SESSION_LIFETIME;
        if opens || reply in replies {
          Insert(reply, lifetime, now);
        }
      case Some(EchoRequest(reply)) => Insert(reply, ICMP_SESSION_LIFETIME, now);
      case _ =>
    }

    /** Whether a denied packet is the answer of an open session, which it then renews. */
    method AllowsReply(p: Packet, now: nat) returns (ok: bool)
      modifies this
      ensures ok == Lets(old(View()), p, now)
      ensures View() == Replied(old(View()), p, now)
    {
      RemoveExpired(now);
      var key := PacketReplyKey(p);
      if key.None? || key.value !in replies {
        return false;
      }
      var session := replies[key.value];
      replies := replies[key.value := session.(expiresAt := now + session.lifetime)];
      return true;
    }

    method NoteForwardedFragment(p: Packet, now: nat)
      modifies this`fragments
      ensures View() == Forwarded(old(View()), p, now)
    {
      if InitialFragment(p) && MoreFragments(p) {
        var key := FragmentKeyOf(p);
        if key.Some? && (|fragments| < MAX_ACL_SESSIONS || key.value in fragments) {
          fragments := fragments[key.value := Session(now + FRAGMENT_LIFETIME, FRAGMENT_LIFETIME)];
        }
      }
    }

    method AllowsFragment(p: Packet, now: nat) returns (ok: bool)
      modifies this
      ensures ok == LetsFragment(old(View()), p, now)
      ensures View() == Swept(old(View()), now)
    {
      RemoveExpired(now);
      var key := FragmentKeyOf(p);
      return key.Some? && key.value in fragments;
    }

    method Clear()
      modifies this
      ensures View() == EMPTY
    {
      replies, fragments, nextPrune := map[], map[], None;
    }
  }

  // ----- whole runs -----

  datatype Event =
    | Observe(p: Packet, at: nat)
    | AskReply(p: Packet, at: nat)
    | Forward(p: Packet, at: nat)
    | AskFragment(p: Packet, at: nat)
    | Clear(at: nat)

  function Step(t: Table, e: Event): Table {
    match e
    case Observe(p, at) => Observed(t, p, at)
    case AskReply(p, at) => Replied(t, p, at)
    case Forward(p, at) => Forwarded(t, p, at)
    case AskFragment(p, at) => Swept(t, at)
    case Clear(_) => EMPTY
  }

  function Run(es: seq<Event>): Table {
    if es == [] then EMPTY else Step(Run(es[..|es| - 1]), es[|es| - 1])
  }

  /** The clock never goes back, up to and including `now`. */
  ghost predicate Clocked(es: seq<Event>, now: nat) {
    es == [] || (es[|es| - 1].at <= now && Clocked(es[..|es| - 1], es[|es| - 1].at))
  }

  function LifetimeOf(k: ReplyKey): nat {
    match k
    case Transport(_, _, protocol, _, _) => if protocol == TCP then TCP_SESSION_LIFETIME else UDP_SESSION_LIFETIME
    case IcmpEcho(_, _, _, _) => ICMP_SESSION_LIFETIME
  }

  function KeyOf(c: Option<Candidate>): Option<ReplyKey> {
    match c
    case Some(TransportOf(reply, _, _)) => Some(reply)
    case _ => None
  }

  /** The key a packet of an existing session renews. */
  function RenewedKey(e: Event): Option<ReplyKey> {
    match e
    case Observe(p, _) => KeyOf(SessionCandidate(p))
    case AskReply(p, _) => PacketReplyKey(p)
    case _ => None
  }

  predicate OpensKey(e: Event, k: ReplyKey) {
    e.Observe? && OpenedKey(e.p) == Some(k)
  }

  /** The packet belongs to a session that the tracker had open when it came. */
  ghost predicate Renews(before: seq<Event>, e: Event, k: ReplyKey) {
    RenewedKey(e) == Some(k) && k in Swept(Run(before), e.at).replies
  }

  /**
    Since the last clearing, an allowed packet opened the session `k`, and packets of the session that
    were let through lead from it to `now`, each less than a lifetime and one second after the last.
  */
  ghost predicate Linked(es: seq<Event>, k: ReplyKey, now: nat)
    decreases |es|
  {
    es != [] &&
    var before, e := es[..|es| - 1], es[|es| - 1];
    && !e.Clear?
    && (|| Linked(before, k, now)
        || (now < e.at + LifetimeOf(k) + SECOND && (OpensKey(e, k) || (Renews(before, e, k) && Linked(before, k, e.at)))))
  }

  /** The same with exact lifetimes, as an ideal tracker without a table would judge it. */
  ghost predicate Ideal(es: seq<Event>, k: ReplyKey, now: nat)
    decreases |es|
  {
    es != [] &&
    var before, e := es[..|es| - 1], es[|es| - 1];
    && !e.Clear?
    && (|| Ideal(before, k, now)
        || (now < e.at + LifetimeOf(k) && (OpensKey(e, k) || (RenewedKey(e) == Some(k) && Ideal(before, k, e.at)))))
  }

  /** The entry `k` was last renewed at a time from which every later moment within reach is linked. */
  ghost predicate Backed(es: seq<Event>, k: ReplyKey, s: Session) {
    && s.lifetime == LifetimeOf(k) && es != [] && s.expiresAt <= es[|es| - 1].at + LifetimeOf(k)
    && forall now: nat | now < s.expiresAt + SECOND :: Linked(es, k, now)
  }

  /** Nothing in the table had expired when it was last swept, less than a second before `nextPrune`. */
  ghost predicate SweptWell(t: Table) {
    && (t.nextPrune.None? ==> t.replies == map[])
    && (t.nextPrune.Some? ==> forall k <- t.replies :: t.replies[k].expiresAt + SECOND > t.nextPrune.value)
  }

  ghost predicate Sound(es: seq<Event>) {
    && SweptWell(Run(es))
    && (Run(es).nextPrune.Some? ==> es != [] && Run(es).nextPrune.value <= es[|es| - 1].at + SECOND)
    && forall k <- Run(es).replies :: Backed(es, k, Run(es).replies[k])
  }

  lemma SweptReplies(t: Table, now: nat)
    requires SweptWell(t)
    ensures SweptWell(Swept(t, now))
    ensures forall k <- Swept(t, now).replies ::
      k in t.replies && Swept(t, now).replies[k] == t.replies[k] && now < t.replies[k].expiresAt + SECOND
  {
  }

  lemma BackedStays(es: seq<Event>, k: ReplyKey, s: Session, now: nat)
    requires Clocked(es, now)
    requires es != [] && Backed(es[..|es| - 1], k, s) && !es[|es| - 1].Clear?
    ensures Backed(es, k, s)
  {
  }

  /** A packet's candidate carries the protocol of its key. */
  ghost predicate Matching(c: Option<Candidate>) {
    match c
    case Some(TransportOf(reply, protocol, _)) => reply.Transport? && reply.protocol == protocol
    case Some(EchoRequest(reply)) => reply.IcmpEcho?
    case _ => true
  }

  lemma CandidateMatches(p: Packet)
    ensures Matching(SessionCandidate(p))
  {
  }

  lemma ObservedOnReplies(t: Table, c: Option<Candidate>, now: nat, k: ReplyKey)
    requires Matching(c) && k in ObservedAs(t, c, now).replies
    ensures
      || Lookup(ObservedAs(t, c, now).replies, k) == Lookup(t.replies, k)
      || (&& ObservedAs(t, c, now).replies[k] == Session(now + LifetimeOf(k), LifetimeOf(k))
          && (KeyOpenedBy(c) == Some(k) || (KeyOf(c) == Some(k) && k in t.replies)))
  {
  }

  ghost predicate OwnLifetimes(t: Table) {
    forall j <- t.replies :: t.replies[j].lifetime == LifetimeOf(j)
  }

  /** An event either leaves a swept entry alone or renews it with the key's own lifetime. */
  lemma StepOnReplies(t: Table, e: Event, k: ReplyKey)
    requires OwnLifetimes(t) && k in Step(t, e).replies && !e.Forward?
    ensures !e.Clear?
    ensures
      || Lookup(Step(t, e).replies, k) == Lookup(Swept(t, e.at).replies, k)
      || (&& Step(t, e).replies[k] == Session(e.at + LifetimeOf(k), LifetimeOf(k))
          && (OpensKey(e, k) || (RenewedKey(e) == Some(k) && k in Swept(t, e.at).replies)))
  {
    if e.Observe? {
      CandidateMatches(e.p);
      ObservedOnReplies(Swept(t, e.at), SessionCandidate(e.p), e.at, k);
    }
  }

  lemma StepBacked(es: seq<Event>, k: ReplyKey, now: nat)
    requires Clocked(es, now)
    requires es != [] && Sound(es[..|es| - 1]) && k in Run(es).replies
    ensures Backed(es, k, Run(es).replies[k])
  {
    var before, e := es[..|es| - 1], es[|es| - 1];
    SweptReplies(Run(before), e.at);
    if e.Forward? {
      BackedStays(es, k, Run(before).replies[k], now);
    } else {
      StepOnReplies(Run(before), e, k);
      if Lookup(Run(es).replies, k) == Lookup(Swept(Run(before), e.at).replies, k) {
        BackedStays(es, k, Run(before).replies[k], now);
      }
    }
  }

  lemma StepPrunes(t: Table, e: Event)
    requires t.nextPrune.Some? ==> t.nextPrune.value <= e.at + SECOND
    ensures Step(t, e).nextPrune.Some? ==> Step(t, e).nextPrune.value <= e.at + SECOND
    ensures !e.Clear? && !e.Forward? ==> Step(t, e).nextPrune == Swept(t, e.at).nextPrune
  {
  }

  lemma StepSweptOne(t: Table, e: Event, k: ReplyKey)
    requires SweptWell(t) && OwnLifetimes(t) && k in Step(t, e).replies
    requires t.nextPrune.Some? ==> t.nextPrune.value <= e.at + SECOND
    ensures Step(t, e).nextPrune.Some? && Step(t, e).replies[k].expiresAt + SECOND > Step(t, e).nextPrune.value
  {
    if !e.Forward? {
      SweptReplies(t, e.at);
      StepPrunes(t, e);
      StepOnReplies(t, e, k);
    }
  }

  lemma StepSweptWell(es: seq<Event>, now: nat)
    requires es != [] && Clocked(es, now) && Sound(es[..|es| - 1])
    ensures SweptWell(Run(es)) && (Run(es).nextPrune.Some? ==> Run(es).nextPrune.value <= es[|es| - 1].at + SECOND)
  {
    var before, e := es[..|es| - 1], es[|es| - 1];
    assert Run(before).nextPrune.Some? ==> Run(before).nextPrune.value <= e.at + SECOND;
    StepPrunes(Run(before), e);
    forall k <- Run(es).replies
      ensures Run(es).nextPrune.Some? && Run(es).replies[k].expiresAt + SECOND > Run(es).nextPrune.value
    {
      StepSweptOne(Run(before), e, k);
    }
  }

  lemma {:induction false} RunSound(es: seq<Event>, now: nat)
    requires Clocked(es, now)
    ensures Sound(es)
  {
    if es != [] {
      var before := es[..|es| - 1];
      RunSound(before, es[|es| - 1].at);
      StepSweptWell(es, now);
      forall k <- Run(es).replies
        ensures Backed(es, k, Run(es).replies[k])
      {
        StepBacked(es, k, now);
      }
    }
  }

  /** A reply is let through only along a chain of let-through packets that starts with an opening one. */
  lemma LetThroughIsLinked(es: seq<Event>, p: Packet, now: nat)
    requires Clocked(es, now) && Lets(Run(es), p, now)
    ensures Linked(es, PacketReplyKey(p).value, now)
  {
    RunSound(es, now);
    SweptReplies(Run(es), now);
    assert Backed(es, PacketReplyKey(p).value, Run(es).replies[PacketReplyKey(p).value]);
  }

  lemma {:induction false} LinkedHasOpening(es: seq<Event>, k: ReplyKey, now: nat) returns (i: nat)
    requires Linked(es, k, now)
    ensures i < |es| && es[i].Observe? && OpenedKey(es[i].p) == Some(k)
    ensures forall j {:trigger es[j]} | i <= j < |es| :: !es[j].Clear?
    decreases |es|
  {
    var before, e := es[..|es| - 1], es[|es| - 1];
    if Linked(before, k, now) {
      i := LinkedHasOpening(before, k, now);
      assert forall j {:trigger es[j]} | i <= j < |before| :: es[j] == before[j];
    } else if OpensKey(e, k) {
      i := |es| - 1;
    } else {
      i := LinkedHasOpening(before, k, e.at);
      assert forall j {:trigger es[j]} | i <= j < |before| :: es[j] == before[j];
    }
  }

  /**
    In terms of packets: a denied packet passes only if, since the last clearing, the policy allowed a
    packet that opens a session in exactly the opposite direction.
  */
  lemma ReplyNeedsOpening(es: seq<Event>, p: Packet, now: nat) returns (i: nat)
    requires Clocked(es, now) && Lets(Run(es), p, now)
    ensures i < |es| && es[i].Observe? && OpeningPacket(es[i].p) && Reverses(p, es[i].p)
    ensures forall j {:trigger es[j]} | i <= j < |es| :: !es[j].Clear?
  {
    LetThroughIsLinked(es, p, now);
    i := LinkedHasOpening(es, PacketReplyKey(p).value, now);
    KeyMeansReversed(p, es[i].p);
  }

  /** Of the flow to which the packet belongs, or of its answers, a packet was let through or allowed at that time. */
  ghost predicate Touched(e: Event, k: ReplyKey) {
    OpensKey(e, k) || RenewedKey(e) == Some(k)
  }

  lemma {:induction false} LinkedRecently(es: seq<Event>, k: ReplyKey, now: nat) returns (i: nat)
    requires Linked(es, k, now)
    ensures i < |es| && Touched(es[i], k) && now < es[i].at + LifetimeOf(k) + SECOND
    decreases |es|
  {
    if Linked(es[..|es| - 1], k, now) {
      i := LinkedRecently(es[..|es| - 1], k, now);
    } else {
      i := |es| - 1;
    }
  }

  /** Answers pass only for so long after the last packet of their flow: 301 s over TCP, 31 s over UDP, 11 s for echoes. */
  lemma AnswersAreTimely(es: seq<Event>, p: Packet, now: nat) returns (i: nat)
    requires Clocked(es, now) && Lets(Run(es), p, now)
    ensures Ipv4(p).Some? && i < |es| && Touched(es[i], PacketReplyKey(p).value)
    ensures
      var protocol := Ipv4(p).value.protocol;
      now < es[i].at + (if protocol == 6 then 301 else if protocol == 17 then 31 else 11) * 1_000_000_000
  {
    LetThroughIsLinked(es, p, now);
    i := LinkedRecently(es, PacketReplyKey(p).value, now);
  }

  /** The table never holds more than 16384 sessions and as many fragments. */
  ghost predicate Bounded(t: Table) {
    |t.replies| <= 16_384 && |t.fragments| <= 16_384
  }

  lemma FewerEntries<K, V>(m: map<K, V>, m': map<K, V>)
    requires m'.Keys <= m.Keys
    ensures |m'| <= |m|
  {
    var rest := m.Keys - m'.Keys;
    assert m.Keys == m'.Keys + rest;
  }

  lemma InsertedBounded<K>(m: map<K, Session>, k: K, lifetime: nat, now: nat)
    requires |m| <= 16_384
    ensures |Inserted(m, k, lifetime, now)| <= 16_384
  {
    var more := m[k := Session(now + lifetime, lifetime)];
    if k in m {
      assert more.Keys == m.Keys;
    } else {
      assert more.Keys == m.Keys + {k};
    }
  }

  lemma SweptBounded(t: Table, now: nat)
    requires Bounded(t)
    ensures Bounded(Swept(t, now))
  {
    FewerEntries(t.replies, Unexpired(t.replies, now));
    FewerEntries(t.fragments, Unexpired(t.fragments, now));
  }

  lemma StepBounded(t: Table, e: Event)
    requires Bounded(t)
    ensures Bounded(Step(t, e))
  {
    SweptBounded(t, e.at);
    var swept := Swept(t, e.at);
    match e
    case Observe(p, at) =>
      match SessionCandidate(p) {
        case Some(TransportOf(reply, protocol, _)) =>
          InsertedBounded(swept.replies, reply, if protocol == TCP then TCP_SESSION_LIFETIME else UDP_SESSION_LIFETIME, at);
        case Some(EchoRequest(reply)) => InsertedBounded(swept.replies, reply, ICMP_SESSION_LIFETIME, at);
        case _ =>
      }
    case AskReply(p, at) =>
      if Lets(t, p, at) {
        var k := PacketReplyKey(p).value;
        assert Replied(t, p, at).replies.Keys == swept.replies.Keys;
        FewerEntries(swept.replies, Replied(t, p, at).replies);
      }
    case Forward(p, at) =>
      if FragmentKeyOf(p).Some? {
        InsertedBounded(t.fragments, FragmentKeyOf(p).value, FRAGMENT_LIFETIME, at);
      }
    case AskFragment(_, _) =>
    case Clear(_) =>
  }

  lemma {:induction false} RunBounded(es: seq<Event>)
    ensures Bounded(Run(es))
  {
    if es != [] {
      RunBounded(es[..|es| - 1]);
      StepBounded(Run(es[..|es| - 1]), es[|es| - 1]);
    }
  }

  // ----- the other direction -----

  /** There was room in the table whenever an event came. */
  ghost predicate NeverFull(es: seq<Event>) {
    es != [] ==> |Swept(Run(es[..|es| - 1]), es[|es| - 1].at).replies| < MAX_ACL_SESSIONS && NeverFull(es[..|es| - 1])
  }

  /** The entry of an ideally open session is there, and expires no sooner than ideally. */
  ghost predicate Covers(t: Table, k: ReplyKey, now: nat) {
    k in t.replies && now < t.replies[k].expiresAt && t.replies[k].lifetime == LifetimeOf(k)
  }

  lemma SweepKeeps(t: Table, k: ReplyKey, at: nat, now: nat)
    requires Covers(t, k, now) && at <= now
    ensures k in Swept(t, at).replies && Swept(t, at).replies[k] == t.replies[k]
  {
  }

  lemma ObservedRenewsLater(t: Table, c: Option<Candidate>, k: ReplyKey, now: nat)
    requires Matching(c) && k in t.replies
    requires t.replies[k].expiresAt <= now + LifetimeOf(k)
    ensures k in ObservedAs(t, c, now).replies && ObservedAs(t, c, now).replies[k].expiresAt >= t.replies[k].expiresAt
  {
  }

  lemma StepRenewsLater(t: Table, e: Event, k: ReplyKey)
    requires k in Swept(t, e.at).replies && !e.Clear?
    requires t.replies[k].expiresAt <= e.at + LifetimeOf(k) && t.replies[k].lifetime == LifetimeOf(k)
    ensures k in Step(t, e).replies && Step(t, e).replies[k].expiresAt >= t.replies[k].expiresAt
  {
    if e.Observe? {
      CandidateMatches(e.p);
      ObservedRenewsLater(Swept(t, e.at), SessionCandidate(e.p), k, e.at);
    }
  }

  /** The event opens the session, or is a packet of the session while it is open, and there is room. */
  lemma StepSets(t: Table, e: Event, k: ReplyKey)
    requires |Swept(t, e.at).replies| < MAX_ACL_SESSIONS && OwnLifetimes(t)
    requires OpensKey(e, k) || (RenewedKey(e) == Some(k) && k in Swept(t, e.at).replies)
    ensures k in Step(t, e).replies && Step(t, e).replies[k].expiresAt == e.at + LifetimeOf(k)
  {
    if e.Observe? {
      CandidateMatches(e.p);
      ObservedSets(Swept(t, e.at), SessionCandidate(e.p), k, e.at);
    }
  }

  lemma ObservedSets(t: Table, c: Option<Candidate>, k: ReplyKey, now: nat)
    requires |t.replies| < MAX_ACL_SESSIONS && Matching(c)
    requires KeyOpenedBy(c) == Some(k) || (KeyOf(c) == Some(k) && k in t.replies)
    ensures k in ObservedAs(t, c, now).replies && ObservedAs(t, c, now).replies[k].expiresAt == now + LifetimeOf(k)
  {
  }

  lemma {:induction false} IdealIsCovered(es: seq<Event>, k: ReplyKey, now: nat, last: nat)
    requires Clocked(es, last) && last <= now && NeverFull(es) && Ideal(es, k, now)
    ensures Covers(Run(es), k, now)
    decreases |es|
  {
    var before, e := es[..|es| - 1], es[|es| - 1];
    RunSound(before, e.at);
    RunSound(es, last);
    if Ideal(before, k, now) {
      IdealIsCovered(before, k, now, e.at);
      StaysCovered(before, e, k, now);
    } else {
      if !OpensKey(e, k) {
        IdealIsCovered(before, k, e.at, e.at);
        SweepKeeps(Run(before), k, e.at, e.at);
      }
      StepSets(Run(before), e, k);
    }
    assert Backed(es, k, Run(es).replies[k]);
  }

  lemma StaysCovered(before: seq<Event>, e: Event, k: ReplyKey, now: nat)
    requires Clocked(before, e.at) && Sound(before) && Covers(Run(before), k, now) && e.at <= now && !e.Clear?
    ensures k in Step(Run(before), e).replies && now < Step(Run(before), e).replies[k].expiresAt
  {
    SweepKeeps(Run(before), k, e.at, now);
    assert Backed(before, k, Run(before).replies[k]);
    StepRenewsLater(Run(before), e, k);
  }

  /** As long as the table has room, every reply that an exact tracker would let through is let through. */
  lemma IdealIsLetThrough(es: seq<Event>, p: Packet, now: nat)
    requires Clocked(es, now) && NeverFull(es)
    requires PacketReplyKey(p).Some? && Ideal(es, PacketReplyKey(p).value, now)
    ensures Lets(Run(es), p, now)
  {
    IdealIsCovered(es, PacketReplyKey(p).value, now, now);
    SweepKeeps(Run(es), PacketReplyKey(p).value, now, now);
  }

  // ----- later fragments -----

  /** The first fragment of the datagram was forwarded, less than `FRAGMENT_LIFETIME` before `expiry`. */
  ghost predicate Noted(es: seq<Event>, i: nat, k: FragmentKey, expiry: nat) {
    && i < |es| && es[i].Forward?
    && InitialFragment(es[i].p) && MoreFragments(es[i].p) && FragmentKeyOf(es[i].p) == Some(k)
    && expiry == es[i].at + FRAGMENT_LIFETIME
    && forall j {:trigger es[j]} | i <= j < |es| :: !es[j].Clear?
  }

  ghost predicate SoundFragments(es: seq<Event>) {
    forall k <- Run(es).fragments ::
      && (exists i: nat :: Noted(es, i, k, Run(es).fragments[k].expiresAt))
      && (Run(es).nextPrune.Some? ==> Run(es).fragments[k].expiresAt + SECOND > Run(es).nextPrune.value)
  }

  lemma NotedStays(es: seq<Event>, i: nat, k: FragmentKey, expiry: nat)
    requires es != [] && Noted(es[..|es| - 1], i, k, expiry) && !es[|es| - 1].Clear?
    ensures Noted(es, i, k, expiry)
  {
    var before := es[..|es| - 1];
    assert forall j {:trigger es[j]} | i <= j < |before| :: es[j] == before[j];
  }

  lemma StepOnFragments(t: Table, e: Event, k: FragmentKey)
    requires k in Step(t, e).fragments
    ensures !e.Clear?
    ensures
      || Lookup(t.fragments, k) == Some(Step(t, e).fragments[k])
      || (&& e.Forward? && InitialFragment(e.p) && MoreFragments(e.p) && FragmentKeyOf(e.p) == Some(k)
          && Step(t, e).fragments[k].expiresAt == e.at + FRAGMENT_LIFETIME)
    ensures !e.Forward? && Step(t, e).nextPrune != t.nextPrune ==>
      Step(t, e).nextPrune == Some(e.at + SECOND) && Step(t, e).fragments[k].expiresAt > e.at
    ensures e.Forward? ==> Step(t, e).nextPrune == t.nextPrune
  {
  }

  lemma StepNoted(es: seq<Event>, k: FragmentKey)
    requires es != [] && SoundFragments(es[..|es| - 1]) && k in Run(es).fragments
    ensures exists i: nat :: Noted(es, i, k, Run(es).fragments[k].expiresAt)
  {
    var before, e := es[..|es| - 1], es[|es| - 1];
    StepOnFragments(Run(before), e, k);
    if Lookup(Run(before).fragments, k) == Some(Run(es).fragments[k]) {
      var i: nat :| Noted(before, i, k, Run(before).fragments[k].expiresAt);
      NotedStays(es, i, k, Run(before).fragments[k].expiresAt);
    } else {
      assert Noted(es, |es| - 1, k, Run(es).fragments[k].expiresAt);
    }
  }

  lemma {:induction false} RunSoundFragments(es: seq<Event>, now: nat)
    requires Clocked(es, now)
    ensures SoundFragments(es)
  {
    if es != [] {
      var before, e := es[..|es| - 1], es[|es| - 1];
      RunSoundFragments(before, e.at);
      RunSound(before, e.at);
      forall k <- Run(es).fragments
        ensures exists i: nat :: Noted(es, i, k, Run(es).fragments[k].expiresAt)
        ensures Run(es).nextPrune.Some? ==> Run(es).fragments[k].expiresAt + SECOND > Run(es).nextPrune.value
      {
        StepNoted(es, k);
        StepOnFragments(Run(before), e, k);
      }
    }
  }

  /** A later fragment passes only within 16 s of forwarding the first one of the same datagram. */
  lemma FragmentNeedsInitial(es: seq<Event>, p: Packet, now: nat) returns (i: nat)
    requires Clocked(es, now) && LetsFragment(Run(es), p, now)
    ensures i < |es| && es[i].Forward? && InitialFragment(es[i].p) && MoreFragments(es[i].p)
    ensures FragmentKeyOf(es[i].p) == FragmentKeyOf(p) && now < es[i].at + FRAGMENT_LIFETIME + SECOND
    ensures forall j {:trigger es[j]} | i <= j < |es| :: !es[j].Clear?
  {
    RunSoundFragments(es, now);
    var k := FragmentKeyOf(p).value;
    i :| Noted(es, i, k, Run(es).fragments[k].expiresAt);
  }
}
