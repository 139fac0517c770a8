/**
  What a host on Windows does with a packet from one member to another: the rules, the session table
  and the fragments joined (crates/peercove-cli/src/backend/windows/device.rs, 361-390).
*/
module Relay {
  import opened Options
  import opened AclPackets
  import opened AclPolicy
  import opened AclSessions
  import AclMeaning
  import Format = PacketFormat

  // ----- one packet -----

  /** What cannot be read is judged by the default. */
  function Evaluation(policy: Policy, p: Packet): Decision {
    match PacketFields(p)
    case None => Decision(policy.fallback, None)
    case Some(f) => Evaluated(policy, f.src, f.dst, f.protocol, f.port)
  }

  predicate Allowed(policy: Policy, p: Packet) {
    Evaluation(policy, p).action == Allow
  }

  /** A fragment other than the first of its datagram. */
  predicate LaterFragment(p: Packet) {
    |p| >= 20 && p[0] / 16 == 4 && U16(p, 6) % 0x2000 != 0
  }

  datatype Verdict = Fragment(known: bool) | ByPolicy | AsAnswer | Refused

  function VerdictOf(policy: Policy, t: Table, p: Packet, now: nat): Verdict {
    if LaterFragment(p) then Fragment(LetsFragment(t, p, now))
    else if Allowed(policy, p) then ByPolicy
    else if Lets(t, p, now) then AsAnswer
    else Refused
  }

  predicate Passing(v: Verdict) {
    v == Fragment(true) || v.ByPolicy? || v.AsAnswer?
  }

  function TableAfter(v: Verdict, t: Table, p: Packet, now: nat): Table {
    match v
    case Fragment(_) => Swept(t, now)
    case ByPolicy => Forwarded(Observed(t, p, now), p, now)
    case AsAnswer => Forwarded(Replied(t, p, now), p, now)
    case Refused => Replied(t, p, now)
  }

  class Device {
    var policy: Policy
    const sessions: AclSessionTracker

    constructor ()
      ensures policy == Policy(Allow, []) && fresh(sessions) && sessions.View() == EMPTY
    {
      policy := Policy(Allow, []);
      sessions := new AclSessionTracker();
    }

    /** Sessions that are open stay open. */
    method SetAcl(policy: Policy)
      modifies this
      ensures this.policy == policy
    {
      this.policy := policy;
    }

    method EvaluateIpv4Packet(p: Packet) returns (decision: Decision)
      ensures decision == Evaluation(policy, p)
    {
      var fields := PacketFields(p);
      if fields.None? {
        return Decision(policy.fallback, None);
      }
      decision := Evaluate(policy, fields.value.src, fields.value.dst, fields.value.protocol, fields.value.port);
    }

    method RelayPacket(p: Packet, now: nat) returns (relayed: bool)
      modifies sessions
      ensures relayed == Passing(VerdictOf(policy, old(sessions.View()), p, now))
      ensures sessions.View() == TableAfter(VerdictOf(policy, old(sessions.View()), p, now), old(sessions.View()), p, now)
    {
      if LaterFragment(p) {
        relayed := sessions.AllowsFragment(p, now);
        return;
      }
      var decision := EvaluateIpv4Packet(p);
      var establishedReply := false;
      if decision.action == Deny {
        establishedReply := sessions.AllowsReply(p, now);
      }
      if decision.action == Allow {
        sessions.ObserveAllowed(p, now);
      } else if !establishedReply {
        return false;
      }
      sessions.NoteForwardedFragment(p, now);
      return true;
    }
  }

  // ----- packets as they are written -----

  /** The decision is that of the rules for the very addresses, protocol and port that were written. */
  lemma WrittenIsEvaluated(policy: Policy, d: Format.Datagram)
    requires Format.Valid(d)
    ensures Evaluation(policy, Format.Encode(d)) == Evaluated(policy, d.source, d.destination, d.protocol, Format.DestinationPort(d))
    ensures LaterFragment(Format.Encode(d)) <==> d.fragmentOffset > 0
  {
    Format.FieldsAreRead(d);
    Format.FragmentBitsRead(d);
    Format.LengthReads(d);
  }

  lemma WrittenVerdict(policy: Policy, t: Table, d: Format.Datagram, now: nat)
    requires Format.Valid(d)
    ensures
      var v := VerdictOf(policy, t, Format.Encode(d), now);
      && (v.Fragment? <==> d.fragmentOffset > 0)
      && (v.ByPolicy? <==>
            d.fragmentOffset == 0
            && Evaluated(policy, d.source, d.destination, d.protocol, Format.DestinationPort(d)).action == Allow)
  {
    WrittenIsEvaluated(policy, d);
  }

  /**
    What becomes of a written packet under compiled rules, told from the configuration: later fragments
    follow their first one; what goes between the two sides of a denied pair is no one's by right; any
    other goes by the first enabled rule written for it, or the default; and what is not allowed passes
    only as an answer.
  */
  lemma WrittenPacketIsJudged(config: Config, t: Table, d: Format.Datagram, now: nat)
    requires Format.Valid(d) && Compiled(config).Some?
    ensures
      var v := VerdictOf(Compiled(config).value, t, Format.Encode(d), now);
      var port := Format.DestinationPort(d);
      && (v.Fragment? <==> d.fragmentOffset > 0)
      && (d.fragmentOffset == 0 ==>
        && (AclMeaning.DenyConcerns(config, d.source, d.destination) ==> !v.ByPolicy?)
        && (!AclMeaning.DenyConcerns(config, d.source, d.destination) ==>
              if AclMeaning.Unruled(config, d.source, d.destination, d.protocol, port) then (v.ByPolicy? <==> config.fallback == Allow)
              else exists i: nat ::
                && AclMeaning.Ruling(config, i, d.source, d.destination, d.protocol, port)
                && (v.ByPolicy? <==> config.rules[i].action == Allow)))
  {
    WrittenVerdict(Compiled(config).value, t, d, now);
    AclMeaning.CompiledMeans(config, d.source, d.destination, d.protocol, Format.DestinationPort(d));
  }

  // ----- whole runs -----

  datatype Input = Arrive(p: Packet, at: nat) | SetAcl(policy: Policy, at: nat)

  function PolicyOf(ins: seq<Input>): Policy {
    if ins == [] then Policy(Allow, [])
    else
      match ins[|ins| - 1]
      case Arrive(_, _) => PolicyOf(ins[..|ins| - 1])
      case SetAcl(policy, _) => policy
  }

  function TableOf(ins: seq<Input>): Table {
    if ins == [] then EMPTY
    else
      var before, last := ins[..|ins| - 1], ins[|ins| - 1];
      match last
      case Arrive(p, at) => TableAfter(VerdictOf(PolicyOf(before), TableOf(before), p, at), TableOf(before), p, at)
      case SetAcl(_, _) => TableOf(before)
  }

  /** What the device would make of the packet if it came now. */
  function VerdictAt(ins: seq<Input>, p: Packet, now: nat): Verdict {
    VerdictOf(PolicyOf(ins), TableOf(ins), p, now)
  }

  predicate Passes(ins: seq<Input>, p: Packet, now: nat) {
    Passing(VerdictAt(ins, p, now))
  }

  ghost predicate InOrder(ins: seq<Input>, now: nat) {
    ins == [] || (ins[|ins| - 1].at <= now && InOrder(ins[..|ins| - 1], ins[|ins| - 1].at))
  }

  /** What the session table is asked to do for one packet. */
  function EventsFor(v: Verdict, p: Packet, at: nat): seq<Event> {
    match v
    case Fragment(_) => [AskFragment(p, at)]
    case ByPolicy => [Observe(p, at), Forward(p, at)]
    case AsAnswer => [AskReply(p, at), Forward(p, at)]
    case Refused => [AskReply(p, at)]
  }

  function Events(ins: seq<Input>): seq<Event> {
    if ins == [] then []
    else
      var before, last := ins[..|ins| - 1], ins[|ins| - 1];
      match last
      case Arrive(p, at) => Events(before) + EventsFor(VerdictAt(before, p, at), p, at)
      case SetAcl(_, _) => Events(before)
  }

  lemma RunOne(es: seq<Event>, e: Event)
    ensures Run(es + [e]) == Step(Run(es), e)
  {
    assert (es + [e])[..|es|] == es;
  }

  lemma RunTwo(es: seq<Event>, e: Event, f: Event)
    ensures Run(es + [e, f]) == Step(Step(Run(es), e), f)
  {
    assert es + [e, f] == es + [e] + [f];
    RunOne(es, e);
    RunOne(es + [e], f);
  }

  lemma RunFor(es: seq<Event>, v: Verdict, p: Packet, at: nat)
    ensures Run(es + EventsFor(v, p, at)) == TableAfter(v, Run(es), p, at)
  {
    match v
    case Fragment(_) => RunOne(es, AskFragment(p, at));
    case ByPolicy => RunTwo(es, Observe(p, at), Forward(p, at));
    case AsAnswer => RunTwo(es, AskReply(p, at), Forward(p, at));
    case Refused => RunOne(es, AskReply(p, at));
  }

  /** The session table sees a run of its own kind. */
  lemma {:induction false} TableIsRun(ins: seq<Input>)
    ensures TableOf(ins) == Run(Events(ins))
  {
    if ins != [] {
      var before, last := ins[..|ins| - 1], ins[|ins| - 1];
      TableIsRun(before);
      if last.Arrive? {
        RunFor(Events(before), VerdictAt(before, last.p, last.at), last.p, last.at);
      }
    }
  }

  lemma ClockedOne(es: seq<Event>, e: Event, now: nat)
    requires Clocked(es, e.at) && e.at <= now
    ensures Clocked(es + [e], now)
  {
    assert (es + [e])[..|es|] == es;
  }

  lemma {:induction false} ClockedOn(es: seq<Event>, at: nat, now: nat)
    requires Clocked(es, at) && at <= now
    ensures Clocked(es, now)
  {
  }

  lemma ClockedFor(es: seq<Event>, v: Verdict, p: Packet, at: nat, now: nat)
    requires Clocked(es, at) && at <= now
    ensures Clocked(es + EventsFor(v, p, at), now)
  {
    var more := EventsFor(v, p, at);
    if |more| == 2 {
      ClockedOne(es, more[0], at);
      ClockedOne(es + [more[0]], more[1], now);
      assert es + more == es + [more[0]] + [more[1]];
    } else {
      ClockedOne(es, more[0], now);
      assert more == [more[0]];
    }
  }

  lemma {:induction false} EventsInOrder(ins: seq<Input>, now: nat)
    requires InOrder(ins, now)
    ensures Clocked(Events(ins), now)
  {
    if ins != [] {
      var before, last := ins[..|ins| - 1], ins[|ins| - 1];
      EventsInOrder(before, last.at);
      if last.Arrive? {
        ClockedFor(Events(before), VerdictAt(before, last.p, last.at), last.p, last.at, now);
      } else {
        ClockedOn(Events(before), last.at, now);
      }
    }
  }

  // ----- why a packet is relayed -----

  /** The policy of the moment allows the packet to open `k`. */
  predicate OpensFlow(v: Verdict, p: Packet, k: ReplyKey) {
    v.ByPolicy? && OpenedKey(p) == Some(k)
  }

  /** A packet of the flow `k`: allowed, in the direction that is answered, or itself an answer. */
  predicate InFlow(v: Verdict, p: Packet, k: ReplyKey) {
    match v
    case ByPolicy => KeyOf(SessionCandidate(p)) == Some(k)
    case AsAnswer => PacketReplyKey(p) == Some(k)
    case _ => false
  }

  /**
    A packet that the policy then allowed opened the flow, and from it packets of the flow that were
    relayed lead to `now`, each less than a lifetime and `slack` after the one before.
  */
  ghost predicate Chain(ins: seq<Input>, k: ReplyKey, now: nat, slack: nat)
    decreases |ins|
  {
    ins != [] &&
    var before, last := ins[..|ins| - 1], ins[|ins| - 1];
    || Chain(before, k, now, slack)
    || (&& last.Arrive? && now < last.at + LifetimeOf(k) + slack
        && var v := VerdictAt(before, last.p, last.at);
           OpensFlow(v, last.p, k) || (InFlow(v, last.p, k) && Chain(before, k, last.at, slack)))
  }

  lemma ForwardLinksNothing(es: seq<Event>, p: Packet, at: nat, k: ReplyKey, now: nat)
    ensures Linked(es + [Forward(p, at)], k, now) == Linked(es, k, now)
    ensures Ideal(es + [Forward(p, at)], k, now) == Ideal(es, k, now)
  {
    assert (es + [Forward(p, at)])[..|es|] == es;
  }

  /** One event more, other than a clearing. */
  lemma LinkedOne(es: seq<Event>, e: Event, k: ReplyKey, now: nat)
    requires !e.Clear?
    ensures Linked(es + [e], k, now) <==>
      || Linked(es, k, now)
      || (now < e.at + LifetimeOf(k) + SECOND && (OpensKey(e, k) || (Renews(es, e, k) && Linked(es, k, e.at))))
    ensures Ideal(es + [e], k, now) <==>
      || Ideal(es, k, now)
      || (now < e.at + LifetimeOf(k) && (OpensKey(e, k) || (RenewedKey(e) == Some(k) && Ideal(es, k, e.at))))
  {
    assert (es + [e])[..|es|] == es;
  }

  /** What one packet adds to the links, given that it is no answer to anything open if it was refused. */
  lemma LinkedFor(es: seq<Event>, v: Verdict, p: Packet, at: nat, k: ReplyKey, now: nat)
    requires v.Refused? ==> !Lets(Run(es), p, at)
    ensures Linked(es + EventsFor(v, p, at), k, now) ==>
      || Linked(es, k, now)
      || (now < at + LifetimeOf(k) + SECOND && (OpensFlow(v, p, k) || (InFlow(v, p, k) && Linked(es, k, at))))
    ensures
      && (|| Ideal(es, k, now)
          || (now < at + LifetimeOf(k) && (OpensFlow(v, p, k) || (InFlow(v, p, k) && Ideal(es, k, at)))))
      ==> Ideal(es + EventsFor(v, p, at), k, now)
  {
    var more := EventsFor(v, p, at);
    LinkedOne(es, more[0], k, now);
    if |more| == 2 {
      ForwardLinksNothing(es + [more[0]], p, at, k, now);
      assert es + more == es + [more[0]] + [Forward(p, at)];
    } else {
      assert more == [more[0]];
    }
  }

  lemma {:induction false} LinkedIsChain(ins: seq<Input>, k: ReplyKey, now: nat)
    requires Linked(Events(ins), k, now)
    ensures Chain(ins, k, now, SECOND)
    decreases |ins|
  {
    var before, last := ins[..|ins| - 1], ins[|ins| - 1];
    if last.Arrive? {
      var v := VerdictAt(before, last.p, last.at);
      TableIsRun(before);
      LinkedFor(Events(before), v, last.p, last.at, k, now);
      if Linked(Events(before), k, now) {
        LinkedIsChain(before, k, now);
      } else if !OpensFlow(v, last.p, k) {
        LinkedIsChain(before, k, last.at);
      }
    } else {
      LinkedIsChain(before, k, now);
    }
  }

  lemma {:induction false} ChainHasOpening(ins: seq<Input>, k: ReplyKey, now: nat, slack: nat) returns (i: nat)
    requires Chain(ins, k, now, slack)
    ensures i < |ins| && ins[i].Arrive? && OpensFlow(VerdictAt(ins[..i], ins[i].p, ins[i].at), ins[i].p, k)
    decreases |ins|
  {
    var before, last := ins[..|ins| - 1], ins[|ins| - 1];
    if Chain(before, k, now, slack) {
      i := ChainHasOpening(before, k, now, slack);
      assert before[..i] == ins[..i];
    } else if OpensFlow(VerdictAt(before, last.p, last.at), last.p, k) {
      i := |ins| - 1;
    } else {
      i := ChainHasOpening(before, k, last.at, slack);
      assert before[..i] == ins[..i];
    }
  }

  /** Whatever the session table was told to forward, the device relayed. */
  lemma {:induction false} ForwardedWasRelayed(ins: seq<Input>, i: nat) returns (j: nat)
    requires i < |Events(ins)| && Events(ins)[i].Forward?
    ensures j < |ins| && ins[j] == Arrive(Events(ins)[i].p, Events(ins)[i].at)
    ensures !LaterFragment(ins[j].p) && Passes(ins[..j], ins[j].p, ins[j].at)
    decreases |ins|
  {
    var before := ins[..|ins| - 1];
    if i < |Events(before)| {
      j := ForwardedWasRelayed(before, i);
      assert before[..j] == ins[..j];
    } else {
      j := |ins| - 1;
    }
  }

  /** The first fragment of the same datagram, relayed less than 16 s ago. */
  ghost predicate FollowsFirst(ins: seq<Input>, j: nat, p: Packet, now: nat) {
    && j < |ins| && ins[j].Arrive? && now < ins[j].at + FRAGMENT_LIFETIME + SECOND
    && InitialFragment(ins[j].p) && MoreFragments(ins[j].p) && FragmentKeyOf(ins[j].p) == FragmentKeyOf(p)
    && !LaterFragment(ins[j].p) && Passes(ins[..j], ins[j].p, ins[j].at)
  }

  /** The packet goes the way opposite to one that the policy then allowed to open a session. */
  ghost predicate AnswersOpening(ins: seq<Input>, i: nat, p: Packet) {
    && i < |ins| && ins[i].Arrive? && VerdictAt(ins[..i], ins[i].p, ins[i].at).ByPolicy?
    && OpeningPacket(ins[i].p) && Reverses(p, ins[i].p)
  }

  /**
    Whatever happened before, a packet is relayed only if the policy allows it, or it answers along an
    unbroken chain a packet the policy allowed then, or it is a later fragment of a datagram whose
    first fragment was relayed just now.
  */
  lemma RelayedHasReason(ins: seq<Input>, p: Packet, now: nat)
    requires InOrder(ins, now) && Passes(ins, p, now)
    ensures
      if LaterFragment(p) then exists j: nat :: FollowsFirst(ins, j, p, now)
      else
        || Allowed(PolicyOf(ins), p)
        || (&& PacketReplyKey(p).Some? && Chain(ins, PacketReplyKey(p).value, now, SECOND)
            && exists i: nat :: AnswersOpening(ins, i, p))
  {
    TableIsRun(ins);
    EventsInOrder(ins, now);
    if LaterFragment(p) {
      var i := FragmentNeedsInitial(Events(ins), p, now);
      var j := ForwardedWasRelayed(ins, i);
      assert FollowsFirst(ins, j, p, now);
    } else if !Allowed(PolicyOf(ins), p) {
      LetThroughIsLinked(Events(ins), p, now);
      LinkedIsChain(ins, PacketReplyKey(p).value, now);
      var i := ChainHasOpening(ins, PacketReplyKey(p).value, now, SECOND);
      KeyMeansReversed(p, ins[i].p);
      assert AnswersOpening(ins, i, p);
    }
  }

  // ----- what is surely relayed -----

  lemma {:induction false} ChainIsIdeal(ins: seq<Input>, k: ReplyKey, now: nat)
    requires Chain(ins, k, now, 0)
    ensures Ideal(Events(ins), k, now)
    decreases |ins|
  {
    var before, last := ins[..|ins| - 1], ins[|ins| - 1];
    if Chain(before, k, now, 0) {
      ChainIsIdeal(before, k, now);
    }
    if last.Arrive? {
      var v := VerdictAt(before, last.p, last.at);
      if !Chain(before, k, now, 0) && !OpensFlow(v, last.p, k) {
        ChainIsIdeal(before, k, last.at);
      }
      TableIsRun(before);
      LinkedFor(Events(before), v, last.p, last.at, k, now);
    }
  }

  /** With room in the table, a packet that is no later fragment is relayed if it is allowed or answers along an exact chain. */
  lemma ReasonIsRelayed(ins: seq<Input>, p: Packet, now: nat)
    requires InOrder(ins, now) && NeverFull(Events(ins)) && !LaterFragment(p)
    requires Allowed(PolicyOf(ins), p) || (PacketReplyKey(p).Some? && Chain(ins, PacketReplyKey(p).value, now, 0))
    ensures Passes(ins, p, now)
  {
    if !Allowed(PolicyOf(ins), p) {
      TableIsRun(ins);
      EventsInOrder(ins, now);
      ChainIsIdeal(ins, PacketReplyKey(p).value, now);
      IdealIsLetThrough(Events(ins), p, now);
    }
  }

  // ----- when new rules take hold -----

  /** No packet from the `m`-th input on opens the flow or belongs to it. */
  ghost predicate QuietSince(ins: seq<Input>, m: nat, k: ReplyKey) {
    forall j | m <= j < |ins| && ins[j].Arrive? ::
      var v := VerdictAt(ins[..j], ins[j].p, ins[j].at);
      !OpensFlow(v, ins[j].p, k) && !InFlow(v, ins[j].p, k)
  }

  lemma {:induction false} OldChain(ins: seq<Input>, k: ReplyKey, since: nat, now: nat)
    requires InOrder(ins, since) && now >= since + LifetimeOf(k) + SECOND
    ensures !Chain(ins, k, now, SECOND)
    decreases |ins|
  {
    if ins != [] {
      OldChain(ins[..|ins| - 1], k, ins[|ins| - 1].at, now);
    }
  }

  /** A flow that falls silent for its lifetime and a second is over. */
  lemma {:induction false} SilenceEndsIt(ins: seq<Input>, m: nat, k: ReplyKey, since: nat, now: nat)
    requires m <= |ins| && QuietSince(ins, m, k) && InOrder(ins[..m], since)
    requires now >= since + LifetimeOf(k) + SECOND
    ensures !Chain(ins, k, now, SECOND)
    decreases |ins|
  {
    if |ins| > m {
      var before := ins[..|ins| - 1];
      assert before[..m] == ins[..m];
      forall j | m <= j < |before| && before[j].Arrive?
        ensures
          var v := VerdictAt(before[..j], before[j].p, before[j].at);
          !OpensFlow(v, before[j].p, k) && !InFlow(v, before[j].p, k)
      {
        assert before[..j] == ins[..j] && before[j] == ins[j];
      }
      SilenceEndsIt(before, m, k, since, now);
      assert ins[..|ins| - 1] == before;
    } else {
      assert ins[..m] == ins;
      OldChain(ins, k, since, now);
    }
  }

  /** Whole UDP packets of two members that answer each other. */
  ghost predicate Talk(q: Packet, r: Packet) {
    && Ipv4(q).Some? && Ipv4(q).value.protocol == UDP && Ipv4(q).value.src != Ipv4(q).value.dst
    && OpeningPacket(q) && OpeningPacket(r) && Reverses(q, r) && Reverses(r, q)
    && !LaterFragment(q) && !LaterFragment(r) && !MoreFragments(q) && !MoreFragments(r)
  }

  /** Both go out before the rules change, and then again and again. */
  function Rounds(q: Packet, r: Packet, policy: Policy, gap: nat, n: nat): seq<Input> {
    if n == 0 then [Arrive(q, 0), Arrive(r, 0), SetAcl(policy, 0)]
    else Rounds(q, r, policy, gap, n - 1) + [Arrive(q, Moment(gap, n)), Arrive(r, Moment(gap, n))]
  }

  function Moment(gap: nat, n: nat): nat {
    if n == 0 then 0 else Moment(gap, n - 1) + gap
  }

  /** The key is open until `until` at least. */
  ghost predicate OpenUntil(t: Table, k: ReplyKey, until: nat) {
    k in t.replies && t.replies[k].expiresAt >= until && t.replies[k].lifetime == UDP_SESSION_LIFETIME
  }

  lemma AnswerRenews(policy: Policy, t: Table, p: Packet, k: ReplyKey, other: ReplyKey, now: nat)
    requires !LaterFragment(p) && !MoreFragments(p) && !Allowed(policy, p) && PacketReplyKey(p) == Some(k) && k != other
    requires OpenUntil(t, k, now + 1) && OpenUntil(t, other, now + 1)
    ensures VerdictOf(policy, t, p, now).AsAnswer?
    ensures OpenUntil(TableAfter(AsAnswer, t, p, now), k, now + UDP_SESSION_LIFETIME)
    ensures forall until: nat | until > now && OpenUntil(t, other, until) :: OpenUntil(TableAfter(AsAnswer, t, p, now), other, until)
  {
  }

  lemma OpeningOpens(policy: Policy, t: Table, p: Packet, k: ReplyKey, now: nat)
    requires !LaterFragment(p) && !MoreFragments(p) && Allowed(policy, p) && OpenedKey(p) == Some(k)
    requires |Swept(t, now).replies| < MAX_ACL_SESSIONS
    ensures VerdictOf(policy, t, p, now).ByPolicy?
    ensures TableAfter(ByPolicy, t, p, now).replies == Swept(t, now).replies[k := Session(now + LifetimeOf(k), LifetimeOf(k))]
    ensures TableAfter(ByPolicy, t, p, now).nextPrune == Swept(t, now).nextPrune
  {
    CandidateMatches(p);
    ObservedOpens(Swept(t, now), SessionCandidate(p), k, now);
  }

  lemma ObservedOpens(t: Table, c: Option<Candidate>, k: ReplyKey, now: nat)
    requires |t.replies| < MAX_ACL_SESSIONS && Matching(c) && KeyOpenedBy(c) == Some(k)
    ensures ObservedAs(t, c, now).replies == t.replies[k := Session(now + LifetimeOf(k), LifetimeOf(k))]
  {
  }

  lemma TalkKeys(q: Packet, r: Packet)
    requires Talk(q, r)
    ensures PacketReplyKey(q).Some? && PacketReplyKey(q) == OpenedKey(r) && LifetimeOf(PacketReplyKey(q).value) == UDP_SESSION_LIFETIME
    ensures PacketReplyKey(r).Some? && PacketReplyKey(r) == OpenedKey(q) && LifetimeOf(PacketReplyKey(r).value) == UDP_SESSION_LIFETIME
    ensures PacketReplyKey(q) != PacketReplyKey(r)
  {
    KeyMeansReversed(q, r);
    KeyMeansReversed(r, q);
  }

  lemma TalkBegins(q: Packet, r: Packet, policy: Policy, gap: nat)
    requires Talk(q, r)
    ensures
      var t := TableOf(Rounds(q, r, policy, gap, 0));
      OpenUntil(t, PacketReplyKey(q).value, UDP_SESSION_LIFETIME) && OpenUntil(t, PacketReplyKey(r).value, UDP_SESSION_LIFETIME)
  {
    TalkKeys(q, r);
    var open, kq, kr := Policy(Allow, []), PacketReplyKey(q).value, PacketReplyKey(r).value;
    OpeningOpens(open, EMPTY, q, kr, 0);
    var t := TableAfter(ByPolicy, EMPTY, q, 0);
    OpeningOpens(open, t, r, kq, 0);
    TableAfterTwo(q, r, policy, gap);
  }

  lemma TableAfterTwo(q: Packet, r: Packet, policy: Policy, gap: nat)
    requires VerdictOf(Policy(Allow, []), EMPTY, q, 0).ByPolicy?
    requires VerdictOf(Policy(Allow, []), TableAfter(ByPolicy, EMPTY, q, 0), r, 0).ByPolicy?
    ensures TableOf(Rounds(q, r, policy, gap, 0)) == TableAfter(ByPolicy, TableAfter(ByPolicy, EMPTY, q, 0), r, 0)
  {
    var ins := Rounds(q, r, policy, gap, 0);
    assert ins[..2] == [Arrive(q, 0), Arrive(r, 0)] && ins[..2][..1] == [Arrive(q, 0)] && ins[..1][..0] == [];
    assert TableOf([Arrive(q, 0)]) == TableAfter(ByPolicy, EMPTY, q, 0);
  }

  lemma {:induction false} RulesStay(q: Packet, r: Packet, policy: Policy, gap: nat, n: nat)
    ensures PolicyOf(Rounds(q, r, policy, gap, n)) == policy
  {
    if n > 0 {
      var ins := Rounds(q, r, policy, gap, n);
      RulesStay(q, r, policy, gap, n - 1);
      assert ins[..|ins| - 1][..|ins| - 2] == Rounds(q, r, policy, gap, n - 1);
    }
  }

  /** One more round. */
  lemma TalkRound(ins: seq<Input>, q: Packet, r: Packet, now: nat)
    requires Talk(q, r) && !Allowed(PolicyOf(ins), q) && !Allowed(PolicyOf(ins), r)
    requires OpenUntil(TableOf(ins), PacketReplyKey(q).value, now + 1) && OpenUntil(TableOf(ins), PacketReplyKey(r).value, now + 1)
    ensures VerdictAt(ins, q, now).AsAnswer? && VerdictAt(ins + [Arrive(q, now)], r, now).AsAnswer?
    ensures
      var t := TableOf(ins + [Arrive(q, now), Arrive(r, now)]);
      && OpenUntil(t, PacketReplyKey(q).value, now + UDP_SESSION_LIFETIME)
      && OpenUntil(t, PacketReplyKey(r).value, now + UDP_SESSION_LIFETIME)
  {
    TalkKeys(q, r);
    var kq, kr, policy := PacketReplyKey(q).value, PacketReplyKey(r).value, PolicyOf(ins);
    AnswerRenews(policy, TableOf(ins), q, kq, kr, now);
    var more := ins + [Arrive(q, now)];
    assert more[..|ins|] == ins;
    AnswerRenews(policy, TableOf(more), r, kr, kq, now);
    var both := ins + [Arrive(q, now), Arrive(r, now)];
    assert both[..|both| - 1] == more;
  }

  lemma {:induction false} TalkStaysOpen(q: Packet, r: Packet, policy: Policy, gap: nat, n: nat)
    requires Talk(q, r) && !Allowed(policy, q) && !Allowed(policy, r) && gap < UDP_SESSION_LIFETIME
    ensures
      var t, until := TableOf(Rounds(q, r, policy, gap, n)), Moment(gap, n) + UDP_SESSION_LIFETIME;
      OpenUntil(t, PacketReplyKey(q).value, until) && OpenUntil(t, PacketReplyKey(r).value, until)
  {
    if n == 0 {
      TalkBegins(q, r, policy, gap);
    } else {
      TalkStaysOpen(q, r, policy, gap, n - 1);
      RulesStay(q, r, policy, gap, n - 1);
      TalkRound(Rounds(q, r, policy, gap, n - 1), q, r, Moment(gap, n));
    }
  }

  /**
    New rules do not end a conversation: if two members answer each other at least every 30 s, their
    packets are relayed round after round, although the rules have come to deny all of them.
  */
  lemma TalkOutlivesItsDenial(q: Packet, r: Packet, policy: Policy, gap: nat, n: nat)
    requires Talk(q, r) && !Allowed(policy, q) && !Allowed(policy, r) && gap < UDP_SESSION_LIFETIME
    ensures
      var ins, now := Rounds(q, r, policy, gap, n), Moment(gap, n + 1);
      && PolicyOf(ins) == policy
      && VerdictAt(ins, q, now).AsAnswer? && VerdictAt(ins + [Arrive(q, now)], r, now).AsAnswer?
  {
    TalkStaysOpen(q, r, policy, gap, n);
    RulesStay(q, r, policy, gap, n);
    TalkRound(Rounds(q, r, policy, gap, n), q, r, Moment(gap, n + 1));
  }
}
