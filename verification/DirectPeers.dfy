/** What the ticks of the direct-peer manager keep, and how they are spaced in time. */
module DirectPeers {
  import opened Options
  import opened Direct

  // ----- one tick -----

  /** A probe routes nothing, an established peer exactly one address; nobody both is tried and rests. */
  ghost predicate Sound(s: Slot) {
    && (s.peer.Some? ==> s.wg.Some? && s.cooldown.None?)
    && (s.peer.Some? && s.peer.value.phase.Trying? ==> s.wg.value.allowedIps == [])
    && (s.peer.Some? && s.peer.value.phase.Established? ==> s.wg.value.allowedIps == [s.peer.value.ip])
  }

  /** A key keeps its virtual address for as long as it keeps its endpoint. */
  ghost predicate Stable(s: Slot, g: Signal) {
    s.peer.Some? && g.wanted.Some? && s.peer.value.endpoint == g.wanted.value.endpoint ==> s.peer.value.ip == g.wanted.value.ip
  }

  lemma StepKeepsSound(s: Slot, g: Signal)
    requires Sound(s) && Stable(s, g)
    ensures Sound(Stepped(s, g))
    ensures Stepped(s, g).peer.Some? ==>
      g.wanted.Some? && Stepped(s, g).peer.value.ip == g.wanted.value.ip && Stepped(s, g).peer.value.endpoint == g.wanted.value.endpoint
    ensures Stepped(s, g).peer.Some? && Stepped(s, g).peer.value.phase.Established? ==> g.alive
    ensures g.works && (s.wg.Some? ==> s.peer.Some?) ==> (Stepped(s, g).wg.Some? ==> Stepped(s, g).peer.Some?)
    ensures s.peer.None? && g.wanted.None? ==> Stepped(s, g).wg == s.wg && Stepped(s, g).peer.None?
  {
  }

  /** Without that stability the route and the manager's record part ways exactly when they are set up. */
  lemma RouteMatchesRecordIff(s: Slot, g: Signal)
    requires Sound(s) && s.peer.Some? && s.peer.value.phase.Trying? && g.alive && g.works
    requires g.wanted.Some? && s.peer.value.endpoint == g.wanted.value.endpoint
    ensures Stepped(s, g).wg.Some? && Stepped(s, g).wg.value.allowedIps == [g.wanted.value.ip]
    ensures Sound(Stepped(s, g)) <==> s.peer.value.ip == g.wanted.value.ip
  {
  }

  /** `other` marks the peers of the tunnel that are none of the manager's business. */
  ghost predicate Managed(s: Slot, other: bool) {
    Sound(s) && if other then s.peer.None? else s.wg.Some? ==> s.peer.Some?
  }

  ghost predicate Consistent(v: Snapshot, others: set<Key>) {
    forall k :: Managed(SlotAt(v, k), k in others)
  }

  ghost predicate AllStable(v: Snapshot, desired: map<Key, Wanted>) {
    forall k <- v.states :: k in desired && v.states[k].endpoint == desired[k].endpoint ==> v.states[k].ip == desired[k].ip
  }

  lemma AfterTickOne(
    v: Snapshot, v': Snapshot, others: set<Key>,
    desired: map<Key, Wanted>, alive: map<Key, bool>, now: nat, k: Key)
    requires Consistent(v, others) && AllStable(v, desired) && desired.Keys !! others
    requires Ticked(v, v', desired, alive, {}, now)
    ensures Managed(SlotAt(v', k), k in others)
    ensures k in others ==> SlotAt(v', k).wg == SlotAt(v, k).wg
    ensures k in v'.states ==> Serves(v', k, desired, alive)
  {
    var s, g := SlotAt(v, k), Signal(Lookup(desired, k), IsAlive(alive, k), k !in {}, now);
    assert SlotAt(v', k) == Stepped(s, g) && Managed(s, k in others);
    StepKeepsSound(s, g);
  }

  /** The peer is eligible as recorded; a probe routes nothing, an established peer was just heard. */
  ghost predicate Serves(v: Snapshot, k: Key, desired: map<Key, Wanted>, alive: map<Key, bool>)
    requires k in v.states
  {
    var p := v.states[k];
    && k in desired && p.ip == desired[k].ip && p.endpoint == desired[k].endpoint
    && k in v.peers && k !in v.cooldown
    && match p.phase
       case Trying(_, _) => v.peers[k].allowedIps == []
       case Established => v.peers[k].allowedIps == [p.ip] && IsAlive(alive, k)
  }

  /**
    After a tick in which the tunnel obeyed, its peers are the others, untouched, and exactly the
    peers the manager knows. All of these are eligible; those with a route had a live handshake.
  */
  lemma AfterTick(
    v: Snapshot, v': Snapshot, others: set<Key>,
    desired: map<Key, Wanted>, alive: map<Key, bool>, now: nat)
    requires Consistent(v, others) && AllStable(v, desired) && desired.Keys !! others
    requires Ticked(v, v', desired, alive, {}, now)
    ensures Consistent(v', others)
    ensures forall k <- others :: Lookup(v'.peers, k) == Lookup(v.peers, k)
    ensures v'.peers.Keys == v'.states.Keys + v.peers.Keys * others
    ensures forall k <- v'.states :: Serves(v', k, desired, alive)
  {
    forall k
      ensures Managed(SlotAt(v', k), k in others)
      ensures k in others ==> SlotAt(v', k).wg == SlotAt(v, k).wg
      ensures k in v'.states ==> Serves(v', k, desired, alive)
    {
      AfterTickOne(v, v', others, desired, alive, now, k);
    }
    PeersAre(v, v', others);
  }

  lemma PeersAre(v: Snapshot, v': Snapshot, others: set<Key>)
    requires Consistent(v', others)
    requires forall k <- others :: SlotAt(v', k).wg == SlotAt(v, k).wg
    ensures v'.peers.Keys == v'.states.Keys + v.peers.Keys * others
    ensures forall k <- others :: Lookup(v'.peers, k) == Lookup(v.peers, k)
  {
    forall k
      ensures k in v'.peers <==> k in v'.states || (k in v.peers && k in others)
    {
      assert Managed(SlotAt(v', k), k in others);
      if k in others {
        assert SlotAt(v', k).wg == SlotAt(v, k).wg;
      }
    }
  }

  // ----- who is heard, and who is online -----

  /** The last thing the tunnel says of the key is a handshake at most three minutes old. */
  ghost predicate JustHeard(stats: seq<Stat>, k: Key) {
    exists i: nat :: LastStat(stats, k, i) && stats[i].handshakeAge.Some? && stats[i].handshakeAge.value <= 180 * SECOND
  }

  ghost predicate LastStat(stats: seq<Stat>, k: Key, i: nat) {
    i < |stats| && stats[i].key == k && forall j | i < j < |stats| :: stats[j].key != k
  }

  lemma LastStatInFront(stats: seq<Stat>, k: Key, i: nat)
    requires stats != [] && stats[|stats| - 1].key != k
    ensures LastStat(stats, k, i) <==> LastStat(stats[..|stats| - 1], k, i)
  {
  }

  lemma {:induction false} AliveIff(stats: seq<Stat>, k: Key)
    ensures IsAlive(AliveOf(stats), k) <==> JustHeard(stats, k)
  {
    if stats != [] {
      var front, last := stats[..|stats| - 1], stats[|stats| - 1];
      if last.key == k {
        assert LastStat(stats, k, |stats| - 1);
      } else {
        AliveIff(front, k);
        forall i: nat
          ensures LastStat(stats, k, i) <==> LastStat(front, k, i)
        {
          LastStatInFront(stats, k, i);
        }
      }
    }
  }

  /** The manager knows the peer, and it is to be found where it was. */
  ghost predicate StillWanted(v: Snapshot, desired: map<Key, Wanted>, k: Key) {
    k in v.states && k in desired && v.states[k].endpoint == desired[k].endpoint
  }

  /**
    Established after a tick in which the tunnel obeyed are only peers that were just heard. A peer
    that is still wanted where it was is established if it was just heard; an established one that was
    not has fallen back to the relay, and rests.
  */
  lemma OnlyTheJustHeard(
    v: Snapshot, v': Snapshot, others: set<Key>,
    desired: map<Key, Wanted>, stats: seq<Stat>, now: nat, k: Key)
    requires Consistent(v, others) && AllStable(v, desired) && desired.Keys !! others
    requires Ticked(v, v', desired, AliveOf(stats), {}, now)
    ensures k in v'.states && v'.states[k].phase.Established? ==> JustHeard(stats, k)
    ensures StillWanted(v, desired, k) && JustHeard(stats, k) ==>
      && k in v'.states && v'.states[k].phase.Established? && k in v'.peers && v'.peers[k].allowedIps == [desired[k].ip]
    ensures StillWanted(v, desired, k) && v.states[k].phase.Established? && !JustHeard(stats, k) ==>
      && k !in v'.states && k !in v'.peers && Lookup(v'.cooldown, k) == Some(Cooldown(desired[k].endpoint, now))
  {
    AliveIff(stats, k);
    AfterTickOne(v, v', others, desired, AliveOf(stats), now, k);
    var s, g := SlotAt(v, k), Signal(Lookup(desired, k), IsAlive(AliveOf(stats), k), k !in {}, now);
    assert SlotAt(v', k) == Stepped(s, g) && Managed(s, k in others);
  }

  /** The tunnel sends to where the manager's record says the peer is, unless the peer itself was heard from elsewhere. */
  ghost predicate Aimed(v: Snapshot, k: Key) {
    k in v.states ==> k in v.peers && v.peers[k].endpoint == Some(v.states[k].endpoint)
  }

  lemma StaysAimed(
    v: Snapshot, v': Snapshot, others: set<Key>,
    desired: map<Key, Wanted>, alive: map<Key, bool>, now: nat, k: Key)
    requires Consistent(v, others) && AllStable(v, desired) && desired.Keys !! others
    requires Ticked(v, v', desired, alive, {}, now)
    ensures Aimed(v, k) ==> Aimed(v', k)
    ensures StillWanted(v, desired, k) && k in v'.states ==> v'.peers[k].endpoint == v.peers[k].endpoint
  {
    AfterTickOne(v, v', others, desired, alive, now, k);
    var s, g := SlotAt(v, k), Signal(Lookup(desired, k), IsAlive(alive, k), k !in {}, now);
    assert SlotAt(v', k) == Stepped(s, g) && Managed(s, k in others);
    StepAims(s, g);
  }

  lemma StepAims(s: Slot, g: Signal)
    requires Sound(s) && g.works && (s.wg.Some? && g.wanted.Some? ==> s.peer.Some?)
    ensures
      var s' := Stepped(s, g);
      && (s'.peer.Some? ==> s'.wg.Some?)
      && ((s.peer.Some? && s.wg.Some? ==> s.wg.value.endpoint == Some(s.peer.value.endpoint)) ==>
            (s'.peer.Some? ==> s'.wg.value.endpoint == Some(s'.peer.value.endpoint)))
      && (s.peer.Some? && g.wanted.Some? && s.peer.value.endpoint == g.wanted.value.endpoint && s'.peer.Some? ==>
            s'.wg.value.endpoint == s.wg.value.endpoint)
  {
  }

  /** The line is of another member that is online, may be reached directly, and was seen at its endpoint within five minutes. */
  ghost predicate Fresh(e: Entry, self: Key, subnet: set<Ip>, elapsed: nat) {
    && e.online && !e.isHost && e.key != self && !e.blocked && !e.forceRelay && e.ip in subnet && e.endpoint.Some?
    && match e.endpointAgeSecs
       case None => elapsed <= 300 * SECOND
       case Some(age) => age * SECOND + elapsed <= 300 * SECOND
  }

  /** Wanted are exactly the members with such a line. */
  lemma WantedIff(lines: seq<Entry>, self: Key, subnet: set<Ip>, receivedAt: nat, elapsed: nat, k: Key)
    ensures k in DesiredOf(lines, self, subnet, receivedAt + elapsed, receivedAt) <==>
      exists e <- lines :: e.key == k && Fresh(e, self, subnet, elapsed)
  {
    forall e
      ensures Eligible(e, self, subnet, receivedAt + elapsed, receivedAt) <==> Fresh(e, self, subnet, elapsed)
    {
    }
  }

  // ----- the rhythm of probing -----

  /** The key stays eligible at `want`, the tunnel obeys, and no handshake is ever seen. */
  function Unanswered(want: Wanted, now: nat): Signal {
    Signal(Some(want), false, true, now)
  }

  ghost predicate Paced(last: nat, times: seq<nat>, d: nat)
    decreases |times|
  {
    times != [] ==> last <= times[0] <= last + d && Paced(times[0], times[1..], d)
  }

  function After(s: Slot, want: Wanted, times: seq<nat>): Slot
    decreases |times|
  {
    if times == [] then s else After(Stepped(s, Unanswered(want, times[0])), want, times[1..])
  }

  /** When the next probe starts. */
  function NextProbe(s: Slot, want: Wanted, times: seq<nat>): Option<nat>
    decreases |times|
  {
    if times == [] then None
    else
      var s' := Stepped(s, Unanswered(want, times[0]));
      if s.peer.None? && s'.peer.Some? then Some(times[0]) else NextProbe(s', want, times[1..])
  }

  function LastOf(last: nat, times: seq<nat>): nat {
    if times == [] then last else times[|times| - 1]
  }

  /** The probe that began at `start` is still going at time `last`, or has failed and rests. */
  ghost predicate InCycle(s: Slot, want: Wanted, start: nat, last: nat, d: nat) {
    || (&& s.peer.Some? && s.peer.value.endpoint == want.endpoint && s.peer.value.phase.Trying?
        && s.peer.value.phase.since == start && s.cooldown.None? && last <= start + TRYING_TIMEOUT)
    || (&& s.peer.None? && s.cooldown.Some? && s.cooldown.value.endpoint == want.endpoint
        && start + TRYING_TIMEOUT < s.cooldown.value.at <= start + TRYING_TIMEOUT + d
        && last < s.cooldown.value.at + RETRY_INTERVAL)
  }

  lemma {:induction false} CycleBounds(s: Slot, want: Wanted, start: nat, last: nat, times: seq<nat>, d: nat)
    requires InCycle(s, want, start, last, d) && Paced(last, times, d)
    ensures match NextProbe(s, want, times)
      case Some(t) => start + TRYING_TIMEOUT + RETRY_INTERVAL < t < start + TRYING_TIMEOUT + RETRY_INTERVAL + 2 * d
      case None => LastOf(last, times) < start + TRYING_TIMEOUT + RETRY_INTERVAL + d
    decreases |times|
  {
    if times != [] {
      var s' := Stepped(s, Unanswered(want, times[0]));
      if !(s.peer.None? && s'.peer.Some?) {
        CycleBounds(s', want, start, times[0], times[1..], d);
      }
    }
  }

  /**
    With no answer at one endpoint, the next probe starts more than 105 s and, with ticks at most `d`
    apart, less than 105 s + 2 d after the last one; and it has started once 105 s + d have passed.
  */
  lemma ProbePeriod(s: Slot, want: Wanted, start: nat, times: seq<nat>, d: nat)
    requires s.peer.Some? && s.peer.value.endpoint == want.endpoint && s.cooldown.None?
    requires s.peer.value.phase.Trying? && s.peer.value.phase.since == start
    requires Paced(start, times, d)
    ensures NextProbe(s, want, times).Some? ==>
      105 * SECOND < NextProbe(s, want, times).value - start < 105 * SECOND + 2 * d
    ensures times != [] && times[|times| - 1] >= start + 105 * SECOND + d ==> NextProbe(s, want, times).Some?
  {
    CycleBounds(s, want, start, start, times, d);
  }

  // ----- two members that probe each other -----

  const PERIOD := 5 * SECOND
  const CYCLE := 110 * SECOND
  const WINDOW := 50 * SECOND

  /** The slot after `i` ticks, five seconds apart, that follow a first probe at time `t0`. */
  function Regular(want: Wanted, t0: nat, i: nat): Slot {
    if i == 0 then Stepped(Slot(None, None, None), Unanswered(want, t0))
    else Stepped(Regular(want, t0, i - 1), Unanswered(want, t0 + i * PERIOD))
  }

  /** At tick `r` of the round that began at `round`: a window is open for ten ticks out of twenty-two. */
  ghost predicate AtTick(s: Slot, want: Wanted, round: nat, r: nat) {
    if r < 10 then
      s.peer.Some? && s.peer.value.endpoint == want.endpoint && s.cooldown.None?
      && s.peer.value.phase.Trying? && s.peer.value.phase.since == round
    else
      s.peer.None? && s.cooldown == Some(Cooldown(want.endpoint, round + 10 * PERIOD))
  }

  lemma NextTick(s: Slot, want: Wanted, round: nat, r: nat)
    requires r < 22 && AtTick(s, want, round, r)
    ensures
      var s' := Stepped(s, Unanswered(want, round + (r + 1) * PERIOD));
      if r == 21 then AtTick(s', want, round + 22 * PERIOD, 0) else AtTick(s', want, round, r + 1)
  {
  }

  lemma RegularNext(want: Wanted, t0: nat, i: nat, round: nat, r: nat)
    requires i > 0 && r < 22 && AtTick(Regular(want, t0, i - 1), want, round, r)
    requires t0 + PERIOD * i == round + PERIOD * (r + 1)
    ensures if r == 21 then AtTick(Regular(want, t0, i), want, round + CYCLE, 0) else AtTick(Regular(want, t0, i), want, round, r + 1)
  {
    NextTick(Regular(want, t0, i - 1), want, round, r);
    assert t0 + i * PERIOD == round + (r + 1) * PERIOD;
  }

  lemma {:induction false} WithinRound(want: Wanted, t0: nat, first: nat, round: nat, i: nat, r: nat)
    requires r < 22 && i == first + r && AtTick(Regular(want, t0, first), want, round, 0) && t0 + PERIOD * first == round
    ensures AtTick(Regular(want, t0, i), want, round, r)
    decreases r
  {
    if r > 0 {
      WithinRound(want, t0, first, round, i - 1, r - 1);
      RegularNext(want, t0, i, round, r - 1);
    }
  }

  lemma NextRound(want: Wanted, t0: nat, first: nat, round: nat)
    requires AtTick(Regular(want, t0, first), want, round, 0) && t0 + PERIOD * first == round
    ensures AtTick(Regular(want, t0, first + 22), want, round + CYCLE, 0)
  {
    WithinRound(want, t0, first, round, first + 21, 21);
    RegularNext(want, t0, first + 22, round, 21);
  }

  lemma {:induction false} RoundBegins(want: Wanted, t0: nat, q: nat, first: nat, round: nat)
    requires first == 22 * q && round == t0 + CYCLE * q
    ensures AtTick(Regular(want, t0, first), want, round, 0)
    decreases q
  {
    if q > 0 {
      RoundBegins(want, t0, q - 1, first - 22, round - CYCLE);
      NextRound(want, t0, first - 22, round - CYCLE);
    }
  }

  /** Tick `r` of round `q`: a round takes 22 ticks, which are 110 s. */
  lemma RegularInStep(want: Wanted, t0: nat, q: nat, r: nat)
    requires r < 22
    ensures AtTick(Regular(want, t0, 22 * q + r), want, t0 + CYCLE * q, r)
  {
    RoundBegins(want, t0, q, 22 * q, t0 + CYCLE * q);
    WithinRound(want, t0, 22 * q, t0 + CYCLE * q, 22 * q + r, r);
  }

  /** The member whose first probe began at `t0` is probing at time `t`. */
  predicate OpenAt(want: Wanted, t0: nat, t: nat) {
    t >= t0 && Regular(want, t0, (t - t0) / PERIOD).peer.Some?
  }

  lemma TicksOfCycle(q: nat, r: nat)
    requires r < CYCLE
    ensures (CYCLE * q + r) / PERIOD == 22 * q + r / PERIOD
  {
    assert CYCLE * q + r == PERIOD * (22 * q) + r;
  }

  /** It is open for the first 50 s of every 110 s. */
  lemma OpenAtIff(want: Wanted, t0: nat, t: nat)
    requires t >= t0
    ensures OpenAt(want, t0, t) <==> (t - t0) % CYCLE < WINDOW
  {
    var q, r := (t - t0) / CYCLE, (t - t0) % CYCLE;
    TicksOfCycle(q, r);
    RegularInStep(want, t0, q, r / PERIOD);
  }

  // ----- how long two such windows are open together -----

  predicate BothOpen(mine: Wanted, theirs: Wanted, t0: nat, t1: nat, t: nat) {
    OpenAt(mine, t0, t) && OpenAt(theirs, t1, t)
  }

  /** The nanoseconds, of `n` from `from` on, at which both windows are open. */
  function Shared(mine: Wanted, theirs: Wanted, t0: nat, t1: nat, from: nat, n: nat): nat {
    if n == 0 then 0
    else Shared(mine, theirs, t0, t1, from, n - 1) + if BothOpen(mine, theirs, t0, t1, from + n - 1) then 1 else 0
  }

  /** The same seen from the first window, for a second one that lags by `lag`. */
  predicate Both(lag: int, x: int) {
    x % CYCLE < WINDOW && (x - lag) % CYCLE < WINDOW
  }

  function Count(lag: int, from: int, n: nat): nat {
    if n == 0 then 0 else Count(lag, from, n - 1) + if Both(lag, from + n - 1) then 1 else 0
  }

  lemma {:induction false} CountFromEnd(lag: int, from: int, n: nat)
    ensures Count(lag, from, n + 1) == (if Both(lag, from) then 1 else 0) + Count(lag, from + 1, n)
  {
    if n > 0 {
      CountFromEnd(lag, from, n - 1);
    } else {
      assert Count(lag, from, 1) == Count(lag, from, 0) + if Both(lag, from) then 1 else 0;
    }
  }

  lemma AfterCycle(lag: int, x: int)
    ensures Both(lag, x + CYCLE) <==> Both(lag, x)
  {
    OneCycleOn(x);
    OneCycleOn(x - lag);
  }

  lemma OneCycleOn(x: int)
    ensures (x + CYCLE) % CYCLE == x % CYCLE
  {
  }

  lemma {:induction false} EveryCycleAlike(lag: int, from: nat)
    ensures Count(lag, from, CYCLE) == Count(lag, 0, CYCLE)
  {
    if from > 0 {
      EveryCycleAlike(lag, from - 1);
      CountFromEnd(lag, from - 1, CYCLE - 1);
      AfterCycle(lag, from - 1);
    }
  }

  function AtLeast0(x: int): nat {
    if x > 0 then x else 0
  }

  function Smaller(x: int, y: int): int {
    if x < y then x else y
  }

  lemma InFirstCycle(lag: nat, x: nat)
    requires lag < CYCLE && x < CYCLE
    ensures Both(lag, x) <==> x < WINDOW && (x >= lag || x < lag + WINDOW - CYCLE)
  {
    if x < lag {
      OneCycleOn(x - lag);
    }
  }

  lemma {:induction false} CountInFirst(lag: nat, n: nat)
    requires lag < CYCLE && n <= CYCLE
    ensures Count(lag, 0, n) == AtLeast0(Smaller(n, WINDOW) - lag) + AtLeast0(Smaller(n, lag + WINDOW - CYCLE))
  {
    if n > 0 {
      CountInFirst(lag, n - 1);
      InFirstCycle(lag, n - 1);
    }
  }

  /** The time for which windows overlap in each cycle if the second begins `lag` after the first. */
  function Overlap(lag: nat): nat
    requires lag < CYCLE
  {
    AtLeast0(WINDOW - Smaller(lag, CYCLE - lag))
  }

  lemma LagModCycle(lag: int, x: int)
    ensures (x - lag) % CYCLE == (x - lag % CYCLE) % CYCLE
  {
    var q := lag / CYCLE;
    assert x - lag == (x - lag % CYCLE) - q * CYCLE;
    SomeCyclesOn(x - lag % CYCLE, -q);
  }

  lemma SomeCyclesOn(x: int, q: int)
    ensures (x + q * CYCLE) % CYCLE == x % CYCLE
  {
  }

  lemma BothOpenIff(mine: Wanted, theirs: Wanted, t0: nat, t1: nat, t: nat)
    requires t >= t0 && t >= t1
    ensures BothOpen(mine, theirs, t0, t1, t) <==> Both((t1 - t0) % CYCLE, t - t0)
  {
    OpenAtIff(mine, t0, t);
    OpenAtIff(theirs, t1, t);
    LagModCycle(t1 - t0, t - t0);
  }

  lemma {:induction false} SharedIsCount(mine: Wanted, theirs: Wanted, t0: nat, t1: nat, from: nat, n: nat)
    requires from >= t0 && from >= t1
    ensures Shared(mine, theirs, t0, t1, from, n) == Count((t1 - t0) % CYCLE, from - t0, n)
  {
    if n > 0 {
      SharedIsCount(mine, theirs, t0, t1, from, n - 1);
      BothOpenIff(mine, theirs, t0, t1, from + n - 1);
    }
  }

  /**
    Two members whose first probes begin at any two moments, each ticking every five seconds, probe
    together for exactly `Overlap` of the lag in every cycle. That is the 30 s which are promised
    exactly if the lag, within a cycle, is at most 20 s or at least 90 s.
  */
  lemma SharedPerCycle(mine: Wanted, theirs: Wanted, t0: nat, t1: nat, from: nat)
    requires from >= t0 && from >= t1
    ensures
      var lag := (t1 - t0) % CYCLE;
      && Shared(mine, theirs, t0, t1, from, CYCLE) == Overlap(lag)
      && (Shared(mine, theirs, t0, t1, from, CYCLE) >= 30 * SECOND <==> lag <= 20 * SECOND || lag >= 90 * SECOND)
  {
    var lag := (t1 - t0) % CYCLE;
    SharedIsCount(mine, theirs, t0, t1, from, CYCLE);
    EveryCycleAlike(lag, from - t0);
    CountInFirst(lag, CYCLE);
  }

  lemma {:induction false} SomethingShared(mine: Wanted, theirs: Wanted, t0: nat, t1: nat, from: nat, n: nat) returns (t: nat)
    requires Shared(mine, theirs, t0, t1, from, n) > 0
    ensures BothOpen(mine, theirs, t0, t1, t)
  {
    if BothOpen(mine, theirs, t0, t1, from + n - 1) {
      t := from + n - 1;
    } else {
      t := SomethingShared(mine, theirs, t0, t1, from, n - 1);
    }
  }

  lemma {:induction false} SharedAtLeastOne(mine: Wanted, theirs: Wanted, t0: nat, t1: nat, from: nat, n: nat, t: nat)
    requires from <= t < from + n && BothOpen(mine, theirs, t0, t1, t)
    ensures Shared(mine, theirs, t0, t1, from, n) > 0
  {
    if t < from + n - 1 {
      SharedAtLeastOne(mine, theirs, t0, t1, from, n - 1, t);
    }
  }

  /** So they ever probe together exactly if the lag, within a cycle, is less than 50 s or more than 60 s. */
  lemma WindowsMeetIff(mine: Wanted, theirs: Wanted, t0: nat, t1: nat)
    ensures (exists t: nat :: BothOpen(mine, theirs, t0, t1, t)) <==>
      (t1 - t0) % CYCLE < WINDOW || (t1 - t0) % CYCLE > CYCLE - WINDOW
  {
    var late := if t0 > t1 then t0 else t1;
    SharedPerCycle(mine, theirs, t0, t1, late);
    if t: nat :| BothOpen(mine, theirs, t0, t1, t) {
      SharedPerCycle(mine, theirs, t0, t1, t);
      SharedAtLeastOne(mine, theirs, t0, t1, t, CYCLE, t);
    }
    if Overlap((t1 - t0) % CYCLE) > 0 {
      var t := SomethingShared(mine, theirs, t0, t1, late, CYCLE);
    }
  }
}
