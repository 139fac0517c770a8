/**
  How fast a member finds its way back when the answer to its request was lost, so that it does not
  know which of its two keys the host holds (the fall-back of crates/peercove-cli/src/rotate.rs).
*/
module RotationRecovery {
  import opened Options
  import opened KeyFiles
  import opened Rotation

  /** A healthy tunnel hears its host at least this often. */
  const KEEPALIVE_GAP := 35 * SECOND

  /**
    `clock` is the time of the last event, `lastHeard` that of the last traffic (or of bringing the
    tunnel up), `lastTick` that of the last tick. `switches` counts changes of the running key.
  */
  datatype Member = Member(
    files: Files,
    m: Memory,
    running: Key,
    rx: nat,
    clock: nat,
    lastHeard: nat,
    lastTick: nat,
    switches: nat)

  /** The control link may come and go between ticks, but it brings no answer. */
  datatype Event =
    | Traffic(at: nat, bytes: nat)
    | Tick(o: Seen, manual: bool, link: Link.State)

  function TimeOf(e: Event): nat {
    match e
    case Traffic(at, _) => at
    case Tick(o, _, _) => o.now
  }

  /** Ticks are at most `d` apart; traffic flows only on the host's key, and then often enough. */
  ghost predicate Possible(s: Member, host: Key, d: nat, e: Event) {
    && s.clock <= TimeOf(e) <= s.lastTick + d
    && (s.running == host ==> TimeOf(e) <= s.lastHeard + KEEPALIVE_GAP)
    && match e
       case Traffic(_, bytes) => s.running == host && bytes > 0
       case Tick(o, _, link) => o.hasHost && o.rx == s.rx && link.rotateResult.None?
  }

  function Next(s: Member, e: Event): Member {
    match e
    case Traffic(at, bytes) => s.(rx := s.rx + bytes, clock := at, lastHeard := at)
    case Tick(o, manual, link) =>
      var r := Ticked(s.m, s.files, manual, link, o);
      var s' := s.(m := r.m, files := r.files, clock := o.now, lastTick := o.now);
      var key := if r.restart == Some(true) then r.files.pending else r.files.key;
      if r.restart.None? || key.None? then s'
      else
        s'.(m := Started(r.files, key.value, o.now), running := key.value, rx := 0,
            lastHeard := o.now, switches := s.switches + 1)
  }

  ghost predicate PossibleRun(s: Member, host: Key, d: nat, es: seq<Event>)
    decreases |es|
  {
    es != [] ==> Possible(s, host, d, es[0]) && PossibleRun(Next(s, es[0]), host, d, es[1..])
  }

  function Run(s: Member, es: seq<Event>): Member
    decreases |es|
  {
    if es == [] then s else Run(Next(s, es[0]), es[1..])
  }

  /**
    The running key is one of the two in the files, the machine knows which, and the host holds one
    of them. A trial of the waiting key that has heard something is on the host's key.
  */
  ghost predicate Coherent(s: Member, host: Key) {
    && s.files.Holds(host)
    && (if s.m.onPending then s.files.pending else s.files.key) == Some(s.running)
    && (s.m.onPending && s.running != host ==> s.rx == 0)
    && s.m.lastRxAt <= s.lastTick <= s.clock && s.m.lastRx <= s.rx && s.lastHeard <= s.clock
    && (s.rx == s.m.lastRx ==> s.lastHeard <= s.m.lastRxAt)
  }

  /** While on the wrong key, the machine has counted nothing since `start` and has not yet given up. */
  ghost predicate Waiting(s: Member, start: nat) {
    && s.rx == s.m.lastRx
    && s.m.lastRxAt <= start
    && s.switches == 0
    && (s.lastTick > start ==> !LinkDead(s.m, s.lastTick))
  }

  ghost predicate Progress(s: Member, host: Key, start: nat, home: bool) {
    && Coherent(s, host)
    && s.lastTick >= start
    && (s.running != host ==> !home && Waiting(s, start))
    && s.switches <= if home then 0 else 1
  }

  /** On the host's key the link never looks dead, whatever the pace of the ticks. */
  lemma NeverLeaves(s: Member, host: Key, d: nat, e: Event)
    requires Coherent(s, host) && s.running == host && Possible(s, host, d, e)
    ensures Next(s, e).running == host && Next(s, e).switches == s.switches
    ensures Coherent(Next(s, e), host)
  {
  }

  /** On the wrong key a tick either changes nothing or switches to the host's key. */
  lemma Switches(s: Member, host: Key, d: nat, start: nat, e: Event)
    requires Coherent(s, host) && s.running != host && Waiting(s, start) && Possible(s, host, d, e)
    requires s.lastTick >= start
    ensures Coherent(Next(s, e), host)
    ensures Next(s, e).running == host ==> Next(s, e).switches == 1
    ensures Next(s, e).running != host ==> Waiting(Next(s, e), start)
  {
  }

  lemma {:induction false} RunProgresses(s: Member, host: Key, d: nat, start: nat, home: bool, es: seq<Event>)
    requires Progress(s, host, start, home) && PossibleRun(s, host, d, es)
    ensures Progress(Run(s, es), host, start, home)
    ensures s.clock <= s.lastTick + d ==> Run(s, es).clock <= Run(s, es).lastTick + d
    decreases |es|
  {
    if es != [] {
      if s.running == host {
        NeverLeaves(s, host, d, es[0]);
      } else {
        Switches(s, host, d, start, es[0]);
      }
      RunProgresses(Next(s, es[0]), host, d, start, home, es[1..]);
    }
  }

  /**
    From any moment at which the machine has just looked, with the host's key fixed as one of the two
    on disk and no answer arriving, the member changes keys at most once, is on the host's key no
    later than 45 s plus one tick gap afterwards, and one that starts there never leaves it.
  */
  lemma FindsTheHostsKey(s: Member, host: Key, d: nat, es: seq<Event>)
    requires Coherent(s, host) && s.switches == 0
    requires s.clock == s.lastTick && s.rx == s.m.lastRx
    requires PossibleRun(s, host, d, es)
    ensures Run(s, es).switches <= 1
    ensures s.running == host ==> Run(s, es).running == host && Run(s, es).switches == 0
    ensures Run(s, es).clock > s.clock + DEAD_LINK_TIMEOUT + d ==> Run(s, es).running == host
  {
    RunProgresses(s, host, d, s.clock, s.running == host, es);
  }
}
