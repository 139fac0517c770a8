/**
  Direct peers of a member (crates/peercove-cli/src/direct.rs). A peer is first probed without any
  route; once its handshake is seen it gets its own /32. Whatever fails falls back to the relay.
*/
module Direct {
  import opened Options

  type Key = nat
  type Ip = nat
  type Endpoint = nat

  // Times are in nanoseconds.
  const SECOND: nat := 1_000_000_000
  const MAX_ENDPOINT_AGE := 300 * SECOND
  const TRYING_TIMEOUT := 45 * SECOND
  const HANDSHAKE_STALE := 180 * SECOND
  const RETRY_INTERVAL := 60 * SECOND

  datatype Phase = Trying(since: nat, quiet: bool) | Established

  datatype Peer = Peer(ip: Ip, endpoint: Endpoint, phase: Phase)

  datatype Cooldown = Cooldown(endpoint: Endpoint, at: nat)

  datatype Wanted = Wanted(ip: Ip, endpoint: Endpoint)

  /** One line of the ledger the host distributes. */
  datatype Entry = Entry(
    key: Key,
    ip: Ip,
    dnsName: Option<string>,
    isHost: bool,
    isAdmin: bool,
    awaitingApproval: bool,
    online: bool,
    blocked: bool,
    forceRelay: bool,
    aclRule: Option<string>,
    endpoint: Option<Endpoint>,
    endpointAgeSecs: Option<nat>)

  datatype Received = Received(members: seq<Entry>, receivedAt: nat)

  /** A peer of the tunnel: the addresses routed to it, and where it was told to be found. */
  datatype WgPeer = WgPeer(allowedIps: seq<Ip>, endpoint: Option<Endpoint>)

  /** The age of a peer's last handshake, if it ever had one. */
  datatype Stat = Stat(key: Key, handshakeAge: Option<nat>)

  /** The tunnel itself. `failing` says which peers it cannot change at the moment. */
  class WgBackend {
    var peers: map<Key, WgPeer>
    var failing: set<Key>

    constructor (peers: map<Key, WgPeer>)
      ensures this.peers == peers && failing == {}
    {
      this.peers, failing := peers, {};
    }

    function Works(key: Key): bool
      reads this
    {
      key !in failing
    }

    /** An existing peer keeps its endpoint when none is given. */
    method AddPeer(key: Key, endpoint: Option<Endpoint>, allowedIps: seq<Ip>) returns (ok: bool)
      modifies this`peers
      ensures ok == (key !in failing)
      ensures peers == if ok then old(peers)[key := AddedPeer(Lookup(old(peers), key), endpoint, allowedIps)] else old(peers)
    {
      ok := key !in failing;
      if ok {
        peers := peers[key := AddedPeer(Lookup(peers, key), endpoint, allowedIps)];
      }
    }

    method RemovePeer(key: Key) returns (ok: bool)
      modifies this`peers
      ensures ok == (key !in failing)
      ensures peers == if ok then old(peers) - {key} else old(peers)
    {
      ok := key !in failing;
      if ok {
        peers := peers - {key};
      }
    }
  }

  function AddedPeer(before: Option<WgPeer>, endpoint: Option<Endpoint>, allowedIps: seq<Ip>): WgPeer {
    WgPeer(allowedIps, if endpoint.None? && before.Some? then before.value.endpoint else endpoint)
  }

  // ----- what a tick does to one key -----

  /** Everything the manager and the tunnel know about one key. */
  datatype Slot = Slot(peer: Option<Peer>, cooldown: Option<Cooldown>, wg: Option<WgPeer>)

  /** What a tick is told about one key. */
  datatype Signal = Signal(wanted: Option<Wanted>, alive: bool, works: bool, now: nat)

  function Forget(s: Slot, g: Signal): Slot {
    match s.cooldown
    case Some(cd) => if g.now < cd.at + 2 * RETRY_INTERVAL then s else s.(cooldown := None)
    case None => s
  }

  function Drop(s: Slot, g: Signal): Slot {
    if s.peer.Some? then s.(peer := None, wg := if g.works then None else s.wg) else s
  }

  function TryAdd(s: Slot, g: Signal, want: Wanted, quiet: bool): Slot {
    if g.works then
      s.(peer := Some(Peer(want.ip, want.endpoint, Trying(g.now, quiet))),
         wg := Some(AddedPeer(s.wg, Some(want.endpoint), [])))
    else s
  }

  function Fail(s: Slot, g: Signal, want: Wanted): Slot {
    Drop(s.(cooldown := Some(Cooldown(want.endpoint, g.now))), g)
  }

  function Establish(s: Slot, g: Signal, want: Wanted): Slot
    requires s.peer.Some?
  {
    if g.works then
      Slot(Some(s.peer.value.(phase := Established)), None, Some(AddedPeer(s.wg, None, [want.ip])))
    else s
  }

  function Resting(s: Slot, g: Signal, want: Wanted): bool {
    s.cooldown.Some? && s.cooldown.value.endpoint == want.endpoint && g.now < s.cooldown.value.at + RETRY_INTERVAL
  }

  function Stepped(s0: Slot, g: Signal): Slot {
    var s := Forget(s0, g);
    match g.wanted
    case None => Drop(s, g)
    case Some(want) =>
      match s.peer
      case None =>
        if Resting(s, g, want) then s
        else
          TryAdd(s.(cooldown := None), g, want, s.cooldown.Some? && s.cooldown.value.endpoint == want.endpoint)
      case Some(p) =>
        if p.endpoint != want.endpoint then
          TryAdd(Drop(s.(cooldown := None), g), g, want, false)
        else
          match p.phase
          case Trying(since, _) =>
            if g.alive then Establish(s, g, want)
            else if g.now > since + TRYING_TIMEOUT then Fail(s, g, want)
            else s
          case Established => if g.alive then s else Fail(s, g, want)
  }

  lemma SteppedAfterForget(s: Slot, g: Signal)
    ensures Stepped(s, g) == if g.wanted.Some? then Stepped(Forget(s, g), g) else Drop(Forget(s, g), g)
  {
  }

  // ----- what a tick does to the whole table -----

  datatype Snapshot = Snapshot(states: map<Key, Peer>, cooldown: map<Key, Cooldown>, peers: map<Key, WgPeer>)

  function SlotAt(v: Snapshot, k: Key): Slot {
    Slot(Lookup(v.states, k), Lookup(v.cooldown, k), Lookup(v.peers, k))
  }

  /** Every key, of a direct peer or of anything else in the tunnel, moves on its own. */
  ghost predicate Ticked(
    v: Snapshot, v': Snapshot,
    desired: map<Key, Wanted>, alive: map<Key, bool>, failing: set<Key>, now: nat)
  {
    forall k :: SlotAt(v', k) == Stepped(SlotAt(v, k), Signal(Lookup(desired, k), IsAlive(alive, k), k !in failing, now))
  }

  // ----- who is eligible -----

  predicate Eligible(e: Entry, self: Key, subnet: set<Ip>, now: nat, receivedAt: nat) {
    && !e.isHost && e.online && !e.blocked && !e.forceRelay && e.key != self && e.endpoint.Some?
    && (if e.endpointAgeSecs.Some? then e.endpointAgeSecs.value else 0) * SECOND
       + (if now >= receivedAt then now - receivedAt else 0) <= MAX_ENDPOINT_AGE
    && e.ip in subnet
  }

  /** A key that is listed twice counts as the last eligible line says. */
  function DesiredOf(members: seq<Entry>, self: Key, subnet: set<Ip>, now: nat, receivedAt: nat): (r: map<Key, Wanted>)
    ensures forall k <- r :: exists e <- members ::
      e.key == k && Eligible(e, self, subnet, now, receivedAt) && e.endpoint == Some(r[k].endpoint) && e.ip == r[k].ip
    ensures forall e <- members | Eligible(e, self, subnet, now, receivedAt) :: e.key in r
  {
    if members == [] then map[]
    else
      var last := members[|members| - 1];
      assert members == members[..|members| - 1] + [last];
      var r := DesiredOf(members[..|members| - 1], self, subnet, now, receivedAt);
      if Eligible(last, self, subnet, now, receivedAt) then r[last.key := Wanted(last.ip, last.endpoint.value)] else r
  }

  function AliveOf(stats: seq<Stat>): map<Key, bool> {
    if stats == [] then map[]
    else
      var last := stats[|stats| - 1];
      AliveOf(stats[..|stats| - 1])[last.key := last.handshakeAge.Some? && last.handshakeAge.value <= HANDSHAKE_STALE]
  }

  function IsAlive(alive: map<Key, bool>, k: Key): bool {
    k in alive && alive[k]
  }

  class DirectManager {
    const self: Key
    const subnet: set<Ip>
    var states: map<Key, Peer>
    var cooldown: map<Key, Cooldown>

    constructor (self: Key, subnet: set<Ip>)
      ensures this.self == self && this.subnet == subnet && states == map[] && cooldown == map[]
    {
      this.self, this.subnet, states, cooldown := self, subnet, map[], map[];
    }

    function View(backend: WgBackend): Snapshot
      reads this, backend
    {
      Snapshot(states, cooldown, backend.peers)
    }

    function SlotOf(k: Key, backend: WgBackend): Slot
      reads this, backend
    {
      Slot(Lookup(states, k), Lookup(cooldown, k), Lookup(backend.peers, k))
    }

    function Desired(now: nat, received: Option<Received>): map<Key, Wanted>
    {
      if received.None? then map[]
      else DesiredOf(received.value.members, self, subnet, now, received.value.receivedAt)
    }

    /** What a tick is told about key `k`. */
    ghost function SignalOf(k: Key, desired: map<Key, Wanted>, stats: seq<Stat>, now: nat, backend: WgBackend): Signal
      reads backend
    {
      Signal(Lookup(desired, k), IsAlive(AliveOf(stats), k), backend.Works(k), now)
    }

    method Tick(now: nat, enabled: bool, received: Option<Received>, stats: seq<Stat>, backend: WgBackend)
      modifies this, backend`peers
      ensures
        var desired := if enabled then Desired(now, received) else map[];
        Ticked(old(View(backend)), View(backend), desired, AliveOf(stats), backend.failing, now)
    {
      var desired := if enabled then Desired(now, received) else map[];
      var alive := HandshakesAlive(stats);
      ForgetOld(now, backend);
      label forgotten:
      DropGone(desired, backend);
      label dropped:
      TickAll(desired, alive, now, backend);
      forall k
        ensures SlotOf(k, backend) == Stepped(old(SlotOf(k, backend)), SignalOf(k, desired, stats, now, backend))
      {
        var s, g := old(SlotOf(k, backend)), SignalOf(k, desired, stats, now, backend);
        assert old@forgotten(SlotOf(k, backend)) == Forget(s, g);
        assert old@dropped(SlotOf(k, backend)) == if k in desired then Forget(s, g) else Drop(Forget(s, g), g);
        SteppedAfterForget(s, g);
      }
      assert forall k :: SlotAt(View(backend), k) == SlotOf(k, backend) && SlotAt(old(View(backend)), k) == old(SlotOf(k, backend));
    }

    /** Stale records of failures are cleared away first. */
    method ForgetOld(now: nat, backend: WgBackend)
      modifies this`cooldown
      ensures forall k <- cooldown :: now < cooldown[k].at + 2 * RETRY_INTERVAL
      ensures forall k :: SlotOf(k, backend) == Forget(old(SlotOf(k, backend)), Signal(None, false, backend.Works(k), now))
    {
      cooldown := map k <- cooldown | now < cooldown[k].at + 2 * RETRY_INTERVAL :: cooldown[k];
    }

    /** Peers that are no longer wanted go without a cooldown. */
    method DropGone(desired: map<Key, Wanted>, backend: WgBackend)
      modifies this`states, backend`peers
      ensures forall k :: (SlotOf(k, backend) ==
        if k in desired then old(SlotOf(k, backend)) else Drop(old(SlotOf(k, backend)), Signal(None, false, backend.Works(k), 0)))
    {
      var gone := states.Keys - desired.Keys;
      while gone != {}
        invariant forall k <- gone :: k !in desired && SlotOf(k, backend) == old(SlotOf(k, backend))
        invariant forall k | k !in gone :: (SlotOf(k, backend) ==
          if k in desired then old(SlotOf(k, backend)) else Drop(old(SlotOf(k, backend)), Signal(None, false, backend.Works(k), 0)))
        decreases gone
      {
        var k :| k in gone;
        gone := gone - {k};
        DropPeer(k, backend);
      }
    }

    method TickAll(desired: map<Key, Wanted>, alive: map<Key, bool>, now: nat, backend: WgBackend)
      requires forall k <- cooldown :: now < cooldown[k].at + 2 * RETRY_INTERVAL
      modifies this, backend`peers
      ensures forall k :: (SlotOf(k, backend) ==
        if k in desired then
          Stepped(old(SlotOf(k, backend)), Signal(Some(desired[k]), IsAlive(alive, k), backend.Works(k), now))
        else old(SlotOf(k, backend)))
    {
      var todo := desired.Keys;
      while todo != {}
        invariant todo <= desired.Keys
        invariant forall k <- todo :: SlotOf(k, backend) == old(SlotOf(k, backend))
        invariant forall k | k !in todo :: (SlotOf(k, backend) ==
          if k in desired then
            Stepped(old(SlotOf(k, backend)), Signal(Some(desired[k]), IsAlive(alive, k), backend.Works(k), now))
          else old(SlotOf(k, backend)))
        decreases todo
      {
        var k :| k in todo;
        assert SlotOf(k, backend).cooldown == old(SlotOf(k, backend)).cooldown;
        todo := todo - {k};
        TickOne(k, desired[k], IsAlive(alive, k), now, backend);
      }
    }

    method HandshakesAlive(stats: seq<Stat>) returns (alive: map<Key, bool>)
      ensures alive == AliveOf(stats)
    {
      alive := map[];
      for i := 0 to |stats|
        invariant alive == AliveOf(stats[..i])
      {
        assert stats[..i + 1][..i] == stats[..i];
        var s := stats[i];
        alive := alive[s.key := s.handshakeAge.Some? && s.handshakeAge.value <= HANDSHAKE_STALE];
      }
      assert stats[..|stats|] == stats;
    }

    method TickOne(k: Key, want: Wanted, isAlive: bool, now: nat, backend: WgBackend)
      requires k in cooldown ==> now < cooldown[k].at + 2 * RETRY_INTERVAL
      modifies this, backend`peers
      ensures SlotOf(k, backend) == Stepped(old(SlotOf(k, backend)), Signal(Some(want), isAlive, backend.Works(k), now))
      ensures forall j | j != k :: SlotOf(j, backend) == old(SlotOf(j, backend))
    {
      if k in states {
        var p := states[k];
        if p.endpoint != want.endpoint {
          cooldown := cooldown - {k};
          DropPeer(k, backend);
          AddProbe(k, want, now, false, backend);
        } else if isAlive {
          if p.phase.Trying? {
            var ok := backend.AddPeer(k, None, [want.ip]);
            if ok {
              states := states[k := p.(phase := Established)];
              cooldown := cooldown - {k};
            }
          }
        } else if p.phase.Established? || now > p.phase.since + TRYING_TIMEOUT {
          cooldown := cooldown[k := Cooldown(want.endpoint, now)];
          DropPeer(k, backend);
        }
      } else if !(k in cooldown && cooldown[k].endpoint == want.endpoint && now < cooldown[k].at + RETRY_INTERVAL) {
        var quiet := k in cooldown && cooldown[k].endpoint == want.endpoint;
        cooldown := cooldown - {k};
        AddProbe(k, want, now, quiet, backend);
      }
    }

    method AddProbe(k: Key, want: Wanted, now: nat, quiet: bool, backend: WgBackend)
      requires k !in states
      modifies this`states, backend`peers
      ensures SlotOf(k, backend) == TryAdd(old(SlotOf(k, backend)), Signal(Some(want), false, backend.Works(k), now), want, quiet)
      ensures forall j | j != k :: SlotOf(j, backend) == old(SlotOf(j, backend))
    {
      var ok := backend.AddPeer(k, Some(want.endpoint), []);
      if ok {
        states := states[k := Peer(want.ip, want.endpoint, Trying(now, quiet))];
      }
    }

    /** The state goes even when the tunnel cannot remove the peer. */
    method DropPeer(k: Key, backend: WgBackend)
      modifies this`states, backend`peers
      ensures SlotOf(k, backend) == Drop(old(SlotOf(k, backend)), Signal(None, false, backend.Works(k), 0))
      ensures forall j | j != k :: SlotOf(j, backend) == old(SlotOf(j, backend))
    {
      if k in states {
        states := states - {k};
        var ok := backend.RemovePeer(k);
      }
    }
  }
}
