/**
  Key rotation between one member and its host, over a link that loses messages and sessions and
  under crashes of the member.

  The member's half is `Rotation.Ticked`; the host's half is `apply_rotate_key` of
  crates/peercove-cli/src/control.rs with `rotate_peer_key` of crates/peercove-ops/src/peers.rs.
  The host registers a new key in its configuration (`host`) and moves its tunnel over to it at its
  next reload (`wg`).
*/
module RotationProtocol {
  import opened Options
  import opened KeyFiles
  import opened Rotation

  /**
    `running` is the key the member's tunnel uses, `rx` the bytes it has heard since it came up.
    `requests` and `replies` are in flight, by the session they belong to. `newest` is the latest
    session the host has accepted, `others` the keys it refuses, `used` every key seen so far.
  */
  datatype World = World(
    files: Files,
    m: Memory,
    manual: bool,
    link: Link.State,
    running: Option<Key>,
    rx: nat,
    requests: map<nat, Key>,
    replies: map<nat, bool>,
    host: Key,
    wg: Key,
    newest: nat,
    others: set<Key>,
    used: set<Key>)

  datatype Action =
    | Tick(o: Seen)
    | Attach
    | Detach
    | WriterGone
    | Register(session: nat)
    | Handle
    | Deliver
    | LoseRequest(session: nat)
    | LoseReply(session: nat)
    | HostReload
    | Traffic(bytes: nat)
    | PressManual
    | Reconfigure(now: nat)
    | Crash
    | Boot(now: nat)

  predicate Enabled(w: World, a: Action) {
    match a
    case Tick(o) => w.running.Some? && (o.hasHost ==> o.rx == w.rx) && o.newKey !in w.used
    case Attach => w.running.Some?
    case Detach => true
    case WriterGone => w.link.outbox.Some?
    case Register(s) => w.newest < s <= w.link.session
    case Handle => w.newest in w.requests
    case Deliver => w.link.session in w.replies && w.link.outbox.Some?
    case LoseRequest(s) => true
    case LoseReply(s) => true
    case HostReload => true
    case Traffic(bytes) => w.running == Some(w.wg) && bytes > 0
    case PressManual => true
    case Reconfigure(_) => w.running.Some?
    case Crash => true
    case Boot(_) => w.running.None? && w.files.key.Some?
  }

  /** Taking the tunnel down and up ends the session; without a readable key it stays down. */
  function BroughtUp(w: World, key: Option<Key>, now: nat): World {
    var w' := w.(link := Link.AfterDetach(w.link), rx := 0, running := key);
    if key.None? then w' else w'.(m := Started(w.files, key.value, now))
  }

  /** The key the member asked for in this tick leaves for the host. */
  function SentOut(w: World, before: Link.State): World {
    if w.link.outbox.Some? && |w.link.outbox.value.sent| == 1 && w.link.outbox.value.sent[0].RotateKey? then
      w.(requests := w.requests[w.link.session := w.link.outbox.value.sent[0].newKey],
         link := w.link.(outbox := before.outbox))
    else w
  }

  function AfterTick(w: World, o: Seen): World {
    var r := Ticked(w.m, w.files, w.manual, w.link, o);
    var w' := SentOut(w.(m := r.m, files := r.files, manual := r.manual, link := r.link, used := w.used + {o.newKey}), w.link);
    match r.restart
    case None => w'
    case Some(usePending) => BroughtUp(w', if usePending then w'.files.pending else w'.files.key, o.now)
  }

  /** The host accepts the key it already holds, refuses one that is taken, and adopts any other. */
  function AfterHandle(w: World): World
    requires w.newest in w.requests
  {
    var k := w.requests[w.newest];
    var w' := w.(requests := w.requests - {w.newest});
    if k == w.host then w'.(replies := w.replies[w.newest := true])
    else if k in w.others then w'.(replies := w.replies[w.newest := false])
    else w'.(replies := w.replies[w.newest := true], host := k)
  }

  function Next(w: World, a: Action): World
    requires Enabled(w, a)
  {
    match a
    case Tick(o) => AfterTick(w, o)
    case Attach => w.(link := Link.AfterAttach(w.link))
    case Detach => w.(link := Link.AfterDetach(w.link))
    case WriterGone => w.(link := Link.Step(w.link, Link.WriterGone))
    case Register(s) => w.(newest := s)
    case Handle => AfterHandle(w)
    case Deliver =>
      w.(link := w.link.(rotateResult := Some(w.replies[w.link.session])), replies := w.replies - {w.link.session})
    case LoseRequest(s) => w.(requests := w.requests - {s})
    case LoseReply(s) => w.(replies := w.replies - {s})
    case HostReload => w.(wg := w.host)
    case Traffic(bytes) => w.(rx := w.rx + bytes)
    case PressManual => w.(manual := true)
    case Reconfigure(now) => BroughtUp(w, w.files.key, now)
    case Crash => w.(running := None, rx := 0, manual := false, link := Link.INITIAL.(session := w.link.session))
    case Boot(now) => BroughtUp(w, w.files.key, now)
  }

  /** A member that joined with key `k`, whose host refuses the keys in `others`. */
  function Joined(k: Key, selfGenerated: bool, others: set<Key>): World {
    World(
      Files(Some(k), None, selfGenerated), Memory(false, None, false, 0, 0), false, Link.INITIAL,
      None, 0, map[], map[], k, k, 0, others, {k})
  }

  /** The worlds of a run; it stops at the first action that is not possible. */
  function Run(w: World, actions: seq<Action>): World
    decreases |actions|
  {
    if actions == [] || !Enabled(w, actions[0]) then w else Run(Next(w, actions[0]), actions[1..])
  }

  // ----- the invariant -----

  ghost predicate Known(w: World) {
    && w.host in w.used && w.wg in w.used
    && (w.files.key.Some? ==> w.files.key.value in w.used)
    && (w.files.pending.Some? ==> w.files.pending.value in w.used)
    && (w.running.Some? ==> w.running.value in w.used)
    && (forall s <- w.requests :: w.requests[s] in w.used)
  }

  /** Sessions are numbered upwards, and one session carries one request or its one reply. */
  ghost predicate Ordered(w: World) {
    && w.newest <= w.link.session
    && (forall s <- w.requests :: s <= w.link.session && s !in w.replies)
    && (forall s <- w.replies :: s <= w.newest)
    && (w.link.outbox.Some? ==> w.link.outbox.value.sent == [])
  }

  ghost predicate Spent(w: World) {
    w.link.outbox.Some? && (w.link.session in w.requests || w.link.session in w.replies)
  }

  /** While the current session still owes an answer, the waiting key is the one it was asked about. */
  ghost predicate Owed(w: World) {
    && (Spent(w) ==> w.m.attempted == Some(w.link.session) && !w.m.onPending && w.link.rotateResult.None?)
    && (w.link.outbox.Some? && w.link.session in w.requests ==> w.files.pending == Some(w.requests[w.link.session]))
    && (w.link.outbox.Some? && w.link.session in w.replies ==> Told(w, w.replies[w.link.session]))
    && (w.link.rotateResult.Some? ==> Told(w, w.link.rotateResult.value))
  }

  /** An accepting answer means the host holds the waiting key, a refusing one that it never will. */
  ghost predicate Told(w: World, accepted: bool) {
    w.files.pending.Some? ==> if accepted then w.host == w.files.pending.value else w.files.pending.value in w.others
  }

  /** Requests the host may still act on only name keys that the member keeps or the host refuses. */
  ghost predicate LiveRequests(w: World) {
    && (forall s <- w.requests | s >= w.newest :: w.files.Holds(w.requests[s]) || w.requests[s] in w.others)
    && (forall s <- w.requests, s' <- w.requests |
          s <= s' && w.files.pending == Some(w.requests[s]) :: w.requests[s'] == w.requests[s])
    && (w.files.pending == Some(w.host) ==> forall s <- w.requests | s >= w.newest :: w.requests[s] == w.host)
  }

  /** Hearing the host on the waiting key shows that the host has it. */
  ghost predicate Trial(w: World) {
    && (w.files.pending == Some(w.wg) ==> w.host == w.wg)
    && (w.running.Some? && w.m.onPending && w.files.pending.Some? ==> w.files.pending == w.running)
    && (w.running.Some? && w.m.onPending && w.files.pending.Some? && w.rx > 0 ==> w.files.pending == Some(w.host))
  }

  /** The host's key is never one it refuses, and is in one of the two files. */
  ghost predicate Safe(w: World) {
    w.files.Holds(w.host)
  }

  ghost predicate Inv(w: World) {
    Safe(w) && w.host !in w.others && Known(w) && Ordered(w) && Owed(w) && LiveRequests(w) && Trial(w)
  }

  /** The clock and counters of the machine play no part in safety. */
  lemma NoticedKeeps(w: World, o: Seen)
    requires Inv(w)
    ensures Inv(w.(m := Noticed(w.m, o)))
  {
  }

  lemma CommitKeeps(w: World, io: CommitIo)
    requires Inv(w)
    requires w.files.pending.Some? ==> w.files.pending.value == w.host
    requires w.link.session in w.requests ==> w.link.outbox.None?
    requires w.link.session in w.replies ==> w.link.outbox.None?
    requires w.link.rotateResult.None?
    ensures Inv(w.(files := Committed(w.files, io).0))
  {
  }

  lemma DiscardKeeps(w: World, removed: bool)
    requires Inv(w)
    requires w.files.pending.Some? ==> w.files.pending.value in w.others
    requires !Spent(w) && w.link.rotateResult.None?
    ensures Inv(w.(files := Discarded(w.files, removed)))
  {
  }

  lemma BroughtUpKeeps(w: World, key: Option<Key>, now: nat)
    requires Inv(w)
    requires key.Some? ==> w.files.Holds(key.value)
    ensures Inv(BroughtUp(w, key, now))
  {
  }

  lemma MintKeeps(w: World, k: Key)
    requires Inv(w) && k !in w.used
    requires !Spent(w) && w.link.rotateResult.None? && w.files.pending.None? && !w.m.onPending
    ensures Inv(w.(files := w.files.(pending := Some(k)), used := w.used + {k}))
  {
  }

  lemma RequestKeeps(w: World)
    requires Inv(w) && w.files.pending.Some?
    requires w.link.outbox.Some? && !Spent(w) && w.link.rotateResult.None? && !w.m.onPending
    ensures Inv(w.(
      requests := w.requests[w.link.session := w.files.pending.value],
      m := w.m.(attempted := Some(w.link.session), announced := true)))
  {
  }

  /** Asking with key `k` in the waiting file; nothing leaves if the link is down. */
  lemma SentKeeps(w: World, l: Link.State, m: Memory, k: Key)
    requires Inv(w) && w.files.pending == Some(k)
    requires w.link.outbox.Some? && !Spent(w) && w.link.rotateResult.None? && !w.m.onPending
    requires l == Link.AfterSend(w.link, Link.RotateKey(k))
    requires m == if w.link.CanSend() then w.m.(attempted := Some(w.link.session), announced := true) else w.m
    ensures Inv(SentOut(w.(m := m, link := l), w.link))
  {
    if w.link.CanSend() {
      RequestKeeps(w);
      assert [] + [Link.RotateKey(k)] == [Link.RotateKey(k)];
      assert l.outbox.value.sent == [Link.RotateKey(k)];
    }
  }

  lemma AskedKeeps(w: World, o: Seen)
    requires Inv(w) && o.newKey !in w.used
    requires !w.m.onPending && w.link.rotateResult.None?
    ensures
      var r := Asked(w.m, w.files, w.manual, w.link, o);
      Inv(SentOut(w.(m := r.m, files := r.files, manual := r.manual, link := r.link, used := w.used + {o.newKey}), w.link))
  {
    var quiet := (w.files.selfGenerated && !w.manual) || w.link.Session().None? || w.m.attempted == w.link.Session();
    UsedKeeps(w, o.newKey);
    if !quiet {
      assert !Spent(w);
      var (files, key) := Ensured(w.files, o.newKey, o.writable);
      var ready := w.(used := w.used + {o.newKey}, files := files);
      if w.files.pending.None? && o.writable {
        MintKeeps(w, o.newKey);
      }
      assert Inv(ready);
      if key.Some? {
        var r := Asked(w.m, w.files, w.manual, w.link, o);
        SentKeeps(ready, r.link, r.m, key.value);
      }
    }
  }

  lemma TickKeeps(w: World, o: Seen)
    requires Inv(w) && Enabled(w, Tick(o))
    ensures Inv(AfterTick(w, o))
  {
    if o.hasHost {
      NoticedKeeps(w, o);
      NoticedTickKeeps(w, o, w.(m := Noticed(w.m, o)));
    } else {
      UsedKeeps(w, o.newKey);
    }
  }

  lemma UsedKeeps(w: World, k: Key)
    requires Inv(w)
    ensures Inv(w.(used := w.used + {k}))
    ensures w.link.outbox.Some? ==> w.link.outbox.value.sent == []
  {
  }

  lemma NoticedTickKeeps(w: World, o: Seen, n: World)
    requires Inv(n) && Enabled(w, Tick(o)) && o.hasHost && n == w.(m := Noticed(w.m, o))
    ensures Inv(AfterTick(w, o))
  {
    if w.link.rotateResult.Some? {
      AnswerKeeps(n, o, w.link.rotateResult.value);
      AfterTickIs(w, o, n);
    } else if n.m.onPending {
      TrialKeeps(n, o);
      AfterTickIs(w, o, n);
    } else if LinkDead(n.m, o.now) && w.files.pending.Some? {
      FallBackKeeps(n, o);
      AfterTickIs(w, o, n);
    } else {
      AskedKeeps(n, o);
    }
  }

  /** A tick that asks for nothing sends nothing. */
  lemma AfterTickIs(w: World, o: Seen, n: World)
    requires Ordered(n) && o.hasHost && n == w.(m := Noticed(w.m, o))
    requires w.link.rotateResult.Some? || n.m.onPending || (LinkDead(n.m, o.now) && w.files.pending.Some?)
    ensures
      var r := Ticked(w.m, w.files, w.manual, w.link, o);
      AfterTick(w, o) == Concluded(n, o, r.m, r.files, r.manual, r.link, r.restart)
  {
    var r := Ticked(w.m, w.files, w.manual, w.link, o);
    assert r.link.outbox == n.link.outbox;
    NothingSent(w.(m := r.m, files := r.files, manual := r.manual, link := r.link, used := w.used + {o.newKey}), w.link);
  }

  lemma NothingSent(w: World, before: Link.State)
    requires w.link.outbox.Some? ==> w.link.outbox.value.sent == []
    ensures SentOut(w, before) == w
  {
  }

  /** The world after a tick that began by noticing the traffic. */
  function Concluded(w: World, o: Seen, m: Memory, files: Files, manual: bool, link: Link.State, restart: Option<bool>): World {
    var w' := w.(m := m, files := files, manual := manual, link := link, used := w.used + {o.newKey});
    match restart
    case None => w'
    case Some(usePending) => BroughtUp(w', if usePending then files.pending else files.key, o.now)
  }

  lemma AnswerKeeps(w: World, o: Seen, accepted: bool)
    requires Inv(w) && w.link.rotateResult == Some(accepted)
    ensures
      var (f, ok) := Committed(w.files, o.commit);
      var l := w.link.(rotateResult := None);
      if accepted then Inv(Concluded(w, o, w.m, f, if ok then false else w.manual, l, if ok then Some(false) else None))
      else Inv(Concluded(w, o, w.m, Discarded(w.files, o.discarded), false, l, None))
  {
    var quiet := w.(used := w.used + {o.newKey}, link := w.link.(rotateResult := None));
    AnswerTaken(w, quiet, o.newKey);
    if accepted {
      AcceptedKeeps(quiet, o);
    } else {
      DiscardKeeps(quiet.(manual := false), o.discarded);
    }
  }

  lemma AcceptedKeeps(w: World, o: Seen)
    requires Inv(w) && !Spent(w) && w.link.rotateResult.None? && o.newKey in w.used
    requires w.files.pending.Some? ==> w.files.pending.value == w.host
    ensures
      var (f, ok) := Committed(w.files, o.commit);
      Inv(Concluded(w, o, w.m, f, if ok then false else w.manual, w.link, if ok then Some(false) else None))
  {
    var (f, ok) := Committed(w.files, o.commit);
    var manual := if ok then false else w.manual;
    var u := w.(manual := manual, used := w.used + {o.newKey});
    CommitKeeps(u, o.commit);
    if ok {
      BroughtUpKeeps(u.(files := f), f.key, o.now);
    }
  }

  lemma AnswerTaken(w: World, quiet: World, k: Key)
    requires Inv(w) && w.link.rotateResult.Some? && quiet == w.(used := w.used + {k}, link := w.link.(rotateResult := None))
    ensures Inv(quiet) && !Spent(quiet) && Told(w, w.link.rotateResult.value)
  {
  }

  lemma TrialKeeps(w: World, o: Seen)
    requires Inv(w) && w.link.rotateResult.None? && w.m.onPending
    requires w.running.Some? && o.rx == w.rx && o.newKey !in w.used
    ensures o.rx > 0 ==>
      var (f, ok) := Committed(w.files, o.commit);
      Inv(Concluded(w, o, if ok then w.m.(onPending := false) else w.m, f, w.manual, w.link, None))
    ensures o.rx == 0 ==> forall restart :: restart != Some(true) ==>
      Inv(Concluded(w, o, w.m, w.files, w.manual, w.link, restart))
  {
    UsedKeeps(w, o.newKey);
    if o.rx > 0 {
      ProvenKeeps(w.(used := w.used + {o.newKey}), o.commit);
    } else {
      BroughtUpKeeps(w.(used := w.used + {o.newKey}), w.files.key, o.now);
    }
  }

  /** Traffic on the waiting key has shown that the host has it. */
  lemma ProvenKeeps(w: World, io: CommitIo)
    requires Inv(w) && w.link.rotateResult.None? && w.m.onPending && w.running.Some? && w.rx > 0
    ensures
      var (f, ok) := Committed(w.files, io);
      Inv(w.(files := f, m := if ok then w.m.(onPending := false) else w.m))
  {
    CommitKeeps(w, io);
    var (f, ok) := Committed(w.files, io);
    if ok {
      OffTrialKeeps(w.(files := f));
    }
  }

  lemma OffTrialKeeps(w: World)
    requires Inv(w) && !Spent(w)
    ensures Inv(w.(m := w.m.(onPending := false)))
  {
  }

  lemma FallBackKeeps(w: World, o: Seen)
    requires Inv(w) && w.files.pending.Some? && o.newKey !in w.used
    ensures Inv(Concluded(w, o, w.m, w.files, w.manual, w.link, Some(true)))
  {
    BroughtUpKeeps(w.(used := w.used + {o.newKey}), w.files.pending, o.now);
  }

  lemma HandleKeepsOrdered(w: World)
    requires Inv(w) && Enabled(w, Handle)
    ensures Ordered(AfterHandle(w))
  {
  }

  lemma HandleKeepsOwed(w: World)
    requires Inv(w) && Enabled(w, Handle)
    ensures Owed(AfterHandle(w))
  {
    HostStaysTold(w);
    if w.link.outbox.Some? && w.newest == w.link.session {
      ReplyIsTrue(w);
    }
  }

  lemma ReplyIsTrue(w: World)
    requires Inv(w) && Enabled(w, Handle) && w.link.outbox.Some? && w.newest == w.link.session
    ensures w.newest in AfterHandle(w).replies && Told(AfterHandle(w), AfterHandle(w).replies[w.newest])
  {
  }

  /** What the member was told last stays true: only a key that is not taken becomes the host's. */
  lemma HostStaysTold(w: World)
    requires Inv(w) && Enabled(w, Handle)
    ensures w.link.rotateResult.Some? ==> Told(AfterHandle(w), w.link.rotateResult.value)
  {
  }

  lemma HandleKeepsSafe(w: World)
    requires Inv(w) && Enabled(w, Handle)
    ensures Safe(AfterHandle(w)) && AfterHandle(w).host !in w.others && Known(AfterHandle(w)) && Trial(AfterHandle(w))
  {
  }

  lemma HandleKeepsLive(w: World)
    requires Inv(w) && Enabled(w, Handle)
    ensures LiveRequests(AfterHandle(w))
  {
  }

  lemma HandleKeeps(w: World)
    requires Inv(w) && Enabled(w, Handle)
    ensures Inv(AfterHandle(w))
  {
    HandleKeepsOrdered(w);
    HandleKeepsOwed(w);
    HandleKeepsSafe(w);
    HandleKeepsLive(w);
  }

  lemma SessionKeeps(w: World, a: Action)
    requires Inv(w) && Enabled(w, a)
    requires a.Attach? || a.Detach? || a.Crash?
    ensures Inv(Next(w, a))
  {
  }

  lemma LinkKeeps(w: World, a: Action)
    requires Inv(w) && Enabled(w, a)
    requires a.WriterGone? || a.Register? || a.Deliver?
    ensures Inv(Next(w, a))
  {
  }

  lemma RestKeeps(w: World, a: Action)
    requires Inv(w) && Enabled(w, a)
    requires a.HostReload? || a.Traffic? || a.PressManual?
    ensures Inv(Next(w, a))
  {
  }

  lemma LossKeeps(w: World, a: Action)
    requires Inv(w) && Enabled(w, a)
    requires a.LoseRequest? || a.LoseReply?
    ensures Inv(Next(w, a))
  {
  }

  lemma NextKeeps(w: World, a: Action)
    requires Inv(w) && Enabled(w, a)
    ensures Inv(Next(w, a))
  {
    if
    case a.Tick? => TickKeeps(w, a.o);
    case a.Handle? => HandleKeeps(w);
    case a.Attach? || a.Detach? || a.Crash? => SessionKeeps(w, a);
    case a.WriterGone? || a.Register? || a.Deliver? => LinkKeeps(w, a);
    case a.Reconfigure? || a.Boot? => BroughtUpKeeps(w, w.files.key, a.now);
    case a.LoseRequest? || a.LoseReply? => LossKeeps(w, a);
    case a.HostReload? || a.Traffic? || a.PressManual? => RestKeeps(w, a);
  }

  lemma {:induction false} RunKeeps(w: World, actions: seq<Action>)
    requires Inv(w)
    ensures Inv(Run(w, actions))
    decreases |actions|
  {
    if actions != [] && Enabled(w, actions[0]) {
      NextKeeps(w, actions[0]);
      RunKeeps(Next(w, actions[0]), actions[1..]);
    }
  }

  /**
    The member is never locked out: after any actions whatever, the key the host has registered is
    still in `member.key` or `member.key.new`.
  */
  lemma NeverLockedOut(k: Key, selfGenerated: bool, others: set<Key>, actions: seq<Action>)
    requires k !in others
    ensures
      var w := Run(Joined(k, selfGenerated, others), actions);
      w.files.key == Some(w.host) || w.files.pending == Some(w.host)
  {
    RunKeeps(Joined(k, selfGenerated, others), actions);
  }

  // ----- why answers stay within their session -----

  /** Every action is possible when its turn comes. */
  ghost predicate Goes(w: World, actions: seq<Action>)
    decreases |actions|
  {
    actions == [] || (Enabled(w, actions[0]) && Goes(Next(w, actions[0]), actions[1..]))
  }

  lemma {:induction false} OneMore(w: World, actions: seq<Action>, a: Action)
    requires Goes(w, actions) && Enabled(Run(w, actions), a)
    ensures Goes(w, actions + [a]) && Run(w, actions + [a]) == Next(Run(w, actions), a)
    decreases |actions|
  {
    if actions == [] {
      assert [] + [a] == [a];
    } else {
      OneMore(Next(w, actions[0]), actions[1..], a);
      assert (actions + [a])[1..] == actions[1..] + [a];
    }
  }

  lemma Extend(actions: seq<Action>, a: Action) returns (more: seq<Action>)
    requires Goes(Joined(0, false, {}), actions) && Enabled(Run(Joined(0, false, {}), actions), a)
    ensures Goes(Joined(0, false, {}), more)
    ensures Run(Joined(0, false, {}), more) == Next(Run(Joined(0, false, {}), actions), a)
  {
    OneMore(Joined(0, false, {}), actions, a);
    more := actions + [a];
  }

  function At(second: nat, rx: nat, newKey: Key): Seen {
    Seen(second * SECOND, true, rx, CommitIo(Written, true, true), true, newKey, true)
  }

  ghost predicate Online(w: World, session: nat) {
    w.link.session == session && w.link.outbox == Some(Link.Outbox([], true)) && w.link.rotateResult.None?
  }

  ghost predicate Keys(w: World, host: Key, wg: Key, used: set<Key>) {
    w.host == host && w.wg == wg && w.used == used && w.others == {}
  }

  /** In session 1 the member asks for key 1. */
  lemma AsksFirst() returns (actions: seq<Action>)
    ensures Goes(Joined(0, false, {}), actions)
    ensures
      var w := Run(Joined(0, false, {}), actions);
      && w.files == Files(Some(0), Some(1), false) && w.m == Memory(false, Some(1), true, 0, 0) && !w.manual
      && Online(w, 1) && w.running == Some(0) && w.rx == 0 && w.requests == map[1 := 1] && w.replies == map[]
      && w.newest == 0 && Keys(w, 0, 0, {0, 1})
  {
    actions := Extend([], Boot(0));
    actions := Extend(actions, Attach);
    var w := Run(Joined(0, false, {}), actions);
    assert Online(w, 1);
    assert [] + [Link.RotateKey(1)] == [Link.RotateKey(1)];
    actions := Extend(actions, Tick(At(0, 0, 1)));
  }

  /** The host adopts it, and its reply is on the way when the session breaks off. */
  lemma ReplyUnderWay() returns (actions: seq<Action>)
    ensures Goes(Joined(0, false, {}), actions)
    ensures
      var w := Run(Joined(0, false, {}), actions);
      && w.files == Files(Some(0), Some(1), false) && w.m == Memory(false, Some(1), true, 0, 0) && !w.manual
      && w.link.session == 1 && w.link.outbox.None? && w.link.rotateResult.None? && w.running == Some(0) && w.rx == 0
      && w.requests == map[] && w.replies == map[1 := true] && w.newest == 1 && Keys(w, 1, 1, {0, 1})
  {
    actions := AsksFirst();
    actions := Extend(actions, Register(1));
    actions := Extend(actions, Handle);
    actions := Extend(actions, HostReload);
    actions := Extend(actions, Detach);
  }

  /** After 45 s of silence the member tries key 1, hears the host and commits it. */
  lemma CommitsByTrial() returns (actions: seq<Action>)
    ensures Goes(Joined(0, false, {}), actions)
    ensures
      var w := Run(Joined(0, false, {}), actions);
      && w.files == Files(Some(1), None, true) && w.m == Memory(false, None, false, 45 * SECOND, 1) && !w.manual
      && w.link.session == 1 && w.link.outbox.None? && w.link.rotateResult.None? && w.running == Some(1) && w.rx == 1
      && w.requests == map[] && w.replies == map[1 := true] && w.newest == 1 && Keys(w, 1, 1, {0, 1, 2, 3})
  {
    actions := TriesKeyOne();
    actions := Extend(actions, Traffic(1));
    actions := Extend(actions, Tick(At(45, 1, 3)));
  }

  lemma TriesKeyOne() returns (actions: seq<Action>)
    ensures Goes(Joined(0, false, {}), actions)
    ensures
      var w := Run(Joined(0, false, {}), actions);
      && w.files == Files(Some(0), Some(1), false) && w.m == Memory(true, None, false, 45 * SECOND, 0) && !w.manual
      && w.link.session == 1 && w.link.outbox.None? && w.link.rotateResult.None? && w.running == Some(1) && w.rx == 0
      && w.requests == map[] && w.replies == map[1 := true] && w.newest == 1 && Keys(w, 1, 1, {0, 1, 2})
  {
    actions := ReplyUnderWay();
    actions := Extend(actions, Tick(At(45, 0, 2)));
  }

  /** Its user wants another key, and in session 2 it asks for key 4. */
  lemma AsksAgain() returns (actions: seq<Action>)
    ensures Goes(Joined(0, false, {}), actions)
    ensures
      var w := Run(Joined(0, false, {}), actions);
      && w.files == Files(Some(1), Some(4), true) && w.m == Memory(false, Some(2), true, 45 * SECOND, 1)
      && Online(w, 2) && w.running == Some(1) && w.rx == 1
      && w.requests == map[2 := 4] && w.replies == map[1 := true] && Keys(w, 1, 1, {0, 1, 2, 3, 4})
  {
    actions := WantsAnother();
    assert [] + [Link.RotateKey(4)] == [Link.RotateKey(4)];
    actions := Extend(actions, Tick(At(45, 1, 4)));
  }

  lemma WantsAnother() returns (actions: seq<Action>)
    ensures Goes(Joined(0, false, {}), actions)
    ensures
      var w := Run(Joined(0, false, {}), actions);
      && w.files == Files(Some(1), None, true) && w.m == Memory(false, None, false, 45 * SECOND, 1) && w.manual
      && Online(w, 2) && w.running == Some(1) && w.rx == 1
      && w.requests == map[] && w.replies == map[1 := true] && w.newest == 1 && Keys(w, 1, 1, {0, 1, 2, 3})
  {
    actions := CommitsByTrial();
    actions := Extend(actions, PressManual);
    actions := Extend(actions, Attach);
  }

  /**
    In this run the member has asked for key 1 in session 1, lost the answer, found out by itself that
    the host has key 1, and asks for key 4 in session 2 while the first answer is still under way.
    Taking that for the answer to the second request would leave the host's key in neither file. So
    answers must stay within their session, and `attach` forgets the last one.
  */
  lemma LateReplyWouldLockOut() returns (actions: seq<Action>, o: Seen)
    ensures Goes(Joined(0, false, {}), actions) && Enabled(Run(Joined(0, false, {}), actions), Tick(o))
    ensures
      var w := Run(Joined(0, false, {}), actions);
      && w.link.session == 2 && Lookup(w.replies, 1) == Some(true) && Safe(w)
      && !Safe(AfterTick(w.(link := w.link.(rotateResult := Some(w.replies[1]))), o))
  {
    actions := AsksAgain();
    o := At(45, 1, 5);
    var w := Run(Joined(0, false, {}), actions);
    TakenForAnswer(w.(link := w.link.(rotateResult := Some(true))), o);
  }

  lemma TakenForAnswer(w: World, o: Seen)
    requires o.hasHost && o.commit == CommitIo(Written, true, true)
    requires w.link.rotateResult == Some(true) && w.files.pending.Some? && w.files.pending.value != w.host
    requires w.link.outbox.Some? ==> w.link.outbox.value.sent == []
    ensures !Safe(AfterTick(w, o))
  {
  }
}
