/**
  Which key a member's tunnel runs on, through every run of the rotation protocol, and what each tick
  of the machine does about it.
*/
module RotationSwitch {
  import opened Options
  import opened KeyFiles
  import opened Rotation
  import opened RotationProtocol
  import Link

  // ----- what a tick does about an answer -----

  /**
    A tick that finds an accepting answer, with a waiting key and a disk that takes it, brings the
    tunnel up on that key, which is the one the host holds; the machine starts afresh.
  */
  lemma AcceptedMovesOver(w: World, o: Seen)
    requires Inv(w) && Enabled(w, Tick(o)) && o.hasHost && o.commit.write == Written
    requires w.link.rotateResult == Some(true) && w.files.pending.Some?
    ensures
      var w' := Next(w, Tick(o));
      && w'.running == w'.files.key == w.files.pending == Some(w'.host)
      && w'.files.pending == (if o.commit.removed then None else w.files.pending)
      && w'.rx == 0 && w'.m.lastRxAt == o.now && w'.link.rotateResult.None? && w'.link.outbox.None? && !w'.manual
  {
  }

  /** A refusing one discards the waiting key and leaves the tunnel alone. */
  lemma RefusedStays(w: World, o: Seen)
    requires Inv(w) && Enabled(w, Tick(o)) && o.hasHost && o.discarded
    requires w.link.rotateResult == Some(false)
    ensures
      var w' := Next(w, Tick(o));
      && w'.files.pending.None? && w'.files.key == w.files.key == Some(w'.host)
      && w'.running == w.running && w'.rx == w.rx && w'.link.rotateResult.None? && !w'.manual
  {
    AfterTickIs(w, o, w.(m := Noticed(w.m, o)));
  }

  /** So it is in every run, whatever was lost, repeated late or crashed before. */
  lemma AnswersTakeEffect(k: Key, selfGenerated: bool, others: set<Key>, actions: seq<Action>, o: Seen)
    requires k !in others
    requires
      var w := Run(Joined(k, selfGenerated, others), actions);
      Enabled(w, Tick(o)) && o.hasHost && o.commit.write == Written && o.discarded && w.link.rotateResult.Some?
    ensures
      var w := Run(Joined(k, selfGenerated, others), actions);
      var w' := Next(w, Tick(o));
      if w.link.rotateResult.value then
        w.files.pending.Some? ==> w'.running == w'.files.key == w.files.pending == Some(w'.host) && w'.rx == 0
      else
        w'.files.pending.None? && w'.files.key == w.files.key == Some(w'.host) && w'.running == w.running
  {
    RunKeeps(Joined(k, selfGenerated, others), actions);
    var w := Run(Joined(k, selfGenerated, others), actions);
    if !w.link.rotateResult.value {
      RefusedStays(w, o);
    } else if w.files.pending.Some? {
      AcceptedMovesOver(w, o);
    }
  }

  /**
    The other three ways: traffic on the waiting key makes it the key; silence on it takes the tunnel
    back to `member.key`; and on a dead link a waiting key is tried.
  */
  lemma TrialEnds(w: World, o: Seen)
    requires Inv(w) && Enabled(w, Tick(o)) && o.hasHost && w.link.rotateResult.None? && w.m.onPending
    ensures
      var w' := Next(w, Tick(o));
      if w.rx > 0 then
        && w'.running == w.running && w'.rx == w.rx
        && (w.files.pending.Some? && o.commit.write == Written ==> w'.files.key == w.running == Some(w'.host) && !w'.m.onPending)
      else if o.now >= Noticed(w.m, o).lastRxAt + 45 * SECOND then
        w'.running == w.files.key && w'.rx == 0 && w'.files == w.files
      else w'.running == w.running && w'.files == w.files
  {
    AfterTickIs(w, o, w.(m := Noticed(w.m, o)));
  }

  lemma DeadLinkTries(w: World, o: Seen)
    requires Inv(w) && Enabled(w, Tick(o)) && o.hasHost && w.link.rotateResult.None? && !w.m.onPending && w.files.pending.Some?
    requires o.rx == w.m.lastRx && o.now >= w.m.lastRxAt + 45 * SECOND
    ensures
      var w' := Next(w, Tick(o));
      && w'.running == w.files.pending && w'.m.onPending && w'.rx == 0
      && w'.files == w.files && w'.requests == w.requests && w'.link.rotateResult.None?
  {
    AfterTickIs(w, o, w.(m := Noticed(w.m, o)));
  }

  // ----- when a tick asks -----

  /**
    The host is there, no answer waits, the tunnel is not on trial and needs no rescue; the key was
    handed out by the host or its user wants a new one; the session is open and has not been asked in;
    and there is a waiting key or the disk takes a new one.
  */
  ghost predicate Wants(w: World, o: Seen) {
    && o.hasHost && w.link.rotateResult.None? && !w.m.onPending
    && !(o.rx == w.m.lastRx && o.now >= w.m.lastRxAt + 45 * SECOND && w.files.pending.Some?)
    && (w.manual || !w.files.selfGenerated)
    && w.link.outbox.Some? && w.link.outbox.value.open && w.m.attempted != Some(w.link.session)
    && (w.files.pending.Some? || o.writable)
  }

  /** A tick sends a request exactly then: one, for the waiting key, which is on disk. */
  lemma AsksIff(w: World, o: Seen)
    requires Inv(w) && Enabled(w, Tick(o))
    ensures
      var w' := Next(w, Tick(o));
      if Wants(w, o) then
        && w'.files.pending == (if w.files.pending.Some? then w.files.pending else Some(o.newKey))
        && w'.requests == w.requests[w.link.session := w'.files.pending.value]
        && w'.m.attempted == Some(w.link.session) && w'.running == w.running && w'.files.key == w.files.key
      else w'.requests == w.requests
  {
    var n := w.(m := Noticed(w.m, o));
    if o.hasHost && w.link.rotateResult.None? && !w.m.onPending && !(LinkDead(n.m, o.now) && w.files.pending.Some?) {
      FourthStep(w, o, n);
    } else if o.hasHost {
      AfterTickIs(w, o, n);
    }
  }

  lemma FourthStep(w: World, o: Seen, n: World)
    requires Inv(w) && Enabled(w, Tick(o)) && o.hasHost && n == w.(m := Noticed(w.m, o))
    requires w.link.rotateResult.None? && !w.m.onPending && !(LinkDead(n.m, o.now) && w.files.pending.Some?)
    ensures
      var w' := Next(w, Tick(o));
      if Wants(w, o) then
        && w'.files.pending == (if w.files.pending.Some? then w.files.pending else Some(o.newKey))
        && w'.requests == w.requests[w.link.session := w'.files.pending.value]
        && w'.m.attempted == Some(w.link.session) && w'.running == w.running && w'.files.key == w.files.key
      else w'.requests == w.requests
  {
  }

  // ----- the running key -----

  /**
    The tunnel runs on the key of one of the two files. The one exception is a commit that was torn
    while `member.key` was overwritten: then that file is unreadable, and the waiting key is the host's.
  */
  ghost predicate OnFile(w: World) {
    w.running.Some? ==>
      if w.m.onPending then
        w.files.pending == w.running && (w.link.rotateResult.Some? ==> w.files.key == w.running)
      else
        w.files.key == w.running || (w.files.key.None? && w.files.pending == Some(w.host))
  }

  lemma BroughtUpOnFile(w: World, key: Option<Key>, now: nat)
    requires key.Some? ==> w.files.Holds(key.value)
    requires key == w.files.key || w.link.rotateResult.None?
    ensures OnFile(BroughtUp(w, key, now))
  {
  }

  lemma AnswerOnFile(w: World, o: Seen)
    requires Inv(w) && OnFile(w) && Enabled(w, Tick(o)) && o.hasHost && w.link.rotateResult.Some?
    ensures OnFile(Next(w, Tick(o)))
  {
    AfterTickIs(w, o, w.(m := Noticed(w.m, o)));
  }

  lemma TrialOnFile(w: World, o: Seen)
    requires Inv(w) && OnFile(w) && Enabled(w, Tick(o)) && o.hasHost && w.link.rotateResult.None? && w.m.onPending
    ensures OnFile(Next(w, Tick(o)))
  {
    AfterTickIs(w, o, w.(m := Noticed(w.m, o)));
  }

  lemma AskingOnFile(w: World, o: Seen)
    requires Inv(w) && OnFile(w) && Enabled(w, Tick(o)) && o.hasHost && w.link.rotateResult.None? && !w.m.onPending
    ensures OnFile(Next(w, Tick(o)))
  {
    if LinkDead(Noticed(w.m, o), o.now) && w.files.pending.Some? {
      DeadLinkTries(w, o);
    } else {
      FourthStepStays(w, o);
    }
  }

  lemma FourthStepStays(w: World, o: Seen)
    requires Inv(w) && Enabled(w, Tick(o)) && o.hasHost && w.link.rotateResult.None? && !w.m.onPending
    requires !(LinkDead(Noticed(w.m, o), o.now) && w.files.pending.Some?)
    ensures
      var w' := Next(w, Tick(o));
      && w'.running == w.running && w'.files.key == w.files.key && w'.host == w.host
      && (w.files.pending.Some? ==> w'.files.pending == w.files.pending) && !w'.m.onPending
  {
  }

  lemma HandleOnFile(w: World)
    requires Inv(w) && OnFile(w) && Enabled(w, Handle)
    ensures OnFile(AfterHandle(w))
  {
  }

  lemma LinkOnFile(w: World, a: Action)
    requires Inv(w) && OnFile(w) && Enabled(w, a)
    requires !a.Tick? && !a.Handle? && !a.Reconfigure? && !a.Boot?
    ensures OnFile(Next(w, a))
  {
  }

  lemma NextOnFile(w: World, a: Action)
    requires Inv(w) && OnFile(w) && Enabled(w, a)
    ensures OnFile(Next(w, a))
  {
    if
    case a.Tick? =>
      if a.o.hasHost {
        if w.link.rotateResult.Some? {
          AnswerOnFile(w, a.o);
        } else if w.m.onPending {
          TrialOnFile(w, a.o);
        } else {
          AskingOnFile(w, a.o);
        }
      }
    case a.Handle? => HandleOnFile(w);
    case a.Reconfigure? || a.Boot? => BroughtUpOnFile(w, w.files.key, a.now);
    case !a.Tick? && !a.Handle? && !a.Reconfigure? && !a.Boot? => LinkOnFile(w, a);
  }

  lemma {:induction false} RunOnFile(w: World, actions: seq<Action>)
    requires Inv(w) && OnFile(w)
    ensures Inv(Run(w, actions)) && OnFile(Run(w, actions))
    decreases |actions|
  {
    if actions != [] && Enabled(w, actions[0]) {
      NextKeeps(w, actions[0]);
      NextOnFile(w, actions[0]);
      RunOnFile(Next(w, actions[0]), actions[1..]);
    }
  }

  /**
    In every run, the key on which the tunnel runs is in neither file exactly if `member.key` is
    unreadable and the waiting key, which is then the one the host holds, is another.
  */
  lemma RunningInNeitherFileIff(k: Key, selfGenerated: bool, others: set<Key>, actions: seq<Action>)
    requires k !in others
    ensures
      var w := Run(Joined(k, selfGenerated, others), actions);
      && (w.running.Some? && !w.files.Holds(w.running.value) <==>
            w.running.Some? && w.files.key.None? && w.files.pending != w.running)
      && (w.running.Some? && !w.files.Holds(w.running.value) ==> w.files.pending == Some(w.host))
  {
    RunOnFile(Joined(k, selfGenerated, others), actions);
  }
}
