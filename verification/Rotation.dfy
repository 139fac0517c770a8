/** The two key files of a member (crates/peercove-ops/src/keyfiles.rs). */
module KeyFiles {
  import opened Options
  import Link

  type Key = Link.Key

  /** Overwriting a file truncates it first, so an interrupted write can leave nothing readable. */
  datatype Write = Written | Refused | Torn

  /** How the three file operations of one commit end. */
  datatype CommitIo = CommitIo(write: Write, removed: bool, marked: bool)

  /** `key` is `member.key`, `pending` is `member.key.new`; None is absent or unreadable. */
  datatype Files = Files(key: Option<Key>, pending: Option<Key>, selfGenerated: bool) {
    ghost predicate Holds(k: Key) {
      key == Some(k) || pending == Some(k)
    }
  }

  /** `member.key` is overwritten before `.new` is removed, which is before the config is marked. */
  function Committed(f: Files, io: CommitIo): (Files, bool) {
    match f.pending
    case None => (f, false)
    case Some(k) =>
      match io.write
      case Refused => (f, false)
      case Torn => (f.(key := None), false)
      case Written =>
        (Files(Some(k), if io.removed then None else f.pending, f.selfGenerated || io.marked), true)
  }

  function Ensured(f: Files, newKey: Key, writable: bool): (Files, Option<Key>) {
    if f.pending.Some? then (f, f.pending)
    else if writable then (f.(pending := Some(newKey)), Some(newKey))
    else (f, None)
  }

  function Discarded(f: Files, removed: bool): Files {
    if removed then f.(pending := None) else f
  }

  class KeyStore {
    var files: Files

    constructor (files: Files)
      ensures this.files == files
    {
      this.files := files;
    }

    /** Whatever fails on the way, the key being committed stays readable in one of the two files. */
    method CommitPending(io: CommitIo) returns (ok: bool)
      modifies this
      ensures (files, ok) == Committed(old(files), io)
      ensures old(files).pending.Some? ==> files.Holds(old(files).pending.value)
      ensures ok ==> files.key == old(files).pending && files.key.Some?
    {
      match files.pending
      case None => ok := false;
      case Some(k) =>
        match io.write {
          case Refused => ok := false;
          case Torn =>
            files := files.(key := None);
            ok := false;
          case Written =>
            files := files.(key := Some(k));
            if io.removed {
              files := files.(pending := None);
            }
            if io.marked {
              files := files.(selfGenerated := true);
            }
            ok := true;
        }
    }

    /** The waiting key is reused when there is one, so that a repeated request names the same key. */
    method EnsurePending(newKey: Key, writable: bool) returns (k: Option<Key>)
      modifies this
      ensures (files, k) == Ensured(old(files), newKey, writable)
      ensures k.Some? ==> files.pending == k
      ensures files.key == old(files).key
      ensures old(files).pending.Some? ==> k == old(files).pending
    {
      if files.pending.Some? {
        return files.pending;
      }
      if !writable {
        return None;
      }
      files := files.(pending := Some(newKey));
      return Some(newKey);
    }

    method DiscardPending(removed: bool)
      modifies this
      ensures files == Discarded(old(files), removed)
      ensures files.key == old(files).key
    {
      if removed {
        files := files.(pending := None);
      }
    }
  }
}

/** The state machine of a member's key rotation (crates/peercove-cli/src/rotate.rs). */
module Rotation {
  import opened Options
  import opened KeyFiles

  // Times are in nanoseconds.
  const SECOND: nat := 1_000_000_000
  const DEAD_LINK_TIMEOUT := 45 * SECOND

  /** What the machine remembers between ticks. */
  datatype Memory = Memory(
    onPending: bool,
    attempted: Option<nat>,
    announced: bool,
    lastRxAt: nat,
    lastRx: nat)

  /** What one tick sees, and how its file operations end. */
  datatype Seen = Seen(
    now: nat,
    hasHost: bool,
    rx: nat,
    commit: CommitIo,
    discarded: bool,
    newKey: Key,
    writable: bool)

  datatype Outcome = Outcome(
    m: Memory,
    files: Files,
    manual: bool,
    link: Link.State,
    restart: Option<bool>)

  function Started(f: Files, current: Key, now: nat): Memory {
    Memory(f.pending == Some(current), None, false, now, 0)
  }

  function Noticed(m: Memory, o: Seen): Memory {
    if o.rx != m.lastRx then m.(lastRxAt := o.now, lastRx := o.rx) else m
  }

  predicate LinkDead(m: Memory, now: nat) {
    now >= m.lastRxAt + DEAD_LINK_TIMEOUT
  }

  /** Steps 1 to 3 decide on the answer, the trial of the waiting key, and the fall-back. */
  function Ticked(m0: Memory, f: Files, manual: bool, l: Link.State, o: Seen): Outcome {
    if !o.hasHost then Outcome(m0, f, manual, l, None)
    else
      var m := Noticed(m0, o);
      match l.rotateResult
      case Some(accepted) =>
        var l' := l.(rotateResult := None);
        if accepted then
          var (f', ok) := Committed(f, o.commit);
          if ok then Outcome(m, f', false, l', Some(false)) else Outcome(m, f', manual, l', None)
        else
          Outcome(m, Discarded(f, o.discarded), false, l', None)
      case None =>
        if m.onPending then
          if o.rx > 0 then
            var (f', ok) := Committed(f, o.commit);
            Outcome(if ok then m.(onPending := false) else m, f', manual, l, None)
          else
            Outcome(m, f, manual, l, if LinkDead(m, o.now) then Some(false) else None)
        else if LinkDead(m, o.now) && f.pending.Some? then
          Outcome(m, f, manual, l, Some(true))
        else
          Asked(m, f, manual, l, o)
  }

  /** Step 4: ask the host once per session, with the waiting key written beforehand. */
  function Asked(m: Memory, f: Files, manual: bool, l: Link.State, o: Seen): Outcome {
    if (f.selfGenerated && !manual) || l.Session().None? || m.attempted == l.Session() then
      Outcome(m, f, manual, l, None)
    else
      var (f', key) := Ensured(f, o.newKey, o.writable);
      match key
      case None => Outcome(m, f', manual, l, None)
      case Some(k) =>
        var m' := if l.CanSend() then m.(attempted := l.Session(), announced := true) else m;
        Outcome(m', f', manual, Link.AfterSend(l, Link.RotateKey(k)), None)
  }

  class Flag {
    var on: bool
  }

  class Machine {
    var m: Memory
    const store: KeyStore
    const manual: Flag

    constructor (store: KeyStore, manual: Flag, current: Key, now: nat)
      ensures this.store == store && this.manual == manual
      ensures m == Started(store.files, current, now)
      ensures m.onPending <==> store.files.pending == Some(current)
    {
      this.store := store;
      this.manual := manual;
      m := Memory(store.files.pending == Some(current), None, false, now, 0);
    }

    /**
      One round of the supervisor. The answer says whether to bring the tunnel up again, and with
      which key. A request leaves only with a key that is already in the `.new` file.
    */
    method Tick(o: Seen, link: Link.MemberLink) returns (restart: Option<bool>)
      modifies this`m, store, manual, link
      ensures Outcome(m, store.files, manual.on, link.inner, restart)
           == Ticked(old(m), old(store.files), old(manual.on), old(link.inner), o)
      ensures old(store.files).pending.Some? && store.files.pending != old(store.files).pending
           && old(link.inner).rotateResult != Some(false)
          ==> store.files.key == old(store.files).pending
    {
      if !o.hasHost {
        return None;
      }
      if o.rx != m.lastRx {
        m := m.(lastRxAt := o.now, lastRx := o.rx);
      }
      var dead := o.now >= m.lastRxAt + DEAD_LINK_TIMEOUT;

      var answer := link.TakeRotateResult();
      if answer.Some? {
        if answer.value {
          var ok := store.CommitPending(o.commit);
          if ok {
            manual.on := false;
            return Some(false);
          }
        } else {
          store.DiscardPending(o.discarded);
          manual.on := false;
        }
        return None;
      }

      if m.onPending {
        restart := Judge(o, dead);
        return;
      }

      if dead && store.files.pending.Some? {
        return Some(true);
      }

      Ask(o, link);
      return None;
    }

    /** Traffic on the waiting key proves it, and silence sends the tunnel back to the other one. */
    method Judge(o: Seen, dead: bool) returns (restart: Option<bool>)
      modifies this`m, store
      ensures
        if o.rx > 0 then
          var (f, ok) := Committed(old(store.files), o.commit);
          store.files == f && m == (if ok then old(m).(onPending := false) else old(m)) && restart.None?
        else
          store.files == old(store.files) && m == old(m) && restart == if dead then Some(false) else None
      ensures old(store.files).pending.Some? && store.files.pending != old(store.files).pending
          ==> store.files.key == old(store.files).pending
    {
      if o.rx > 0 {
        var ok := store.CommitPending(o.commit);
        if ok {
          m := m.(onPending := false);
        }
        return None;
      }
      return if dead then Some(false) else None;
    }

    /** Asks the host once per session, if the user wants it or the key was not made here. */
    method Ask(o: Seen, link: Link.MemberLink)
      modifies this`m, store, link
      ensures Outcome(m, store.files, manual.on, link.inner, None)
           == Asked(old(m), old(store.files), manual.on, old(link.inner), o)
      ensures old(store.files).pending.Some? ==> store.files.pending == old(store.files).pending
    {
      var automatic := !store.files.selfGenerated;
      if !(automatic || manual.on) {
        return;
      }
      var session := link.inner.Session();
      if session.None? || m.attempted == session {
        return;
      }
      var key := store.EnsurePending(o.newKey, o.writable);
      if key.None? {
        return;
      }
      var sent := link.Send(Link.RotateKey(key.value));
      if sent {
        m := m.(attempted := session, announced := true);
      }
    }
  }
}
