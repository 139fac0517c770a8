/**
  The inbox of received files, with any number of transfers at once (crates/peercove-cli/src/msg.rs,
  530-664, 810-850 and 1062-1077). Finished files, `.part` files and `.pcvresume` markers are kept
  apart; all three go by the final name of the file.
*/
module Inboxes {
  import opened Options
  import opened Transfer

  type Ip = nat

  /** Left beside a partial file whose sender may go on with it. */
  datatype Marker = Marker(from: Ip, name: string, size: nat)

  datatype Active = Active(offer: Marker, resume: bool, final: string)

  datatype Box = Box(
    files: map<string, Bytes>,
    parts: map<string, Bytes>,
    markers: map<string, Marker>,
    active: map<nat, Active>)

  // ----- what each step does -----

  predicate Usable(parts: map<string, Bytes>, markers: map<string, Marker>, base: string, offer: Marker) {
    base in markers && markers[base] == offer && base in parts && |parts[base]| <= offer.size
  }

  /** The first usable marker of the listing, which is then removed; markers without a part are cleared away. */
  function Find(parts: map<string, Bytes>, markers: map<string, Marker>, listing: seq<string>, offer: Marker)
    : (r: (Option<string>, map<string, Marker>))
    ensures r.0.Some? ==> r.0.value in listing && Usable(parts, markers, r.0.value, offer) && r.0.value !in r.1
    ensures r.0.None? ==> forall base <- listing :: !Usable(parts, markers, base, offer)
    ensures forall base <- r.1 :: base in markers && r.1[base] == markers[base]
  {
    if listing == [] then (None, markers)
    else
      var base := listing[0];
      if base !in markers || markers[base] != offer then Find(parts, markers, listing[1..], offer)
      else if base !in parts then
        assert forall b :: Usable(parts, markers, b, offer) ==> Usable(parts, markers - {base}, b, offer);
        Find(parts, markers - {base}, listing[1..], offer)
      else if |parts[base]| > offer.size then Find(parts, markers, listing[1..], offer)
      else (Some(base), markers - {base})
  }

  function Taken(box: Box): set<string> {
    box.files.Keys + box.parts.Keys
  }

  function Found(box: Box, listing: seq<string>, offer: Marker, resume: bool): (Option<string>, map<string, Marker>) {
    if resume then Find(box.parts, box.markers, listing, offer) else (None, box.markers)
  }

  function Begun(box: Box, t: nat, listing: seq<string>, offer: Marker, resume: bool, free: string): Box {
    var (found, markers) := Found(box, listing, offer, resume);
    var final := if found.Some? then found.value else free;
    box.(parts := if found.Some? then box.parts else box.parts[final := []],
         markers := markers,
         active := box.active[t := Active(offer, resume, final)])
  }

  /** Of what was written when the connection broke, only a part may have reached the disk. */
  function Kept(part: Bytes, grown: Bytes, flushed: nat): Bytes
    requires part <= grown
  {
    grown[..|part| + Min(flushed, |grown| - |part|)]
  }

  function Closed(box: Box, t: nat, tape: Tape, flushed: nat): Box
    requires t in box.active && box.active[t].final in box.parts
    requires |box.parts[box.active[t].final]| <= box.active[t].offer.size
  {
    var a := box.active[t];
    var part := box.parts[a.final];
    var grown := Grown(part, tape, a.offer.size);
    var kept := Kept(part, grown, flushed);
    var rest := box.(active := box.active - {t});
    match OutcomeOf(part, tape, a.offer.size)
    case Complete => rest.(files := box.files[a.final := grown], parts := box.parts - {a.final}, markers := box.markers - {a.final})
    case ChecksumBroken => rest.(parts := box.parts - {a.final}, markers := box.markers - {a.final})
    case Interrupted =>
      if a.resume && kept != [] then rest.(parts := box.parts[a.final := kept], markers := box.markers[a.final := a.offer])
      else rest.(parts := box.parts - {a.final}, markers := box.markers - {a.final})
  }

  /** Each transfer has a partial file of its own, which no marker offers to others. */
  ghost predicate Sound(box: Box) {
    && (forall t <- box.active :: Running(box, box.active[t]))
    && (forall t, u | t in box.active && u in box.active && t != u :: box.active[t].final != box.active[u].final)
    && (forall base <- box.markers :: base in box.parts)
    && (forall f <- box.files :: f !in box.parts)
  }

  ghost predicate Running(box: Box, a: Active) {
    a.final in box.parts && a.final !in box.markers && |box.parts[a.final]| <= a.offer.size
  }

  ghost predicate Tried(name: string, n: nat, x: string) {
    exists k: nat :: k < n && x == CopyName(name, k)
  }

  ghost predicate TakenBefore(taken: set<string>, name: string, n: nat) {
    forall k: nat | k < n :: CopyName(name, k) in taken
  }

  lemma OneMoreTried(taken: set<string>, name: string, n: nat)
    requires TakenBefore(taken, name, n) && CopyName(name, n) in taken
    ensures TakenBefore(taken, name, n + 1) && Tried(name, n + 1, CopyName(name, n))
    ensures forall x | Tried(name, n, x) :: Tried(name, n + 1, x)
  {
  }

  lemma NotTried(name: string, n: nat)
    ensures !Tried(name, n, CopyName(name, n))
  {
    forall k: nat | k < n
      ensures CopyName(name, k) != CopyName(name, n)
    {
      CopyNamesDiffer(name, k, n);
    }
  }

  class Inbox {
    var files: map<string, Bytes>
    var parts: map<string, Bytes>
    var markers: map<string, Marker>
    var active: map<nat, Active>

    function View(): Box
      reads this
    {
      Box(files, parts, markers, active)
    }

    method FindResumable(listing: seq<string>, offer: Marker) returns (found: Option<string>)
      modifies this`markers
      ensures (found, markers) == Find(parts, old(markers), listing, offer)
    {
      for i := 0 to |listing|
        invariant Find(parts, old(markers), listing, offer) == Find(parts, markers, listing[i..], offer)
      {
        var base := listing[i];
        assert listing[i..][1..] == listing[i + 1..];
        if base in markers && markers[base] == offer {
          if base !in parts {
            markers := markers - {base};
          } else if |parts[base]| <= offer.size {
            markers := markers - {base};
            return Some(base);
          }
        }
      }
      return None;
    }

    /** There is always a free name, and it is the first in the order of trying. */
    method UniquePath(name: string) returns (free: string)
      ensures IsFirstFree(Taken(View()), name, free)
    {
      var taken := files.Keys + parts.Keys;
      var n: nat := 0;
      ghost var untried := taken;
      free := name;
      while free in taken
        invariant free == CopyName(name, n) && untried <= taken && TakenBefore(taken, name, n)
        invariant forall x <- taken | x !in untried :: Tried(name, n, x)
        decreases untried
      {
        NotTried(name, n);
        untried := untried - {free};
        OneMoreTried(taken, name, n);
        n := n + 1;
        free := CopyName(name, n);
      }
    }

    method Begin(t: nat, listing: seq<string>, offer: Marker, resume: bool) returns (final: string, offset: nat)
      modifies this
      ensures exists free :: IsFirstFree(Taken(old(View())), offer.name, free) && View() == Begun(old(View()), t, listing, offer, resume, free)
      ensures final in parts && offset == |parts[final]|
    {
      var free := UniquePath(offer.name);
      var found := None;
      if resume {
        found := FindResumable(listing, offer);
      }
      if found.Some? {
        final := found.value;
      } else {
        final := free;
        parts := parts[final := []];
      }
      offset := |parts[final]|;
      active := active[t := Active(offer, resume, final)];
      assert View() == Begun(old(View()), t, listing, offer, resume, free);
    }

    method Close(t: nat, tape: Tape, flushed: nat) returns (outcome: Outcome)
      requires t in active && active[t].final in parts && |parts[active[t].final]| <= active[t].offer.size
      modifies this
      ensures View() == Closed(old(View()), t, tape, flushed)
      ensures outcome == OutcomeOf(old(parts[active[t].final]), tape, old(active[t].offer.size))
    {
      var a := active[t];
      var part := parts[a.final];
      var grown;
      grown, outcome := ReceiveBody(part, tape, a.offer.size);
      active := active - {t};
      match outcome
      case Complete =>
        files := files[a.final := grown];
        parts := parts - {a.final};
        markers := markers - {a.final};
      case ChecksumBroken =>
        parts := parts - {a.final};
        markers := markers - {a.final};
      case Interrupted =>
        var kept := grown[..|part| + Min(flushed, |grown| - |part|)];
        if a.resume && |kept| > 0 {
          parts := parts[a.final := kept];
          markers := markers[a.final := a.offer];
        } else {
          parts := parts - {a.final};
          markers := markers - {a.final};
        }
    }
  }

  // ----- runs -----

  datatype Action =
    | Begin(t: nat, listing: seq<string>, offer: Marker, resume: bool, free: string)
    | Close(t: nat, tape: Tape, flushed: nat)
    | Crash

  ghost function Next(box: Box, a: Action): Box
    requires Sound(box)
  {
    match a
    case Begin(t, listing, offer, resume, free) =>
      if t in box.active || !IsFirstFree(Taken(box), offer.name, free) then box
      else Begun(box, t, listing, offer, resume, free)
    case Close(t, tape, flushed) =>
      if t !in box.active then box
      else
        assert Running(box, box.active[t]);
        Closed(box, t, tape, flushed)
    case Crash => box.(active := map[])
  }

  lemma BeginIsSound(box: Box, t: nat, listing: seq<string>, offer: Marker, resume: bool, free: string)
    requires Sound(box) && t !in box.active && IsFirstFree(Taken(box), offer.name, free)
    ensures Sound(Begun(box, t, listing, offer, resume, free))
  {
    var box' := Begun(box, t, listing, offer, resume, free);
    var final := box'.active[t].final;
    assert Running(box', box'.active[t]);
    forall u <- box.active
      ensures Running(box', box.active[u]) && box.active[u].final != final
    {
      assert Running(box, box.active[u]);
    }
  }

  lemma CloseIsSound(box: Box, t: nat, tape: Tape, flushed: nat)
    requires Sound(box) && t in box.active
    ensures Sound(Next(box, Close(t, tape, flushed)))
    ensures forall f <- box.files :: f in Next(box, Close(t, tape, flushed)).files && Next(box, Close(t, tape, flushed)).files[f] == box.files[f]
  {
    assert Running(box, box.active[t]);
    var box' := Closed(box, t, tape, flushed);
    forall u <- box'.active
      ensures Running(box', box'.active[u])
    {
      assert Running(box, box.active[u]);
    }
  }

  /** No transfer disturbs another, and no received file is ever replaced. */
  lemma NextIsSound(box: Box, a: Action)
    requires Sound(box)
    ensures Sound(Next(box, a))
    ensures forall f <- box.files :: f in Next(box, a).files && Next(box, a).files[f] == box.files[f]
  {
    match a
    case Begin(t, listing, offer, resume, free) =>
      if t !in box.active && IsFirstFree(Taken(box), offer.name, free) {
        BeginIsSound(box, t, listing, offer, resume, free);
      }
    case Close(t, tape, flushed) =>
      if t in box.active {
        CloseIsSound(box, t, tape, flushed);
      }
    case Crash =>
  }

  const EMPTY := Box(map[], map[], map[], map[])

  ghost function Run(actions: seq<Action>): (box: Box)
    ensures Sound(box)
  {
    if actions == [] then EMPTY
    else
      var before := Run(actions[..|actions| - 1]);
      NextIsSound(before, actions[|actions| - 1]);
      Next(before, actions[|actions| - 1])
  }

  ghost predicate Confirmed(actions: seq<Action>, content: Bytes) {
    exists a <- actions :: a.Close? && a.tape.hash == Some(Sha256(content))
  }

  lemma CloseConfirms(box: Box, t: nat, tape: Tape, flushed: nat, f: string)
    requires Sound(box) && t in box.active
    requires f in Next(box, Close(t, tape, flushed)).files && f !in box.files
    ensures f == box.active[t].final && tape.hash == Some(Sha256(Next(box, Close(t, tape, flushed)).files[f]))
  {
    assert Running(box, box.active[t]);
    assert tape.body[..|tape.body|] == tape.body;
  }

  /** Whoever sends what, however often it breaks: each finished file is one whose hash its sender has sent. */
  lemma {:induction false} EveryFileIsWhatWasHashed(actions: seq<Action>, f: string)
    requires f in Run(actions).files
    ensures Confirmed(actions, Run(actions).files[f])
  {
    var before, last := actions[..|actions| - 1], actions[|actions| - 1];
    var box := Run(before);
    NextIsSound(box, last);
    if f in box.files {
      EveryFileIsWhatWasHashed(before, f);
      var a :| a in before && a.Close? && a.tape.hash == Some(Sha256(box.files[f]));
      assert a in actions;
    } else {
      CloseConfirms(box, last.t, last.tape, last.flushed, f);
      assert last in actions;
    }
  }

  // ----- senders whose files do not change -----

  type Sources = map<(Ip, string), Bytes>

  ghost predicate Matches(src: Sources, offer: Marker, part: Bytes) {
    (offer.from, offer.name) in src && offer.size == |src[(offer.from, offer.name)]| && part <= src[(offer.from, offer.name)]
  }

  /** All partial files that may still grow are beginnings of their senders' files. */
  ghost predicate Prefixes(box: Box, src: Sources) {
    && (forall t <- box.active :: box.active[t].final in box.parts ==> Matches(src, box.active[t].offer, box.parts[box.active[t].final]))
    && (forall base <- box.markers :: base in box.parts ==> Matches(src, box.markers[base], box.parts[base]))
    && (forall f <- box.files :: exists k <- src :: box.files[f] == src[k])
  }

  /** The sender offers its file as it is, and sends what follows the offset until the connection breaks. */
  ghost predicate Honest(box: Box, src: Sources, a: Action) {
    match a
    case Begin(_, _, offer, _, _) => Matches(src, offer, [])
    case Close(t, tape, _) =>
      t in box.active && box.active[t].final in box.parts && |box.parts[box.active[t].final]| <= box.active[t].offer.size ==>
        var offer := box.active[t].offer;
        (offer.from, offer.name) in src && exists capacity: nat ::
          tape == TapeOf(src[(offer.from, offer.name)], offer.size, box.parts[box.active[t].final], capacity)
    case Crash => true
  }

  lemma BeginKeepsPrefixes(box: Box, src: Sources, t: nat, listing: seq<string>, offer: Marker, resume: bool, free: string)
    requires Sound(box) && Prefixes(box, src) && t !in box.active
    requires IsFirstFree(Taken(box), offer.name, free) && Matches(src, offer, [])
    ensures Prefixes(Begun(box, t, listing, offer, resume, free), src)
  {
    var box' := Begun(box, t, listing, offer, resume, free);
    assert forall u <- box.active :: Running(box, box.active[u]);
  }

  lemma TapeOutcome(content: Bytes, part: Bytes, capacity: nat)
    requires part <= content
    ensures
      var tape := TapeOf(content, |content|, part, capacity);
      OutcomeOf(part, tape, |content|) == if capacity > |content| - |part| then Complete else Interrupted
  {
    var rest := content[|part|..];
    assert part + rest == content && rest[..|rest|] == rest;
  }

  lemma FileIsAdded(box: Box, src: Sources, t: nat, content: Bytes, k: (Ip, string))
    requires Sound(box) && Prefixes(box, src) && t in box.active && k in src && content == src[k]
    ensures
      var final := box.active[t].final;
      Prefixes(Box(box.files[final := content], box.parts - {final}, box.markers - {final}, box.active - {t}), src)
  {
    assert forall u <- box.active :: Running(box, box.active[u]);
  }

  lemma PartIsKept(box: Box, src: Sources, t: nat, kept: Bytes)
    requires Sound(box) && Prefixes(box, src) && t in box.active && Matches(src, box.active[t].offer, kept)
    ensures
      var a := box.active[t];
      && Prefixes(box.(active := box.active - {t}, parts := box.parts[a.final := kept], markers := box.markers[a.final := a.offer]), src)
      && Prefixes(box.(active := box.active - {t}, parts := box.parts - {a.final}, markers := box.markers - {a.final}), src)
  {
    assert forall u <- box.active :: Running(box, box.active[u]);
  }

  /** A transfer between honest partners never fails its checksum; it completes with the file or leaves a beginning of it. */
  lemma CloseKeepsPrefixes(box: Box, src: Sources, t: nat, tape: Tape, flushed: nat)
    requires Sound(box) && Prefixes(box, src) && t in box.active && Honest(box, src, Close(t, tape, flushed))
    ensures Prefixes(Next(box, Close(t, tape, flushed)), src)
    ensures
      var a := box.active[t];
      && a.final in box.parts && |box.parts[a.final]| <= a.offer.size && (a.offer.from, a.offer.name) in src
      && OutcomeOf(box.parts[a.final], tape, a.offer.size) != ChecksumBroken
      && (OutcomeOf(box.parts[a.final], tape, a.offer.size) == Complete ==>
            a.final in Next(box, Close(t, tape, flushed)).files
            && Next(box, Close(t, tape, flushed)).files[a.final] == src[(a.offer.from, a.offer.name)])
  {
    var a := box.active[t];
    assert Running(box, a) && Matches(src, a.offer, box.parts[a.final]);
    var part, content := box.parts[a.final], src[(a.offer.from, a.offer.name)];
    var capacity: nat :| tape == TapeOf(content, a.offer.size, part, capacity);
    HonestOutcome(content, part, capacity, flushed);
    if OutcomeOf(part, tape, a.offer.size) == Complete {
      FileIsAdded(box, src, t, content, (a.offer.from, a.offer.name));
    } else {
      PartIsKept(box, src, t, Kept(part, Grown(part, tape, a.offer.size), flushed));
    }
  }

  lemma HonestOutcome(content: Bytes, part: Bytes, capacity: nat, flushed: nat)
    requires part <= content
    ensures
      var tape := TapeOf(content, |content|, part, capacity);
      var grown := Grown(part, tape, |content|);
      && OutcomeOf(part, tape, |content|) != ChecksumBroken
      && (OutcomeOf(part, tape, |content|) == Complete ==> grown == content)
      && part <= grown <= content && Kept(part, grown, flushed) <= content
  {
    PrefixStays(content, part, capacity);
    TapeOutcome(content, part, capacity);
  }

  ghost predicate AllHonest(actions: seq<Action>, src: Sources) {
    forall i | 0 <= i < |actions| :: Honest(Run(actions[..i]), src, actions[i])
  }

  /**
    Through any number of interleaved transfers, interruptions, resumptions and crashes, what is kept
    of a file is a beginning of it, and every finished file is the whole of one of the senders' files.
  */
  lemma {:induction false} HonestRuns(actions: seq<Action>, src: Sources)
    requires AllHonest(actions, src)
    ensures Prefixes(Run(actions), src)
  {
    if actions != [] {
      var before, last := actions[..|actions| - 1], actions[|actions| - 1];
      assert forall i | 0 <= i < |before| :: before[..i] == actions[..i] && Honest(Run(actions[..i]), src, actions[i]);
      HonestRuns(before, src);
      var box := Run(before);
      assert Honest(box, src, last);
      match last
      case Begin(t, listing, offer, resume, free) =>
        if t !in box.active && IsFirstFree(Taken(box), offer.name, free) {
          BeginKeepsPrefixes(box, src, t, listing, offer, resume, free);
        }
      case Close(t, tape, flushed) =>
        if t in box.active {
          CloseKeepsPrefixes(box, src, t, tape, flushed);
        }
      case Crash =>
    }
  }

  // ----- getting rid of parts that do not fit -----

  lemma FewerKeys<V>(m: map<string, V>, m': map<string, V>, k: string)
    requires k in m && k !in m' && forall x <- m' :: x in m
    ensures |m'| < |m|
  {
    var keys, keys' := m.Keys, m'.Keys;
    assert keys' <= keys - {k};
    SubsetSize(keys', keys - {k});
  }

  lemma {:induction false} SubsetSize(a: set<string>, b: set<string>)
    requires a <= b
    ensures |a| <= |b|
  {
    if a != {} {
      var x :| x in a;
      SubsetSize(a - {x}, b - {x});
    }
  }

  /**
    Whatever partial files lie about, one unbroken transfer either completes with the file as it is
    now, or uses up a marker for good. So after as many failures as there are markers it completes.
  */
  lemma UnbrokenTransferGetsOn(box: Box, t: nat, listing: seq<string>, from: Ip, name: string, content: Bytes, free: string, flushed: nat)
    requires Sound(box) && t !in box.active && IsFirstFree(Taken(box), name, free)
    ensures
      var begun := Next(box, Begin(t, listing, Marker(from, name, |content|), true, free));
      && Sound(begun) && t in begun.active && begun.active[t].final in begun.parts
      && var part := begun.parts[begun.active[t].final];
      var box' := Next(begun, Close(t, TapeOf(content, |content|, part, |content| + 1), flushed));
      || (begun.active[t].final in box'.files && box'.files[begun.active[t].final] == content)
      || |box'.markers| < |box.markers|
  {
    var offer := Marker(from, name, |content|);
    var begun := Next(box, Begin(t, listing, offer, true, free));
    NextIsSound(box, Begin(t, listing, offer, true, free));
    assert Running(begun, begun.active[t]);
    UnbrokenCloses(begun, t, content, flushed);
    if !(begun.parts[begun.active[t].final] <= content) {
      MarkerUsed(box, t, listing, offer, free);
    }
  }

  lemma MarkerUsed(box: Box, t: nat, listing: seq<string>, offer: Marker, free: string)
    requires Begun(box, t, listing, offer, true, free).active[t].final in Begun(box, t, listing, offer, true, free).parts
    requires Begun(box, t, listing, offer, true, free).parts[Begun(box, t, listing, offer, true, free).active[t].final] != []
    ensures
      var begun := Begun(box, t, listing, offer, true, free);
      |begun.markers - {begun.active[t].final}| < |box.markers|
  {
    var begun := Begun(box, t, listing, offer, true, free);
    FewerKeys(box.markers, begun.markers - {begun.active[t].final}, begun.active[t].final);
  }

  lemma UnbrokenCloses(box: Box, t: nat, content: Bytes, flushed: nat)
    requires Sound(box) && t in box.active && box.active[t].offer.size == |content| && box.active[t].final in box.parts
    ensures
      var final := box.active[t].final;
      var part := box.parts[final];
      var box' := Next(box, Close(t, TapeOf(content, |content|, part, |content| + 1), flushed));
      if part <= content then final in box'.files && box'.files[final] == content
      else box'.markers == box.markers - {final}
  {
    assert Running(box, box.active[t]);
    CompleteIff(content, box.parts[box.active[t].final], |content| + 1);
  }

  // ----- going on after an interruption -----

  /** What an interrupted transfer leaves: what reached the disk, under its name, for the same sender and file only. */
  lemma InterruptedIsKept(box: Box, t: nat, content: Bytes, capacity: nat, flushed: nat)
    requires Sound(box) && t in box.active && box.active[t].resume && box.active[t].offer.size == |content|
    requires box.active[t].final in box.parts && box.parts[box.active[t].final] <= content
    requires
      var part := box.parts[box.active[t].final];
      capacity <= |content| - |part| && |part| + Min(flushed, capacity) > 0
    ensures
      var a := box.active[t];
      var part := box.parts[a.final];
      var box' := Next(box, Close(t, TapeOf(content, |content|, part, capacity), flushed));
      && a.final in box'.parts && box'.parts[a.final] == content[..|part| + Min(flushed, capacity)]
      && a.final in box'.markers && box'.markers[a.final] == a.offer
  {
    var a := box.active[t];
    var part := box.parts[a.final];
    assert Running(box, a);
    PrefixStays(content, part, capacity);
    TapeOutcome(content, part, capacity);
  }

  /** Of a transfer that its sender cannot take up again nothing is kept but the complete file. */
  lemma NothingIsKeptInVain(box: Box, t: nat, tape: Tape, flushed: nat)
    requires Sound(box) && t in box.active && !box.active[t].resume
    ensures
      var box' := Next(box, Close(t, tape, flushed));
      box.active[t].final !in box'.parts && box.active[t].final !in box'.markers
  {
    assert Running(box, box.active[t]);
  }

  lemma {:induction false} OnlyUsableIsFound(
    parts: map<string, Bytes>, markers: map<string, Marker>, listing: seq<string>, offer: Marker, base: string)
    requires base in listing && Usable(parts, markers, base, offer)
    requires forall other <- listing | other != base :: !Usable(parts, markers, other, offer)
    ensures Find(parts, markers, listing, offer).0 == Some(base)
  {
    if listing[0] != base {
      assert listing == [listing[0]] + listing[1..];
      if listing[0] in markers && markers[listing[0]] == offer && listing[0] !in parts {
        assert forall b :: Usable(parts, markers - {listing[0]}, b, offer) ==> Usable(parts, markers, b, offer);
        OnlyUsableIsFound(parts, markers - {listing[0]}, listing[1..], offer, base);
      } else {
        OnlyUsableIsFound(parts, markers, listing[1..], offer, base);
      }
    }
  }

  /**
    If the sender offers the file again, and nothing else that was kept fits the offer, the transfer goes
    on where the other broke off: only the rest goes over the wire, and the file completes.
  */
  lemma InterruptedGoesOn(box: Box, t: nat, listing: seq<string>, content: Bytes, base: string, offer: Marker, free: string, flushed: nat)
    requires Sound(box) && t !in box.active && IsFirstFree(Taken(box), offer.name, free) && offer.size == |content|
    requires base in listing && Usable(box.parts, box.markers, base, offer) && box.parts[base] <= content
    requires forall other <- listing | other != base :: !Usable(box.parts, box.markers, other, offer)
    ensures
      var begun := Next(box, Begin(t, listing, offer, true, free));
      && Sound(begun) && t in begun.active && begun.active[t].final == base && begun.parts == box.parts
      && SentBy(content, |content|, |box.parts[base]|, |content| + 1) == (content[|box.parts[base]|..], HashSent(Sha256(content)))
      && var box' := Next(begun, Close(t, TapeOf(content, |content|, box.parts[base], |content| + 1), flushed));
         base in box'.files && box'.files[base] == content
  {
    OnlyUsableIsFound(box.parts, box.markers, listing, offer, base);
    var begun := Next(box, Begin(t, listing, offer, true, free));
    NextIsSound(box, Begin(t, listing, offer, true, free));
    UnbrokenCloses(begun, t, content, flushed);
    var rest := content[|box.parts[base]|..];
    assert rest[..|rest|] == rest;
  }
}
