/**
  The member's side of the control channel (crates/peercove-cli/src/control.rs).

  `MemberLink` sits between the supervisor, which asks, and the session's reader, which answers.
  Memo, admin and DNS-admin requests wait in maps keyed by a counter that is never reset, so that
  several can be open at once. A waiter is the receiving half the caller holds: it is either still
  open, answered, or dropped because the session went away.
*/
module Link {
  import opened Options

  /** Key pairs are opaque identities; a key stands for both of its halves. */
  type Key = nat

  datatype Kind = DnsAdmin | Admin | Memo

  datatype Message = RotateKey(newKey: Key) | Numbered(kind: Kind, number: nat)

  /** The sending queue of one session. `open` is false once its writer has gone away. */
  datatype Outbox = Outbox(sent: seq<Message>, open: bool)

  datatype Outcome = Answered(reply: nat) | Dropped

  /** One counter with its map of waiters, and what the closed waiters saw. */
  datatype Table = Table(counter: nat, waiting: set<nat>, closed: map<nat, Outcome>) {

    ghost predicate Valid() {
      && (forall n <- waiting :: 1 <= n <= counter && n !in closed)
      && (forall n <- closed :: 1 <= n <= counter)
    }

    /** The counter moves even when the link turns out to be down. */
    function Request(sent: bool): Table {
      Table(counter + 1, if sent then waiting + {counter + 1} else waiting, closed)
    }

    function PutResult(n: nat, reply: nat): Table {
      if n in waiting then Table(counter, waiting - {n}, closed[n := Answered(reply)]) else this
    }

    function Clear(): Table {
      Table(counter, {}, closed + map n <- waiting :: Dropped)
    }
  }

  datatype State = State(
    session: nat,
    outbox: Option<Outbox>,
    rotateResult: Option<bool>,
    dnsAdmin: Table,
    admin: Table,
    memo: Table)
  {
    ghost predicate Valid() {
      dnsAdmin.Valid() && admin.Valid() && memo.Valid()
    }

    function TableOf(kind: Kind): Table {
      match kind
      case DnsAdmin => dnsAdmin
      case Admin => admin
      case Memo => memo
    }

    function WithTable(kind: Kind, t: Table): State {
      match kind
      case DnsAdmin => this.(dnsAdmin := t)
      case Admin => this.(admin := t)
      case Memo => this.(memo := t)
    }

    function ClearTables(): State {
      this.(dnsAdmin := dnsAdmin.Clear(), admin := admin.Clear(), memo := memo.Clear())
    }

    predicate CanSend() {
      outbox.Some? && outbox.value.open
    }

    function Session(): Option<nat> {
      if outbox.Some? then Some(session) else None
    }
  }

  const EMPTY_TABLE := Table(0, {}, map[])
  const INITIAL := State(0, None, None, EMPTY_TABLE, EMPTY_TABLE, EMPTY_TABLE)

  // ----- specification of the operations -----

  function AfterSend(s: State, m: Message): State {
    if s.CanSend() then s.(outbox := Some(s.outbox.value.(sent := s.outbox.value.sent + [m]))) else s
  }

  function AfterRequest(s: State, kind: Kind): State {
    var n := s.TableOf(kind).counter + 1;
    AfterSend(s, Numbered(kind, n)).WithTable(kind, s.TableOf(kind).Request(s.CanSend()))
  }

  function AfterAttach(s: State): State {
    s.ClearTables().(session := s.session + 1, outbox := Some(Outbox([], true)), rotateResult := None)
  }

  function AfterDetach(s: State): State {
    s.ClearTables().(outbox := None)
  }

  class MemberLink {
    var inner: State

    constructor ()
      ensures inner == INITIAL
    {
      inner := INITIAL;
    }

    method Send(m: Message) returns (ok: bool)
      modifies this
      ensures ok == old(inner).CanSend()
      ensures inner == AfterSend(old(inner), m)
      ensures ok ==> inner.outbox.value.sent == old(inner).outbox.value.sent + [m]
      ensures !ok ==> inner == old(inner)
    {
      match inner.outbox
      case None => ok := false;
      case Some(outbox) =>
        ok := outbox.open;
        if ok {
          inner := inner.(outbox := Some(outbox.(sent := outbox.sent + [m])));
        }
    }

    method TakeRotateResult() returns (r: Option<bool>)
      modifies this
      ensures r == old(inner).rotateResult
      ensures inner == old(inner).(rotateResult := None)
    {
      r := inner.rotateResult;
      inner := inner.(rotateResult := None);
    }

    /** Ask for an answer of the given kind. No number is returned when the link is down. */
    method Request(kind: Kind) returns (r: Option<nat>)
      requires inner.Valid()
      modifies this
      ensures inner.Valid() && inner == AfterRequest(old(inner), kind)
      ensures r.Some? == old(inner).CanSend()
      ensures r.Some? ==> r.value in inner.TableOf(kind).waiting - old(inner).TableOf(kind).waiting
      ensures r.Some? ==> r.value !in old(inner).TableOf(kind).closed
    {
      var n := inner.TableOf(kind).counter + 1;
      inner := inner.WithTable(kind, inner.TableOf(kind).(counter := n));
      var ok := Send(Numbered(kind, n));
      if !ok {
        return None;
      }
      var t := inner.TableOf(kind);
      inner := inner.WithTable(kind, t.(waiting := t.waiting + {n}));
      return Some(n);
    }

    /** A reply whose number nobody waits for changes nothing. */
    method PutResult(kind: Kind, n: nat, reply: nat)
      requires inner.Valid()
      modifies this
      ensures inner.Valid()
      ensures inner == old(inner).WithTable(kind, old(inner).TableOf(kind).PutResult(n, reply))
      ensures n !in old(inner).TableOf(kind).waiting ==> inner == old(inner)
    {
      var t := inner.TableOf(kind);
      if n in t.waiting {
        inner := inner.WithTable(kind, Table(t.counter, t.waiting - {n}, t.closed[n := Answered(reply)]));
      }
    }

    method PutRotateResult(accepted: bool)
      modifies this
      ensures inner == old(inner).(rotateResult := Some(accepted))
    {
      inner := inner.(rotateResult := Some(accepted));
    }

    method Attach()
      requires inner.Valid()
      modifies this
      ensures inner.Valid() && inner == AfterAttach(old(inner))
      ensures inner.session == old(inner).session + 1 && inner.outbox == Some(Outbox([], true)) && inner.rotateResult.None?
      ensures forall kind: Kind :: inner.TableOf(kind).waiting == {}
    {
      inner := inner.(session := inner.session + 1, outbox := Some(Outbox([], true)), rotateResult := None);
      inner := inner.ClearTables();
    }

    method Detach()
      requires inner.Valid()
      modifies this
      ensures inner.Valid() && inner == AfterDetach(old(inner))
      ensures forall kind: Kind :: inner.TableOf(kind).waiting == {}
    {
      inner := inner.(outbox := None).ClearTables();
    }
  }

  // ----- whole runs -----

  datatype Event =
    | Attach
    | Detach
    | WriterGone
    | Ask(kind: Kind)
    | Reply(kind: Kind, number: nat, reply: nat)

  function Step(s: State, e: Event): State {
    match e
    case Attach => AfterAttach(s)
    case Detach => AfterDetach(s)
    case WriterGone => if s.outbox.Some? then s.(outbox := Some(s.outbox.value.(open := false))) else s
    case Ask(kind) => AfterRequest(s, kind)
    case Reply(kind, n, reply) => s.WithTable(kind, s.TableOf(kind).PutResult(n, reply))
  }

  function Run(es: seq<Event>): State {
    if es == [] then INITIAL else Step(Run(es[..|es| - 1]), es[|es| - 1])
  }

  /** Event `i` is the one that asked for answer `n`, and the link was up. */
  ghost predicate Asked(es: seq<Event>, kind: Kind, n: nat, i: nat) {
    && i < |es|
    && es[i] == Ask(kind)
    && Run(es[..i]).CanSend()
    && Run(es[..i]).TableOf(kind).counter + 1 == n
  }

  /** Between `i` and `j` the session neither started nor ended, and no reply numbered `n` arrived. */
  ghost predicate Undisturbed(es: seq<Event>, kind: Kind, n: nat, i: nat, j: nat) {
    && i < j <= |es|
    && forall m {:trigger es[m]} | i < m < j :: !es[m].Attach? && !es[m].Detach? && !(es[m].Reply? && es[m].kind == kind && es[m].number == n)
  }

  ghost predicate OpenSince(es: seq<Event>, kind: Kind, n: nat, i: nat) {
    Asked(es, kind, n, i) && Undisturbed(es, kind, n, i, |es|)
  }

  /** Event `j` is the first reply numbered `n` after the request at `i`, within one session. */
  ghost predicate AnsweredBy(es: seq<Event>, kind: Kind, n: nat, reply: nat, i: nat, j: nat) {
    && Asked(es, kind, n, i)
    && Undisturbed(es, kind, n, i, j)
    && j < |es|
    && es[j] == Reply(kind, n, reply)
  }

  lemma {:induction false} RunValid(es: seq<Event>)
    ensures Run(es).Valid()
  {
    if es != [] {
      RunValid(es[..|es| - 1]);
      StepValid(Run(es[..|es| - 1]), es[|es| - 1]);
    }
  }

  lemma StepValid(s: State, e: Event)
    requires s.Valid()
    ensures Step(s, e).Valid()
  {
  }

  /** What an event does to one table, given whether the link is up. */
  function TableStep(t: Table, up: bool, kind: Kind, e: Event): Table {
    match e
    case Attach => t.Clear()
    case Detach => t.Clear()
    case WriterGone => t
    case Ask(k) => if k == kind then t.Request(up) else t
    case Reply(k, n, reply) => if k == kind then t.PutResult(n, reply) else t
  }

  lemma TableSteps(s: State, e: Event, kind: Kind)
    ensures Step(s, e).TableOf(kind) == TableStep(s.TableOf(kind), s.CanSend(), kind, e)
  {
  }

  lemma StepOnTable(es: seq<Event>, kind: Kind)
    requires es != []
    ensures Run(es[..|es| - 1]).TableOf(kind).Valid()
    ensures Run(es).TableOf(kind)
         == TableStep(Run(es[..|es| - 1]).TableOf(kind), Run(es[..|es| - 1]).CanSend(), kind, es[|es| - 1])
  {
    RunValid(es[..|es| - 1]);
    TableSteps(Run(es[..|es| - 1]), es[|es| - 1], kind);
  }

  /** Counters never go back, so no two requests of a run ever share a number. */
  lemma {:induction false} CounterGrows(es: seq<Event>, kind: Kind, i: nat)
    requires i <= |es|
    ensures Run(es[..i]).TableOf(kind).counter <= Run(es).TableOf(kind).counter
    ensures i < |es| && es[i] == Ask(kind) ==> Run(es[..i]).TableOf(kind).counter < Run(es).TableOf(kind).counter
  {
    if i == |es| {
      assert es[..i] == es;
    } else {
      var front := es[..|es| - 1];
      assert front[..i] == es[..i];
      CounterGrows(front, kind, i);
      StepOnTable(es, kind);
      assert i == |es| - 1 ==> front == es[..i];
    }
  }

  lemma NumbersAreUnique(es: seq<Event>, kind: Kind, n: nat, i: nat, j: nat)
    requires Asked(es, kind, n, i) && Asked(es, kind, n, j)
    ensures i == j
  {
    if i < j {
      assert es[..j][..i] == es[..i];
      CounterGrows(es[..j], kind, i);
    } else if j < i {
      assert es[..i][..j] == es[..j];
      CounterGrows(es[..i], kind, j);
    }
  }

  lemma AskedInFront(es: seq<Event>, kind: Kind, n: nat, i: nat)
    requires es != [] && i < |es| - 1
    ensures Asked(es, kind, n, i) == Asked(es[..|es| - 1], kind, n, i)
  {
    assert es[..|es| - 1][..i] == es[..i];
  }

  lemma OpenStep(es: seq<Event>, kind: Kind, n: nat, i: nat)
    requires es != [] && i < |es| - 1
    ensures OpenSince(es, kind, n, i) <==>
      && OpenSince(es[..|es| - 1], kind, n, i)
      && !es[|es| - 1].Attach? && !es[|es| - 1].Detach?
      && !(es[|es| - 1].Reply? && es[|es| - 1].kind == kind && es[|es| - 1].number == n)
  {
    var front := es[..|es| - 1];
    AskedInFront(es, kind, n, i);
    assert forall m {:trigger es[m]} {:trigger front[m]} | i < m < |front| :: es[m] == front[m];
    if OpenSince(es, kind, n, i) {
      assert Undisturbed(front, kind, n, i, |front|);
    }
  }

  lemma AnsweredStep(es: seq<Event>, kind: Kind, n: nat, reply: nat, i: nat, j: nat)
    requires es != [] && i < j < |es|
    ensures AnsweredBy(es, kind, n, reply, i, j) <==>
      if j == |es| - 1 then OpenSince(es[..j], kind, n, i) && es[j] == Reply(kind, n, reply)
      else AnsweredBy(es[..|es| - 1], kind, n, reply, i, j)
  {
    var front := es[..|es| - 1];
    AskedInFront(es, kind, n, i);
    assert forall m {:trigger es[m]} {:trigger front[m]} | i < m < |front| :: es[m] == front[m];
    if j == |es| - 1 {
      assert Undisturbed(es, kind, n, i, j) <==> Undisturbed(front, kind, n, i, j);
    } else {
      assert Undisturbed(es, kind, n, i, j) <==> Undisturbed(front, kind, n, i, j);
    }
  }

  ghost predicate EverOpen(es: seq<Event>, kind: Kind, n: nat) {
    exists i: nat :: OpenSince(es, kind, n, i)
  }

  /** The event ends the wait for answer `n`. */
  predicate Closes(e: Event, kind: Kind, n: nat) {
    e.Attach? || e.Detach? || (e.Reply? && e.kind == kind && e.number == n)
  }

  predicate Opens(s: State, e: Event, kind: Kind, n: nat) {
    e == Ask(kind) && s.CanSend() && s.TableOf(kind).counter + 1 == n
  }

  lemma OpenHere(es: seq<Event>, kind: Kind, n: nat)
    requires es != []
    ensures OpenSince(es, kind, n, |es| - 1) <==> Opens(Run(es[..|es| - 1]), es[|es| - 1], kind, n)
  {
  }

  lemma StaysOpen(es: seq<Event>, kind: Kind, n: nat)
    requires es != [] && EverOpen(es[..|es| - 1], kind, n) && !Closes(es[|es| - 1], kind, n)
    ensures EverOpen(es, kind, n)
  {
    var i: nat :| OpenSince(es[..|es| - 1], kind, n, i);
    OpenStep(es, kind, n, i);
  }

  lemma EverOpenStep(es: seq<Event>, kind: Kind, n: nat)
    requires es != []
    ensures EverOpen(es, kind, n) <==>
      || Opens(Run(es[..|es| - 1]), es[|es| - 1], kind, n)
      || (EverOpen(es[..|es| - 1], kind, n) && !Closes(es[|es| - 1], kind, n))
  {
    OpenHere(es, kind, n);
    if EverOpen(es, kind, n) {
      var i: nat :| OpenSince(es, kind, n, i);
      if i < |es| - 1 {
        OpenStep(es, kind, n, i);
      }
    } else if EverOpen(es[..|es| - 1], kind, n) && !Closes(es[|es| - 1], kind, n) {
      StaysOpen(es, kind, n);
    }
  }

  lemma WaitingStep(t: Table, s: State, kind: Kind, e: Event, n: nat)
    requires t.Valid() && t == s.TableOf(kind)
    ensures n in TableStep(t, s.CanSend(), kind, e).waiting <==>
      Opens(s, e, kind, n) || (n in t.waiting && !Closes(e, kind, n))
  {
  }

  /** A waiter is open exactly when its request has been left undisturbed. */
  lemma {:induction false} OpenIff(es: seq<Event>, kind: Kind, n: nat)
    ensures n in Run(es).TableOf(kind).waiting <==> EverOpen(es, kind, n)
  {
    if es == [] {
      assert !EverOpen(es, kind, n);
    } else {
      var front, last := es[..|es| - 1], es[|es| - 1];
      OpenIff(front, kind, n);
      StepOnTable(es, kind);
      WaitingStep(Run(front).TableOf(kind), Run(front), kind, last, n);
      EverOpenStep(es, kind, n);
    }
  }

  ghost predicate EverAnswered(es: seq<Event>, kind: Kind, n: nat, reply: nat) {
    exists i: nat, j: nat :: AnsweredBy(es, kind, n, reply, i, j)
  }

  lemma EverAnsweredStays(es: seq<Event>, kind: Kind, n: nat, reply: nat)
    requires es != []
    requires
      || EverAnswered(es[..|es| - 1], kind, n, reply)
      || (es[|es| - 1] == Reply(kind, n, reply) && EverOpen(es[..|es| - 1], kind, n))
    ensures EverAnswered(es, kind, n, reply)
  {
    var front := es[..|es| - 1];
    if i: nat, j: nat :| AnsweredBy(front, kind, n, reply, i, j) {
      AnsweredStep(es, kind, n, reply, i, j);
      assert AnsweredBy(es, kind, n, reply, i, j);
    } else {
      var i: nat :| OpenSince(front, kind, n, i);
      AnsweredStep(es, kind, n, reply, i, |front|);
      assert AnsweredBy(es, kind, n, reply, i, |front|);
    }
  }

  lemma EverAnsweredStep(es: seq<Event>, kind: Kind, n: nat, reply: nat)
    requires es != []
    ensures EverAnswered(es, kind, n, reply) <==>
      || EverAnswered(es[..|es| - 1], kind, n, reply)
      || (es[|es| - 1] == Reply(kind, n, reply) && EverOpen(es[..|es| - 1], kind, n))
  {
    if EverAnswered(es, kind, n, reply) {
      var i: nat, j: nat :| AnsweredBy(es, kind, n, reply, i, j);
      AnsweredStep(es, kind, n, reply, i, j);
    } else if
      || EverAnswered(es[..|es| - 1], kind, n, reply)
      || (es[|es| - 1] == Reply(kind, n, reply) && EverOpen(es[..|es| - 1], kind, n)) {
      EverAnsweredStays(es, kind, n, reply);
    }
  }

  /**
    A waiter holds an answer exactly when that answer was the first reply to carry the waiter's own
    number, in the very session of the request. Late, duplicated or unknown replies reach nobody.
  */
  lemma {:induction false} AnsweredIff(es: seq<Event>, kind: Kind, n: nat, reply: nat)
    ensures Lookup(Run(es).TableOf(kind).closed, n) == Some(Answered(reply))
       <==> EverAnswered(es, kind, n, reply)
  {
    if es == [] {
      assert !EverAnswered(es, kind, n, reply);
    } else {
      var front := es[..|es| - 1];
      AnsweredIff(front, kind, n, reply);
      OpenIff(front, kind, n);
      StepOnTable(es, kind);
      EverAnsweredStep(es, kind, n, reply);
    }
  }

  lemma ClosedStays(t: Table, up: bool, kind: Kind, e: Event, n: nat)
    requires t.Valid() && n in t.closed
    ensures Lookup(TableStep(t, up, kind, e).closed, n) == Lookup(t.closed, n)
  {
  }

  /** What a waiter saw is final: no later event of any kind changes it. */
  lemma {:induction false} AnsweredAtMostOnce(es: seq<Event>, more: seq<Event>, kind: Kind, n: nat)
    requires n in Run(es).TableOf(kind).closed
    ensures Lookup(Run(es + more).TableOf(kind).closed, n) == Lookup(Run(es).TableOf(kind).closed, n)
  {
    if more == [] {
      assert es + more == es;
    } else {
      var all := es + more;
      assert all[..|all| - 1] == es + more[..|more| - 1];
      AnsweredAtMostOnce(es, more[..|more| - 1], kind, n);
      StepOnTable(all, kind);
      var front := Run(all[..|all| - 1]);
      ClosedStays(front.TableOf(kind), front.CanSend(), kind, all[|all| - 1], n);
    }
  }
}
