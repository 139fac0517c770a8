/**
  Delivery of chat messages by any number of interleaved pumps over a network that loses frames and
  acknowledgements. A frame that got no answer in time may still arrive later, and more than once.
  The sender may crash at any time and goes on from its saved queue.
*/
module ChatDelivery {
  import opened Options
  import opened ChatHistory
  import opened ChatQueues
  import R = ChatRuns

  datatype Holding = Holding(item: Item, todo: seq<Ip>)

  /** One run of the pump: the numbers it still has to look at, and the item it has taken out. */
  datatype Pump = Pump(due: seq<nat>, holding: Option<Holding>)

  type Pumps = map<nat, Pump>
  type Sent = map<string, Item>
  type Arrivals = set<(Ip, string)>

  /**
    `disk` is the saved queue. The rest from `sent` on but `flying` and `logs` records history:
    `finished` are the messages that were delivered and `dropped` those that were given up, as far as
    the sender has not taken them up again.
  */
  datatype World = World(
    self: Ip,
    queue: seq<Item>,
    pumps: Pumps,
    disk: seq<Item>,
    flying: set<Frame>,
    logs: map<Ip, Log>,
    sent: Sent,
    arrived: Arrivals,
    finished: set<string>,
    dropped: set<string>)

  datatype Action =
    | Send(item: Item)
    | Begin(pump: nat, now: nat)
    | Take(pump: nat, known: Known)
    | Deliver(pump: nat, acked: bool)
    | Arrive(frame: Frame)
    | Finish(pump: nat, now: nat)
    | End(pump: nat)
    | Resend(seqNo: nat, member: Option<string>, now: nat)
    | Lose(loss: Loss)
    | Save
    | Restart(now: nat)
    | Other(ip: Ip, local: R.Action)

  function Start(self: Ip): World {
    World(self, [], map[], [], {}, map[], map[], {}, {}, {})
  }

  function LogOf(logs: map<Ip, Log>, ip: Ip): Log {
    if ip in logs then logs[ip] else Loaded([])
  }

  function FrameTo(item: Item, target: Ip): Frame {
    Frame(target, item.id, item.scope, item.group, item.text)
  }

  predicate InItems(items: seq<Item>, id: string) {
    exists x <- items :: x.id == id
  }

  /** Identifiers are drawn at random and never drawn twice. */
  ghost predicate Unused(w: World, id: string) {
    id !in w.sent && forall ip <- w.logs :: !HasId(w.logs[ip].entries, id)
  }

  /** What `chat_send` lets through. */
  predicate Sendable(self: Ip, item: Item) {
    && item.delivered == {} && |item.text| <= MAX_TEXT_BYTES
    && (if item.scope == Direct then item.to.Some? && item.to.value != self else item.to.None?)
    && (item.scope == Group <==> item.group.Some?)
  }

  function OwnEntry(self: Ip, item: Item): Message {
    Message(0, item.id, item.scope, item.group, self, item.to, item.text, false)
  }

  function WithLog(w: World, ip: Ip, log: Log): World {
    w.(logs := w.logs[ip := log])
  }

  function Received(w: World, f: Frame): World {
    if Acceptable(f) then
      WithLog(w, f.target, Handled(LogOf(w.logs, f.target), f, w.self)).(arrived := w.arrived + {(f.target, f.id)})
    else w
  }

  function Hold(w: World, p: nat, due: seq<nat>, holding: Option<Holding>): World {
    w.(pumps := w.pumps[p := Pump(due, holding)])
  }

  /** An entry that can be sent again: the user's own, no note and no file. */
  function Again(w: World, seqNo: nat): Option<Message> {
    match FindEntry(LogOf(w.logs, w.self).entries, seqNo)
    case None => None
    case Some(m) => if m.from == w.self && m.id in w.sent then Some(m) else None
  }

  ghost function Next(w: World, a: Action): World {
    match a
    case Send(item) =>
      if !Sendable(w.self, item) || !Unused(w, item.id) then w
      else
        WithLog(w, w.self, Appended(LogOf(w.logs, w.self), OwnEntry(w.self, item), true))
        .(sent := w.sent[item.id := item], queue := w.queue + [item])
    case Begin(p, now) => if p in w.pumps then w else Hold(w, p, DueAt(w.queue, now), None)
    case Take(p, known) =>
      if p !in w.pumps || w.pumps[p].holding.Some? || w.pumps[p].due == [] then w
      else TakeOut(w, p, w.pumps[p].due, known)
    case Deliver(p, acked) =>
      if p !in w.pumps || w.pumps[p].holding.None? || w.pumps[p].holding.value.todo == [] then w
      else Offer(w, p, w.pumps[p].due, w.pumps[p].holding.value, acked)
    case Arrive(f) => if f in w.flying then Received(w, f) else w
    case Finish(p, now) =>
      if p !in w.pumps || w.pumps[p].holding.None? || w.pumps[p].holding.value.todo != [] then w
      else PutBack(w, p, w.pumps[p].due, w.pumps[p].holding.value.item, now)
    case End(p) =>
      if p !in w.pumps || w.pumps[p].holding.Some? || w.pumps[p].due != [] then w else w.(pumps := w.pumps - {p})
    case Resend(seqNo, member, now) => TakenUp(w, seqNo, member, now)
    case Lose(loss) => GivenUp(w, loss)
    case Save => w.(disk := w.queue)
    case Restart(now) => Restarted(w, now)
    case Other(ip, local) =>
      if local.Append? && !Unused(w, local.m.id) then w else WithLog(w, ip, R.Next(LogOf(w.logs, ip), local))
  }

  /** Another pump may have taken the item in the meantime. */
  function TakeOut(w: World, p: nat, due: seq<nat>, known: Known): World
    requires due != []
  {
    match Position(w.queue, due[0])
    case None => Hold(w, p, due[1..], None)
    case Some(i) =>
      Hold(w, p, due[1..], Some(Holding(w.queue[i], Targets(w.self, w.queue[i], known)))).(queue := Without(w.queue, i))
  }

  function Offer(w: World, p: nat, due: seq<nat>, h: Holding, acked: bool): World
    requires h.todo != []
  {
    var target, rest := h.todo[0], h.todo[1..];
    var f := FrameTo(h.item, target);
    if target in h.item.delivered then Hold(w, p, due, Some(Holding(h.item, rest)))
    else if acked && Acceptable(f) then
      Hold(Received(w, f), p, due, Some(Holding(h.item.(delivered := h.item.delivered + {target}), rest)))
    else Hold(w, p, due, Some(Holding(h.item, rest))).(flying := w.flying + {f})
  }

  function PutBack(w: World, p: nat, due: seq<nat>, item: Item, now: nat): World {
    if Done(item) then Hold(w, p, due, None).(finished := w.finished + {item.id})
    else Hold(w, p, due, None).(queue := w.queue + [item.(nextAt := now + RESEND_INTERVAL)])
  }

  /** What still waits is made due; anything else is queued anew from the history. */
  function TakenUp(w: World, seqNo: nat, member: Option<string>, now: nat): World {
    match Position(w.queue, seqNo)
    case Some(i) => w.(queue := w.queue[i := w.queue[i].(nextAt := now)])
    case None =>
      match Again(w, seqNo)
      case None => w
      case Some(m) =>
        w.(queue := w.queue + [ItemOf(m, member, now)], finished := w.finished - {m.id}, dropped := w.dropped - {m.id})
  }

  function GivenUp(w: World, loss: Loss): World {
    w.(queue := Kept(w.queue, loss), dropped := w.dropped + set x <- w.queue | Lost(loss, x) :: x.id)
  }

  /** A crash takes what was not saved, and forgets what was delivered if it was saved as waiting. */
  function Restarted(w: World, now: nat): World {
    w.(queue := Restored(w.disk, now), pumps := map[],
       finished := (set id <- w.finished | !InItems(w.disk, id)),
       dropped := (set id <- w.sent | id !in w.finished && !InItems(w.disk, id)))
  }

  ghost function Run(self: Ip, actions: seq<Action>): World {
    if actions == [] then Start(self) else Next(Run(self, actions[..|actions| - 1]), actions[|actions| - 1])
  }

  // ----- who has a message -----

  predicate HeldIn(pumps: Pumps, p: nat, id: string) {
    p in pumps && pumps[p].holding.Some? && pumps[p].holding.value.item.id == id
  }

  ghost predicate Held(pumps: Pumps, id: string) {
    exists p :: HeldIn(pumps, p, id)
  }

  ghost predicate AtMostOnce(items: seq<Item>, id: string) {
    forall i, j | 0 <= i < j < |items| && items[i].id == id :: items[j].id != id
  }

  ghost predicate OneHolder(pumps: Pumps, id: string) {
    forall p, q | HeldIn(pumps, p, id) && HeldIn(pumps, q, id) :: p == q
  }

  /** The queue, one pump, or nobody any more: a message that was sent is in exactly one of these places. */
  ghost predicate OneOwner(w: World, id: string) {
    && AtMostOnce(w.queue, id) && OneHolder(w.pumps, id)
    && (id in w.sent <==> InItems(w.queue, id) || Held(w.pumps, id) || id in w.finished || id in w.dropped)
    && !(InItems(w.queue, id) && Held(w.pumps, id))
    && (id in w.finished || id in w.dropped ==> !InItems(w.queue, id) && !Held(w.pumps, id))
    && !(id in w.finished && id in w.dropped)
    && AtMostOnce(w.disk, id) && (InItems(w.disk, id) ==> id in w.sent)
  }

  lemma AddedTo(items: seq<Item>, x: Item, id: string)
    ensures InItems(items + [x], id) <==> InItems(items, id) || x.id == id
    ensures AtMostOnce(items + [x], id) <==> AtMostOnce(items, id) && !(InItems(items, id) && x.id == id)
  {
    var more := items + [x];
    assert more[|items|] == x && forall k | 0 <= k < |items| :: more[k] == items[k];
    if InItems(items, id) {
      var k :| 0 <= k < |items| && items[k].id == id;
      assert more[k].id == id && more[|items|] == x;
      assert more[k] in more;
    }
  }

  lemma RemovedFrom(items: seq<Item>, i: nat, id: string)
    requires i < |items| && AtMostOnce(items, id)
    ensures AtMostOnce(Without(items, i), id)
    ensures InItems(Without(items, i), id) <==> InItems(items, id) && items[i].id != id
  {
    var rest := Without(items, i);
    if InItems(items, id) && items[i].id != id {
      var k :| 0 <= k < |items| && items[k].id == id;
      assert rest[if k < i then k else k - 1] == items[k];
    }
    if InItems(rest, id) {
      StillThere(items, i, id);
    }
  }

  lemma StillThere(items: seq<Item>, i: nat, id: string)
    requires i < |items| && AtMostOnce(items, id) && InItems(Without(items, i), id)
    ensures InItems(items, id) && items[i].id != id
  {
    var k :| 0 <= k < |Without(items, i)| && Without(items, i)[k].id == id;
    assert items[if k < i then k else k + 1] in items;
  }

  lemma {:induction false} KeptOnce(items: seq<Item>, loss: Loss, id: string)
    requires AtMostOnce(items, id)
    ensures AtMostOnce(Kept(items, loss), id)
  {
    if items != [] {
      var front, last := items[..|items| - 1], items[|items| - 1];
      assert items == front + [last];
      AddedTo(front, last, id);
      KeptOnce(front, loss, id);
      AddedTo(Kept(front, loss), last, id);
    }
  }

  lemma KeptIff(items: seq<Item>, loss: Loss, id: string)
    requires AtMostOnce(items, id) && InItems(items, id)
    ensures InItems(Kept(items, loss), id) <==> !exists x <- items :: Lost(loss, x) && x.id == id
  {
    var x :| x in items && x.id == id;
    OnlyOne(items, id, x);
    assert InItems(Kept(items, loss), id) <==> x in Kept(items, loss);
  }

  lemma OnlyOne(items: seq<Item>, id: string, x: Item)
    requires AtMostOnce(items, id) && x in items && x.id == id
    ensures forall y <- items | y.id == id :: y == x
  {
  }

  lemma ChangedIn(items: seq<Item>, i: nat, x: Item, id: string)
    requires i < |items| && x.id == items[i].id
    ensures InItems(items[i := x], id) <==> InItems(items, id)
    ensures AtMostOnce(items[i := x], id) <==> AtMostOnce(items, id)
  {
    var after := items[i := x];
    assert forall k | 0 <= k < |items| :: after[k].id == items[k].id;
    SameIds(items, after, id);
    SameIds(after, items, id);
  }

  lemma SameIds(items: seq<Item>, others: seq<Item>, id: string)
    requires |items| == |others| && forall k | 0 <= k < |items| :: items[k].id == others[k].id
    ensures InItems(items, id) ==> InItems(others, id)
    ensures AtMostOnce(items, id) ==> AtMostOnce(others, id)
  {
    if InItems(items, id) {
      var k :| 0 <= k < |items| && items[k].id == id;
      assert others[k].id == id;
    }
  }

  /** One pump changes what it holds. */
  lemma PumpChanged(pumps: Pumps, p: nat, pump: Pump, id: string)
    ensures pump.holding.Some? && pump.holding.value.item.id == id ==> Held(pumps[p := pump], id)
    ensures !(pump.holding.Some? && pump.holding.value.item.id == id) && !HeldIn(pumps, p, id) ==>
      (Held(pumps[p := pump], id) <==> Held(pumps, id)) && (OneHolder(pumps, id) ==> OneHolder(pumps[p := pump], id))
    ensures !(pump.holding.Some? && pump.holding.value.item.id == id) && HeldIn(pumps, p, id) && OneHolder(pumps, id) ==>
      !Held(pumps[p := pump], id)
    ensures (forall q | HeldIn(pumps, q, id) :: q == p) ==> OneHolder(pumps[p := pump], id)
  {
    var after := pumps[p := pump];
    assert forall q | q != p :: HeldIn(after, q, id) <==> HeldIn(pumps, q, id);
    assert HeldIn(after, p, id) <==> pump.holding.Some? && pump.holding.value.item.id == id;
  }

  lemma SendKeepsOwner(w: World, item: Item, id: string)
    requires OneOwner(w, id)
    ensures OneOwner(Next(w, Send(item)), id)
  {
    AddedTo(w.queue, item, id);
  }

  lemma TakeKeepsOwner(w: World, p: nat, known: Known, id: string)
    requires OneOwner(w, id) && p in w.pumps && w.pumps[p].holding.None? && w.pumps[p].due != []
    ensures OneOwner(TakeOut(w, p, w.pumps[p].due, known), id)
  {
    var due := w.pumps[p].due;
    assert !HeldIn(w.pumps, p, id);
    match Position(w.queue, due[0])
    case None => PumpChanged(w.pumps, p, Pump(due[1..], None), id);
    case Some(i) =>
      var item := w.queue[i];
      assert item in w.queue;
      RemovedFrom(w.queue, i, id);
      PumpChanged(w.pumps, p, Pump(due[1..], Some(Holding(item, Targets(w.self, item, known)))), id);
  }

  lemma OfferKeepsOwner(w: World, p: nat, acked: bool, id: string)
    requires OneOwner(w, id) && p in w.pumps && w.pumps[p].holding.Some? && w.pumps[p].holding.value.todo != []
    ensures OneOwner(Offer(w, p, w.pumps[p].due, w.pumps[p].holding.value, acked), id)
  {
    var w' := Offer(w, p, w.pumps[p].due, w.pumps[p].holding.value, acked);
    SameHolders(w.pumps, w'.pumps, id);
  }

  lemma SameHolders(pumps: Pumps, pumps': Pumps, id: string)
    requires forall q :: HeldIn(pumps', q, id) <==> HeldIn(pumps, q, id)
    ensures Held(pumps', id) <==> Held(pumps, id)
    ensures OneHolder(pumps', id) <==> OneHolder(pumps, id)
  {
  }

  lemma FinishKeepsOwner(w: World, p: nat, now: nat, id: string)
    requires OneOwner(w, id) && p in w.pumps && w.pumps[p].holding.Some?
    ensures OneOwner(PutBack(w, p, w.pumps[p].due, w.pumps[p].holding.value.item, now), id)
  {
    var item := w.pumps[p].holding.value.item;
    assert HeldIn(w.pumps, p, item.id);
    PumpChanged(w.pumps, p, Pump(w.pumps[p].due, None), id);
    AddedTo(w.queue, item.(nextAt := now + RESEND_INTERVAL), id);
  }

  lemma LoseKeepsOwner(w: World, loss: Loss, id: string)
    requires OneOwner(w, id)
    ensures OneOwner(GivenUp(w, loss), id)
  {
    KeptOnce(w.queue, loss, id);
    if InItems(w.queue, id) {
      KeptIff(w.queue, loss, id);
    }
    var w' := GivenUp(w, loss);
    assert id in w'.dropped <==> id in w.dropped || exists x <- w.queue :: Lost(loss, x) && x.id == id;
    assert !InItems(w.queue, id) ==> !InItems(w'.queue, id);
  }

  lemma RestartKeepsOwner(w: World, now: nat, id: string)
    requires OneOwner(w, id)
    ensures OneOwner(Restarted(w, now), id)
  {
    var disk := Restored(w.disk, now);
    SameIds(w.disk, disk, id);
    SameIds(disk, w.disk, id);
  }

  /** Sending again queues the message from the history while it is somewhere else already. */
  ghost predicate Doubles(w: World, seqNo: nat, id: string) {
    && Position(w.queue, seqNo).None? && Again(w, seqNo).Some? && Again(w, seqNo).value.id == id
    && (InItems(w.queue, id) || Held(w.pumps, id))
  }

  /** Only sending again can give a message a second owner, and does exactly when it is in the hands of a pump. */
  lemma ResendKeepsOwnerIff(w: World, seqNo: nat, member: Option<string>, now: nat, id: string)
    requires OneOwner(w, id)
    ensures OneOwner(Next(w, Resend(seqNo, member, now)), id) <==> !Doubles(w, seqNo, id)
  {
    match Position(w.queue, seqNo)
    case Some(i) => ChangedIn(w.queue, i, w.queue[i].(nextAt := now), id);
    case None =>
      if Again(w, seqNo).Some? {
        AddedTo(w.queue, ItemOf(Again(w, seqNo).value, member, now), id);
      }
  }

  lemma NextKeepsOwner(w: World, a: Action, id: string)
    requires OneOwner(w, id) && (a.Resend? ==> !Doubles(w, a.seqNo, id))
    ensures OneOwner(Next(w, a), id)
  {
    var w' := Next(w, a);
    match a
    case Send(item) => SendKeepsOwner(w, item, id);
    case Take(p, known) =>
      if p in w.pumps && w.pumps[p].holding.None? && w.pumps[p].due != [] {
        TakeKeepsOwner(w, p, known, id);
      }
    case Deliver(p, acked) =>
      if p in w.pumps && w.pumps[p].holding.Some? && w.pumps[p].holding.value.todo != [] {
        OfferKeepsOwner(w, p, acked, id);
      }
    case Finish(p, now) =>
      if p in w.pumps && w.pumps[p].holding.Some? && w.pumps[p].holding.value.todo == [] {
        FinishKeepsOwner(w, p, now, id);
      }
    case Resend(seqNo, member, now) => ResendKeepsOwnerIff(w, seqNo, member, now, id);
    case Lose(loss) => LoseKeepsOwner(w, loss, id);
    case Restart(now) => RestartKeepsOwner(w, now, id);
    case _ => RestKeepsOwner(w, a, id);
  }

  lemma RestKeepsOwner(w: World, a: Action, id: string)
    requires OneOwner(w, id) && (a.Begin? || a.Arrive? || a.End? || a.Save? || a.Other?)
    ensures OneOwner(Next(w, a), id)
  {
    SameHolders(w.pumps, Next(w, a).pumps, id);
  }

  /** No message was sent again by hand while a pump had it. */
  ghost predicate NeverDoubled(self: Ip, actions: seq<Action>, id: string) {
    actions == [] ||
    var before, a := actions[..|actions| - 1], actions[|actions| - 1];
    NeverDoubled(self, before, id) && (a.Resend? ==> !Doubles(Run(self, before), a.seqNo, id))
  }

  lemma {:induction false} RunIsOwned(self: Ip, actions: seq<Action>, id: string)
    requires NeverDoubled(self, actions, id)
    ensures OneOwner(Run(self, actions), id)
  {
    if actions != [] {
      RunIsOwned(self, actions[..|actions| - 1], id);
      NextKeepsOwner(Run(self, actions[..|actions| - 1]), actions[|actions| - 1], id);
    }
  }

  /**
    A message that was sent waits in the queue, once, or is in the hands of one pump, or was delivered,
    or given up: exactly one of these, through any number of pumps, losses and crashes, unless it was
    sent again by hand at the very moment when a pump had it.
  */
  lemma EachMessageHasOneOwner(self: Ip, actions: seq<Action>, id: string)
    requires NeverDoubled(self, actions, id)
    ensures
      var w := Run(self, actions);
      && AtMostOnce(w.queue, id) && OneHolder(w.pumps, id)
      && (id !in w.sent ==> !InItems(w.queue, id) && !Held(w.pumps, id) && id !in w.finished && id !in w.dropped)
      && (id in w.sent ==>
        || (InItems(w.queue, id) && !Held(w.pumps, id) && id !in w.finished && id !in w.dropped)
        || (!InItems(w.queue, id) && Held(w.pumps, id) && id !in w.finished && id !in w.dropped)
        || (!InItems(w.queue, id) && !Held(w.pumps, id) && id in w.finished && id !in w.dropped)
        || (!InItems(w.queue, id) && !Held(w.pumps, id) && id !in w.finished && id in w.dropped))
  {
    RunIsOwned(self, actions, id);
  }

  lemma RunStep(self: Ip, actions: seq<Action>, a: Action)
    ensures Run(self, actions + [a]) == Next(Run(self, actions), a)
  {
    assert (actions + [a])[..|actions|] == actions;
  }

  /** What a restart finds, if the queue was just saved: all that is neither delivered nor given up, but for what a pump holds. */
  lemma SavedIff(self: Ip, actions: seq<Action>, now: nat, id: string)
    requires NeverDoubled(self, actions, id)
    ensures
      var w := Run(self, actions);
      InItems(Run(self, actions + [Save] + [Restart(now)]).queue, id) <==>
        id in w.sent && id !in w.finished && id !in w.dropped && !Held(w.pumps, id)
  {
    RunIsOwned(self, actions, id);
    RunStep(self, actions, Save);
    RunStep(self, actions + [Save], Restart(now));
    var queue := Run(self, actions).queue;
    SameIds(queue, Restored(queue, now), id);
    SameIds(Restored(queue, now), queue, id);
  }

  lemma SentAlone(self: Ip, item: Item) returns (w: World)
    requires Sendable(self, item)
    ensures w == Next(Start(self), Send(item))
    ensures w.self == self && w.queue == [item] && w.pumps == map[] && w.disk == [] && w.arrived == {} && w.finished == {}
    ensures item.id in w.sent && LogOf(w.logs, self).entries == [OwnEntry(self, item).(seqNo := 1)]
    ensures forall other | other != self :: LogOf(w.logs, other).entries == []
  {
    w := Next(Start(self), Send(item));
  }

  lemma TakenAlone(w: World, item: Item, known: Known) returns (w': World)
    requires w.queue == [item] && w.pumps == map[]
    ensures w' == Next(Next(w, Begin(0, item.nextAt)), Take(0, known))
    ensures w' == w.(queue := [], pumps := map[0 := Pump([], Some(Holding(item, Targets(w.self, item, known))))])
    ensures Held(w'.pumps, item.id)
  {
    assert [item][..0] == [] && DueAt([], item.nextAt) == [] && DueAt([item], item.nextAt) == [item.seqNo];
    assert Position([item], item.seqNo) == Some(0) && Without([item], 0) == [];
    w' := TakeOut(Next(w, Begin(0, item.nextAt)), 0, [item.seqNo], known);
    assert [item.seqNo][1..] == [];
    assert HeldIn(w'.pumps, 0, item.id);
  }

  /** One message on its way: it was sent, and a pump has taken it out. */
  lemma OnItsWay(self: Ip, item: Item, known: Known) returns (actions: seq<Action>)
    requires Sendable(self, item)
    ensures
      var w := Run(self, actions);
      && w.self == self && w.queue == [] && w.disk == [] && w.arrived == {} && w.finished == {}
      && item.id in w.sent && Held(w.pumps, item.id)
      && LogOf(w.logs, self).entries == [OwnEntry(self, item).(seqNo := 1)]
  {
    var w := SentAlone(self, item);
    var w' := TakenAlone(w, item, known);
    RunStep(self, [], Send(item));
    RunStep(self, [] + [Send(item)], Begin(0, item.nextAt));
    RunStep(self, [] + [Send(item)] + [Begin(0, item.nextAt)], Take(0, known));
    actions := [] + [Send(item)] + [Begin(0, item.nextAt)] + [Take(0, known)];
  }

  lemma RunFive(self: Ip, a: Action, b: Action, c: Action, d: Action, e: Action)
    ensures Run(self, [] + [a] + [b] + [c] + [d] + [e]) == Next(Next(Next(Next(Next(Start(self), a), b), c), d), e)
  {
    RunStep(self, [], a);
    RunStep(self, [] + [a], b);
    RunStep(self, [] + [a] + [b], c);
    RunStep(self, [] + [a] + [b] + [c], d);
    RunStep(self, [] + [a] + [b] + [c] + [d], e);
  }

  /**
    A message goes out in one round: its partner answers, so the message is in the partner's history,
    counts as delivered, and is in no queue any more.
  */
  lemma OneRoundDelivers(self: Ip, item: Item, known: Known, now: nat) returns (actions: seq<Action>)
    requires Sendable(self, item) && item.scope == Direct && Targets(self, item, known) == [item.to.value]
    ensures
      var w := Run(self, actions);
      && item.id in w.finished && w.queue == [] && !Held(w.pumps, item.id)
      && HasId(LogOf(w.logs, item.to.value).entries, item.id) && (item.to.value, item.id) in w.arrived
  {
    var w := SentAlone(self, item);
    var w1 := TakenAlone(w, item, known);
    var w2 := AnsweredAlone(w1, item);
    var w3 := FinishedAlone(w2, item, now);
    RunFive(self, Send(item), Begin(0, item.nextAt), Take(0, known), Deliver(0, true), Finish(0, now));
    actions := [] + [Send(item)] + [Begin(0, item.nextAt)] + [Take(0, known)] + [Deliver(0, true)] + [Finish(0, now)];
  }

  lemma AnsweredAlone(w: World, item: Item) returns (w': World)
    requires Sendable(w.self, item) && item.scope == Direct && !HasId(LogOf(w.logs, item.to.value).entries, item.id)
    requires w.pumps == map[0 := Pump([], Some(Holding(item, [item.to.value])))]
    ensures w' == Next(w, Deliver(0, true))
    ensures w'.queue == w.queue && w'.pumps == map[0 := Pump([], Some(Holding(item.(delivered := {item.to.value}), [])))]
    ensures HasId(LogOf(w'.logs, item.to.value).entries, item.id) && (item.to.value, item.id) in w'.arrived
  {
    var f := FrameTo(item, item.to.value);
    ReceivedIsThere(w, f);
    w' := Offer(w, 0, [], Holding(item, [item.to.value]), true);
    DeliverIsOffer(w, 0);
    assert [item.to.value][1..] == [] && item.delivered + {item.to.value} == {item.to.value};
  }

  lemma ReceivedIsThere(w: World, f: Frame)
    requires Acceptable(f)
    ensures
      var w' := Received(w, f);
      && HasId(LogOf(w'.logs, f.target).entries, f.id) && (f.target, f.id) in w'.arrived
      && w'.queue == w.queue && w'.pumps == w.pumps && w'.self == w.self
  {
    AppendedIsThere(LogOf(w.logs, f.target), MessageOf(f, w.self));
  }

  lemma FinishedAlone(w: World, item: Item, now: nat) returns (w': World)
    requires item.scope == Direct && item.to.Some?
    requires w.pumps == map[0 := Pump([], Some(Holding(item.(delivered := {item.to.value}), [])))]
    ensures w' == Next(w, Finish(0, now))
    ensures w' == w.(finished := w.finished + {item.id}, pumps := map[0 := Pump([], None)]) && !Held(w'.pumps, item.id)
  {
    w' := PutBack(w, 0, [], item.(delivered := {item.to.value}), now);
  }

  lemma AppendedIsThere(log: Log, m: Message)
    ensures HasId(Appended(log, m, true).entries, m.id)
  {
    var entries := Appended(log, m, true).entries;
    assert entries[|entries| - 1].id == m.id;
  }

  /** So a crash right after a save forgets for good what a pump held, though nobody ever got it. */
  lemma CrashForgetsHeld(self: Ip, item: Item, known: Known, now: nat) returns (actions: seq<Action>)
    requires Sendable(self, item)
    ensures
      var w := Run(self, actions);
      item.id in w.dropped && !InItems(w.queue, item.id) && w.arrived == {}
  {
    actions := OnItsWay(self, item, known);
    RunStep(self, actions, Save);
    actions := actions + [Save];
    RunStep(self, actions, Restart(now));
    actions := actions + [Restart(now)];
  }

  /** And a message sent again by hand at that moment has two owners. */
  lemma ResendDoubles(self: Ip, item: Item, known: Known, now: nat) returns (actions: seq<Action>)
    requires Sendable(self, item)
    ensures
      var w := Run(self, actions);
      InItems(w.queue, item.id) && Held(w.pumps, item.id)
  {
    actions := OnItsWay(self, item, known);
    var w := Run(self, actions);
    assert Again(w, 1) == Some(OwnEntry(self, item).(seqNo := 1));
    RunStep(self, actions, Resend(1, None, now));
    actions := actions + [Resend(1, None, now)];
    AddedTo([], ItemOf(Again(w, 1).value, None, now), item.id);
    assert [] + [ItemOf(Again(w, 1).value, None, now)] == Run(self, actions).queue;
  }

  // ----- what was sent is what arrives, and where -----

  /** The item is the one that was queued; only its progress has changed, or it was queued anew. */
  predicate Same(a: Item, b: Item) {
    a.(seqNo := b.seqNo, toMember := b.toMember, delivered := b.delivered, nextAt := b.nextAt) == b
  }

  predicate Suits(self: Ip, item: Item, target: Ip) {
    target != self && (item.scope == Direct ==> item.to == Some(target))
  }

  ghost predicate Genuine(sent: Sent, arrived: Arrivals, item: Item) {
    && item.id in sent && Same(item, sent[item.id])
    && forall t <- item.delivered :: (t, item.id) in arrived
  }

  ghost predicate AllGenuine(sent: Sent, arrived: Arrivals, items: seq<Item>) {
    forall i | 0 <= i < |items| :: Genuine(sent, arrived, items[i])
  }

  ghost predicate GenuineFrame(self: Ip, sent: Sent, f: Frame) {
    f.id in sent && f == FrameTo(sent[f.id], f.target) && Suits(self, sent[f.id], f.target)
  }

  ghost predicate GenuineFrames(self: Ip, sent: Sent, flying: set<Frame>) {
    forall f <- flying :: GenuineFrame(self, sent, f)
  }

  ghost predicate GenuineHolding(self: Ip, sent: Sent, arrived: Arrivals, h: Holding) {
    Genuine(sent, arrived, h.item) && forall t <- h.todo :: Suits(self, h.item, t)
  }

  ghost predicate GenuinePumps(self: Ip, sent: Sent, arrived: Arrivals, pumps: Pumps) {
    forall p <- pumps | pumps[p].holding.Some? :: GenuineHolding(self, sent, arrived, pumps[p].holding.value)
  }

  /** The partner has it, or with other messages somebody. */
  ghost predicate Reached(sent: Sent, arrived: Arrivals, id: string) {
    && id in sent
    && if sent[id].scope == Direct then sent[id].to.Some? && (sent[id].to.value, id) in arrived
       else exists t :: (t, id) in arrived
  }

  ghost predicate AllReached(sent: Sent, arrived: Arrivals, finished: set<string>) {
    forall id <- finished :: Reached(sent, arrived, id)
  }

  ghost predicate RightPlaces(self: Ip, sent: Sent, arrived: Arrivals) {
    forall a <- arrived :: a.1 in sent && Suits(self, sent[a.1], a.0)
  }

  ghost predicate SentWell(self: Ip, sent: Sent) {
    forall id <- sent :: sent[id].id == id && Sendable(self, sent[id])
  }

  ghost predicate True(w: World) {
    && SentWell(w.self, w.sent) && RightPlaces(w.self, w.sent, w.arrived) && AllReached(w.sent, w.arrived, w.finished)
    && AllGenuine(w.sent, w.arrived, w.queue) && AllGenuine(w.sent, w.arrived, w.disk)
    && GenuineFrames(w.self, w.sent, w.flying) && GenuinePumps(w.self, w.sent, w.arrived, w.pumps)
  }

  /** More messages and more arrivals make nothing of this false. */
  ghost predicate Grown(sent: Sent, arrived: Arrivals, sent': Sent, arrived': Arrivals) {
    arrived <= arrived' && forall id <- sent :: id in sent' && sent'[id] == sent[id]
  }

  lemma GrownGenuine(sent: Sent, arrived: Arrivals, sent': Sent, arrived': Arrivals, items: seq<Item>)
    requires Grown(sent, arrived, sent', arrived') && AllGenuine(sent, arrived, items)
    ensures AllGenuine(sent', arrived', items)
  {
  }

  lemma GrownRest(w: World, sent': Sent, arrived': Arrivals)
    requires Grown(w.sent, w.arrived, sent', arrived')
    ensures GenuinePumps(w.self, w.sent, w.arrived, w.pumps) ==> GenuinePumps(w.self, sent', arrived', w.pumps)
    ensures GenuineFrames(w.self, w.sent, w.flying) ==> GenuineFrames(w.self, sent', w.flying)
    ensures AllReached(w.sent, w.arrived, w.finished) ==> AllReached(sent', arrived', w.finished)
  {
  }

  lemma GrownIsTrue(w: World, sent': Sent, arrived': Arrivals)
    requires True(w) && Grown(w.sent, w.arrived, sent', arrived')
    requires SentWell(w.self, sent') && RightPlaces(w.self, sent', arrived')
    ensures True(w.(sent := sent', arrived := arrived'))
  {
    GrownGenuine(w.sent, w.arrived, sent', arrived', w.queue);
    GrownGenuine(w.sent, w.arrived, sent', arrived', w.disk);
    GrownRest(w, sent', arrived');
  }

  lemma ReceivedIsTrue(w: World, f: Frame)
    requires True(w) && GenuineFrame(w.self, w.sent, f)
    ensures True(Received(w, f)) && Acceptable(f)
    ensures Grown(w.sent, w.arrived, w.sent, Received(w, f).arrived) && (f.target, f.id) in Received(w, f).arrived
  {
    assert Sendable(w.self, w.sent[f.id]);
    GrownIsTrue(w, w.sent, w.arrived + {(f.target, f.id)});
  }

  lemma SendIsTrue(w: World, item: Item)
    requires True(w)
    ensures True(Next(w, Send(item)))
  {
    if Sendable(w.self, item) && Unused(w, item.id) {
      GrownIsTrue(w, w.sent[item.id := item], w.arrived);
    }
  }

  lemma TargetsSuit(self: Ip, item: Item, known: Known)
    requires item.scope == Direct ==> item.to.Some? && item.to.value != self
    ensures forall t <- Targets(self, item, known) :: Suits(self, item, t)
  {
  }

  lemma TakeIsTrue(w: World, p: nat, known: Known)
    requires True(w) && p in w.pumps && w.pumps[p].due != []
    ensures True(TakeOut(w, p, w.pumps[p].due, known))
  {
    match Position(w.queue, w.pumps[p].due[0])
    case None =>
    case Some(i) =>
      assert Genuine(w.sent, w.arrived, w.queue[i]) && Sendable(w.self, w.sent[w.queue[i].id]);
      TargetsSuit(w.self, w.queue[i], known);
  }

  lemma HoldIsTrue(w: World, p: nat, due: seq<nat>, h: Holding)
    requires True(w) && GenuineHolding(w.self, w.sent, w.arrived, h)
    ensures True(Hold(w, p, due, Some(h)))
  {
  }

  lemma OfferIsTrue(w: World, p: nat, acked: bool)
    requires True(w) && p in w.pumps && w.pumps[p].holding.Some? && w.pumps[p].holding.value.todo != []
    ensures True(Offer(w, p, w.pumps[p].due, w.pumps[p].holding.value, acked))
  {
    var h, due := w.pumps[p].holding.value, w.pumps[p].due;
    var target, rest := h.todo[0], h.todo[1..];
    var f := FrameTo(h.item, target);
    HeldFrameIsGenuine(w, p);
    if target !in h.item.delivered && acked && Acceptable(f) {
      ReceivedIsTrue(w, f);
      var w' := Received(w, f);
      assert GenuinePumps(w'.self, w'.sent, w'.arrived, w'.pumps);
      HoldIsTrue(w', p, due, Holding(h.item.(delivered := h.item.delivered + {target}), rest));
    } else {
      HoldIsTrue(w, p, due, Holding(h.item, rest));
    }
  }

  lemma HeldFrameIsGenuine(w: World, p: nat)
    requires True(w) && p in w.pumps && w.pumps[p].holding.Some? && w.pumps[p].holding.value.todo != []
    ensures
      var h := w.pumps[p].holding.value;
      && GenuineHolding(w.self, w.sent, w.arrived, h) && GenuineFrame(w.self, w.sent, FrameTo(h.item, h.todo[0]))
      && forall t <- h.todo[1..] :: Suits(w.self, h.item, t)
  {
    var h := w.pumps[p].holding.value;
    assert h.todo[0] in h.todo;
    assert forall t <- h.todo[1..] :: t in h.todo;
  }

  lemma FinishIsTrue(w: World, p: nat, now: nat)
    requires True(w) && p in w.pumps && w.pumps[p].holding.Some?
    ensures True(PutBack(w, p, w.pumps[p].due, w.pumps[p].holding.value.item, now))
  {
    var item := w.pumps[p].holding.value.item;
    assert Genuine(w.sent, w.arrived, item);
    assert Genuine(w.sent, w.arrived, item.(nextAt := now + RESEND_INTERVAL));
    if Done(item) {
      DoneIsReached(w, item);
    }
  }

  lemma DoneIsReached(w: World, item: Item)
    requires True(w) && Genuine(w.sent, w.arrived, item) && Done(item)
    ensures Reached(w.sent, w.arrived, item.id)
  {
    if item.scope != Direct {
      var t :| t in item.delivered;
      assert (t, item.id) in w.arrived;
    }
  }

  lemma LoseIsTrue(w: World, loss: Loss)
    requires True(w)
    ensures True(GivenUp(w, loss))
  {
    var kept := Kept(w.queue, loss);
    forall i | 0 <= i < |kept|
      ensures Genuine(w.sent, w.arrived, kept[i])
    {
      assert kept[i] in kept;
    }
  }

  lemma RestartIsTrue(w: World, now: nat)
    requires True(w)
    ensures True(Restarted(w, now))
  {
    var queue := Restored(w.disk, now);
    forall i | 0 <= i < |queue|
      ensures Genuine(w.sent, w.arrived, queue[i])
    {
      assert Genuine(w.sent, w.arrived, w.disk[i]);
    }
  }

  // ----- the histories -----

  ghost predicate Distinct(ms: seq<Message>) {
    forall i, j | 0 <= i < j < |ms| :: ms[i].id != ms[j].id
  }

  /** What a history holds under the identifier of a sent message is that message. */
  ghost predicate Faithful(self: Ip, sent: Sent, m: Message) {
    m.id in sent ==>
      var item := sent[m.id];
      m.from == self && m.scope == item.scope && m.group == item.group && m.to == item.to && m.text == item.text
  }

  ghost predicate FineLog(self: Ip, sent: Sent, log: Log) {
    R.Sound(log) && Distinct(log.entries) && forall m <- log.entries :: Faithful(self, sent, m)
  }

  ghost predicate FineLogs(self: Ip, sent: Sent, logs: map<Ip, Log>) {
    forall ip :: FineLog(self, sent, LogOf(logs, ip))
  }

  /** What is sent again by hand is what was sent. */
  lemma ResendIsTrue(w: World, seqNo: nat, member: Option<string>, now: nat)
    requires True(w) && FineLogs(w.self, w.sent, w.logs)
    ensures True(TakenUp(w, seqNo, member, now))
  {
    match Position(w.queue, seqNo)
    case Some(i) => assert Genuine(w.sent, w.arrived, w.queue[i].(nextAt := now));
    case None =>
      if Again(w, seqNo).Some? {
        var m := Again(w, seqNo).value;
        assert FineLog(w.self, w.sent, LogOf(w.logs, w.self)) && Faithful(w.self, w.sent, m);
        assert Genuine(w.sent, w.arrived, ItemOf(m, member, now));
      }
  }

  lemma NextIsTrue(w: World, a: Action)
    requires True(w) && FineLogs(w.self, w.sent, w.logs)
    ensures True(Next(w, a))
  {
    match a
    case Send(item) => SendIsTrue(w, item);
    case Take(p, known) =>
      if p in w.pumps && w.pumps[p].holding.None? && w.pumps[p].due != [] {
        TakeIsTrue(w, p, known);
      }
    case Deliver(p, acked) =>
      if p in w.pumps && w.pumps[p].holding.Some? && w.pumps[p].holding.value.todo != [] {
        OfferIsTrue(w, p, acked);
      }
    case Arrive(f) =>
      if f in w.flying {
        ReceivedIsTrue(w, f);
      }
    case Finish(p, now) =>
      if p in w.pumps && w.pumps[p].holding.Some? && w.pumps[p].holding.value.todo == [] {
        FinishIsTrue(w, p, now);
      }
    case Resend(seqNo, member, now) => ResendIsTrue(w, seqNo, member, now);
    case Lose(loss) => LoseIsTrue(w, loss);
    case Restart(now) => RestartIsTrue(w, now);
    case _ => RestIsTrue(w, a);
  }

  lemma RestIsTrue(w: World, a: Action)
    requires True(w) && (a.Begin? || a.End? || a.Save? || a.Other?)
    ensures True(Next(w, a))
  {
  }

  lemma PushedIsDistinct(log: Log, m: Message)
    requires Distinct(log.entries) && !HasId(log.entries, m.id)
    ensures Distinct(Pushed(log, m).entries)
    ensures forall x <- Pushed(log, m).entries :: x in log.entries || x == m.(seqNo := log.nextSeq)
    ensures Pushed(log, m).entries != [] && Pushed(log, m).entries[|Pushed(log, m).entries| - 1].id == m.id
  {
    var x := m.(seqNo := log.nextSeq);
    var all := log.entries + [x];
    forall i | 0 <= i < |log.entries|
      ensures log.entries[i].id != x.id
    {
      assert log.entries[i] in log.entries;
    }
    assert Distinct(all);
  }

  lemma AppendIsFine(self: Ip, sent: Sent, log: Log, m: Message)
    requires FineLog(self, sent, log) && !HasId(log.entries, m.id) && Faithful(self, sent, m)
    ensures FineLog(self, sent, Appended(log, m, true)) && HasId(Appended(log, m, true).entries, m.id)
  {
    R.NextIsSound(log, R.Append(m));
    PushedIsDistinct(log, m);
    var entries := Pushed(log, m).entries;
    assert Appended(log, m, true).entries == entries;
    assert entries[|entries| - 1] in entries;
  }

  lemma {:induction false} WithoutIsDistinct(ms: seq<Message>, ip: Ip)
    requires Distinct(ms)
    ensures Distinct(WithoutDirect(ms, ip))
  {
    if ms != [] {
      var n := |ms| - 1;
      WithoutIsDistinct(ms[..n], ip);
      var kept := WithoutDirect(ms[..n], ip);
      forall i | 0 <= i < |kept|
        ensures kept[i].id != ms[n].id
      {
        assert kept[i] in ms[..n];
      }
    }
  }

  lemma {:induction false} MarkedIs(ms: seq<Message>, seqNo: nat, failed: bool)
    ensures |Marked(ms, seqNo, failed)| == |ms|
    ensures forall i | 0 <= i < |ms| :: Persisted(Marked(ms, seqNo, failed)[i]) == Persisted(ms[i])
  {
    if ms != [] {
      MarkedIs(ms[1..], seqNo, failed);
    }
  }

  lemma SameButForMarks(self: Ip, sent: Sent, ms: seq<Message>, ms': seq<Message>)
    requires |ms'| == |ms| && forall i | 0 <= i < |ms| :: Persisted(ms'[i]) == Persisted(ms[i])
    requires Distinct(ms) && forall m <- ms :: Faithful(self, sent, m)
    ensures Distinct(ms') && forall m <- ms' :: Faithful(self, sent, m)
  {
    forall i | 0 <= i < |ms'|
      ensures ms'[i].id == ms[i].id && Faithful(self, sent, ms'[i])
    {
      assert Persisted(ms'[i]) == Persisted(ms[i]) && ms[i] in ms;
    }
  }

  lemma LocalIsFine(self: Ip, sent: Sent, log: Log, a: R.Action)
    requires FineLog(self, sent, log)
    requires a.Append? ==> !HasId(log.entries, a.m.id) && a.m.id !in sent
    ensures FineLog(self, sent, R.Next(log, a))
  {
    R.NextIsSound(log, a);
    match a
    case Append(m) => AppendIsFine(self, sent, log, m);
    case SetFailed(seqNo, failed) =>
      MarkedIs(log.entries, seqNo, failed);
      SameButForMarks(self, sent, log.entries, Marked(log.entries, seqNo, failed));
    case ClearDirect(ip) => WithoutIsDistinct(log.entries, ip);
    case ClearAll =>
    case Restart =>
      var loaded := Loaded(log.file);
      assert loaded.entries == PersistedAll(log.entries);
      SameButForMarks(self, sent, log.entries, loaded.entries);
  }

  lemma OneLogChanged(self: Ip, sent: Sent, logs: map<Ip, Log>, ip: Ip, log: Log)
    requires FineLogs(self, sent, logs) && FineLog(self, sent, log)
    ensures FineLogs(self, sent, logs[ip := log])
  {
    var after := logs[ip := log];
    forall other
      ensures FineLog(self, sent, LogOf(after, other))
    {
      assert FineLog(self, sent, LogOf(logs, other));
    }
  }

  lemma ReceivedIsFine(w: World, f: Frame)
    requires FineLogs(w.self, w.sent, w.logs) && SentWell(w.self, w.sent) && GenuineFrame(w.self, w.sent, f)
    ensures Acceptable(f) && FineLogs(w.self, w.sent, Received(w, f).logs)
    ensures HasId(LogOf(Received(w, f).logs, f.target).entries, f.id)
  {
    var log := LogOf(w.logs, f.target);
    assert FineLog(w.self, w.sent, log) && Sendable(w.self, w.sent[f.id]);
    if !HasId(log.entries, f.id) {
      AppendIsFine(w.self, w.sent, log, MessageOf(f, w.self));
    }
    OneLogChanged(w.self, w.sent, w.logs, f.target, Handled(log, f, w.self));
  }

  lemma SendIsFine(w: World, item: Item)
    requires FineLogs(w.self, w.sent, w.logs) && Unused(w, item.id)
    ensures
      var sent := w.sent[item.id := item];
      FineLogs(w.self, sent, w.logs[w.self := Appended(LogOf(w.logs, w.self), OwnEntry(w.self, item), true)])
  {
    var sent := w.sent[item.id := item];
    forall ip
      ensures FineLog(w.self, sent, LogOf(w.logs, ip))
    {
      assert FineLog(w.self, w.sent, LogOf(w.logs, ip));
      UnusedInLog(w, item.id, ip);
      SentLogIsFine(w.self, w.sent, item, LogOf(w.logs, ip));
    }
    UnusedInLog(w, item.id, w.self);
    AppendIsFine(w.self, sent, LogOf(w.logs, w.self), OwnEntry(w.self, item));
    OneLogChanged(w.self, sent, w.logs, w.self, Appended(LogOf(w.logs, w.self), OwnEntry(w.self, item), true));
  }

  lemma SentLogIsFine(self: Ip, sent: Sent, item: Item, log: Log)
    requires FineLog(self, sent, log) && !HasId(log.entries, item.id)
    ensures FineLog(self, sent[item.id := item], log)
  {
  }

  lemma UnusedInLog(w: World, id: string, ip: Ip)
    requires Unused(w, id)
    ensures !HasId(LogOf(w.logs, ip).entries, id)
  {
  }

  lemma OtherIsFine(w: World, ip: Ip, local: R.Action)
    requires FineLogs(w.self, w.sent, w.logs) && (local.Append? ==> Unused(w, local.m.id))
    ensures FineLogs(w.self, w.sent, w.logs[ip := R.Next(LogOf(w.logs, ip), local)])
  {
    var log := LogOf(w.logs, ip);
    assert FineLog(w.self, w.sent, log);
    if local.Append? {
      UnusedInLog(w, local.m.id, ip);
    }
    LocalIsFine(w.self, w.sent, log, local);
    OneLogChanged(w.self, w.sent, w.logs, ip, R.Next(log, local));
  }

  lemma OfferIsFine(w: World, p: nat, acked: bool)
    requires True(w) && FineLogs(w.self, w.sent, w.logs)
    requires p in w.pumps && w.pumps[p].holding.Some? && w.pumps[p].holding.value.todo != []
    ensures
      var w' := Offer(w, p, w.pumps[p].due, w.pumps[p].holding.value, acked);
      w'.self == w.self && w'.sent == w.sent && FineLogs(w.self, w.sent, w'.logs)
    ensures
      var h := w.pumps[p].holding.value;
      acked && h.todo[0] !in h.item.delivered ==>
        HasId(LogOf(Offer(w, p, w.pumps[p].due, h, acked).logs, h.todo[0]).entries, h.item.id)
  {
    HeldFrameIsGenuine(w, p);
    ReceivedIsFine(w, FrameTo(w.pumps[p].holding.value.item, w.pumps[p].holding.value.todo[0]));
  }

  lemma NextIsFine(w: World, a: Action)
    requires True(w) && FineLogs(w.self, w.sent, w.logs)
    ensures
      var w' := Next(w, a);
      FineLogs(w'.self, w'.sent, w'.logs)
  {
    match a
    case Send(item) =>
      if Sendable(w.self, item) && Unused(w, item.id) {
        SendIsFine(w, item);
      }
    case Arrive(f) =>
      if f in w.flying {
        ReceivedIsFine(w, f);
      }
    case Deliver(p, acked) =>
      if p in w.pumps && w.pumps[p].holding.Some? && w.pumps[p].holding.value.todo != [] {
        OfferIsFine(w, p, acked);
      }
    case Other(ip, local) =>
      if !local.Append? || Unused(w, local.m.id) {
        OtherIsFine(w, ip, local);
      }
    case _ =>
      PumpsLeaveLogs(w, a);
      QueueLeavesLogs(w, a);
  }

  ghost predicate SameLogs(w: World, w': World) {
    w'.self == w.self && w'.sent == w.sent && w'.logs == w.logs
  }

  lemma PumpsLeaveLogs(w: World, a: Action)
    ensures a.Begin? || a.Take? || a.Finish? || a.End? ==> SameLogs(w, Next(w, a))
  {
  }

  lemma QueueLeavesLogs(w: World, a: Action)
    ensures a.Resend? || a.Lose? || a.Save? || a.Restart? ==> SameLogs(w, Next(w, a))
  {
  }

  lemma {:induction false} RunIsTrueAndFine(self: Ip, actions: seq<Action>)
    ensures
      var w := Run(self, actions);
      True(w) && FineLogs(w.self, w.sent, w.logs)
  {
    if actions != [] {
      var before := actions[..|actions| - 1];
      RunIsTrueAndFine(self, before);
      NextIsTrue(Run(self, before), actions[|actions| - 1]);
      NextIsFine(Run(self, before), actions[|actions| - 1]);
    }
  }

  /** A one-to-one message counts as delivered only when its partner has taken it in, any other only when somebody has. */
  lemma FinishedMeansArrived(self: Ip, actions: seq<Action>, id: string)
    requires id in Run(self, actions).finished
    ensures
      var w := Run(self, actions);
      && id in w.sent
      && if w.sent[id].scope == Direct then w.sent[id].to.Some? && (w.sent[id].to.value, id) in w.arrived
         else exists t :: (t, id) in w.arrived
  {
    RunIsTrueAndFine(self, actions);
    assert Reached(Run(self, actions).sent, Run(self, actions).arrived, id);
  }

  /** And nobody but its partner ever gets a one-to-one message. */
  lemma OnlyThePartnerGetsIt(self: Ip, actions: seq<Action>, t: Ip, id: string)
    requires (t, id) in Run(self, actions).arrived
    ensures
      var w := Run(self, actions);
      id in w.sent && (w.sent[id].scope == Direct ==> w.sent[id].to == Some(t))
  {
    RunIsTrueAndFine(self, actions);
    assert Suits(Run(self, actions).self, Run(self, actions).sent[(t, id).1], (t, id).0);
  }

  /**
    However often a message is sent again, by a pump, by hand or after a crash, arrives late or is
    acknowledged in vain, no history ever shows it twice; what it shows is what was sent; and a
    restart of the receiver changes none of it.
  */
  lemma NothingTwice(self: Ip, actions: seq<Action>, ip: Ip)
    ensures
      var w := Run(self, actions);
      var log := LogOf(w.logs, ip);
      Distinct(log.entries) && R.Sound(log) && forall m <- log.entries :: Faithful(w.self, w.sent, m)
  {
    RunIsTrueAndFine(self, actions);
    var w := Run(self, actions);
    assert FineLog(w.self, w.sent, LogOf(w.logs, ip));
  }

  /** An acknowledged frame is in the receiver's history at that moment. */
  lemma AcknowledgedIsLogged(self: Ip, actions: seq<Action>, p: nat)
    requires
      var w := Run(self, actions);
      p in w.pumps && w.pumps[p].holding.Some? && w.pumps[p].holding.value.todo != []
      && w.pumps[p].holding.value.todo[0] !in w.pumps[p].holding.value.item.delivered
    ensures
      var w := Run(self, actions);
      var h := w.pumps[p].holding.value;
      HasId(LogOf(Next(w, Deliver(p, true)).logs, h.todo[0]).entries, h.item.id)
  {
    RunIsTrueAndFine(self, actions);
    OfferIsFine(Run(self, actions), p, true);
    DeliverIsOffer(Run(self, actions), p);
  }

  lemma DeliverIsOffer(w: World, p: nat)
    requires p in w.pumps && w.pumps[p].holding.Some? && w.pumps[p].holding.value.todo != []
    ensures Next(w, Deliver(p, true)) == Offer(w, p, w.pumps[p].due, w.pumps[p].holding.value, true)
  {
  }
}
