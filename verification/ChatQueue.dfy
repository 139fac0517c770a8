/**
  Messages waiting to be delivered (crates/peercove-cli/src/daemon.rs, 661-850 and 2359-2503) and what
  a receiver does with one (crates/peercove-cli/src/msg.rs, 306-349).
*/
module ChatQueues {
  import opened Options
  import opened ChatHistory

  // Times are in nanoseconds.
  const RESEND_INTERVAL: nat := 10_000_000_000
  const MAX_TEXT_BYTES: nat := 8_192

  datatype Item = Item(
    seqNo: nat,
    id: string,
    scope: Scope,
    to: Option<Ip>,
    toMember: Option<string>,
    group: Option<string>,
    text: seq<Byte>,
    delivered: set<Ip>,
    nextAt: nat)

  /** What goes over the wire to one address. */
  datatype Frame = Frame(target: Ip, id: string, scope: Scope, group: Option<string>, text: seq<Byte>)

  // ----- where a message goes -----

  datatype Line = Line(ip: Ip, online: bool, member: Option<string>)

  /** What the sender knows at the moment: the ledger, if it has come yet, and its groups. */
  datatype Known = Known(ledger: Option<seq<Line>>, groups: map<string, set<Ip>>)

  function Listed(known: Known): seq<Line> {
    if known.ledger.Some? then known.ledger.value else []
  }

  function FindLine(ledger: seq<Line>, ip: Ip): (r: Option<Line>)
    ensures r.None? <==> forall e <- ledger :: e.ip != ip
    ensures r.Some? ==> r.value in ledger && r.value.ip == ip
  {
    if ledger == [] then None else if ledger[0].ip == ip then Some(ledger[0]) else FindLine(ledger[1..], ip)
  }

  function DirectTarget(to: Option<Ip>, expected: Option<string>, ledger: Option<seq<Line>>): Option<Ip> {
    if to.None? || expected.None? || ledger.None? then to
    else
      match FindLine(ledger.value, to.value)
      case None => None
      case Some(line) => if line.member.Some? && line.member != expected then None else to
  }

  function Addresses(ledger: seq<Line>, self: Ip, within: Option<set<Ip>>): (r: seq<Ip>)
    ensures forall ip :: ip in r <==>
      exists e <- ledger :: e.ip == ip && ip != self && e.online && (within.Some? ==> ip in within.value)
  {
    if ledger == [] then []
    else
      (if ledger[0].ip != self && ledger[0].online && (within.Some? ==> ledger[0].ip in within.value) then [ledger[0].ip] else [])
      + Addresses(ledger[1..], self, within)
  }

  function Targets(self: Ip, item: Item, known: Known): seq<Ip> {
    match item.scope
    case Direct =>
      var target := DirectTarget(item.to, item.toMember, known.ledger);
      if target.Some? then [target.value] else []
    case Network => Addresses(Listed(known), self, None)
    case Group =>
      if item.group.None? || item.group.value !in known.groups then []
      else
        var members := known.groups[item.group.value];
        if self !in members then [] else Addresses(Listed(known), self, Some(members))
  }

  /** A one-to-one message goes to its address unless the ledger shows that somebody else sits there now, or nobody. */
  lemma DirectGoesOutIff(self: Ip, item: Item, known: Known)
    requires item.scope == Direct && item.to.Some?
    ensures Targets(self, item, known) == [item.to.value] || Targets(self, item, known) == []
    ensures Targets(self, item, known) == [] <==>
      && item.toMember.Some? && known.ledger.Some?
      && var line := FindLine(known.ledger.value, item.to.value);
         line.None? || (line.value.member.Some? && line.value.member != item.toMember)
  {
  }

  /** Any other message goes to the other members that are online: all of them, or those of a group one belongs to. */
  lemma OthersGetIt(self: Ip, item: Item, known: Known, ip: Ip)
    requires item.scope != Direct
    ensures ip in Targets(self, item, known) <==>
      && ip != self && (exists e <- Listed(known) :: e.ip == ip && e.online)
      && (item.scope == Group ==>
            && item.group.Some? && item.group.value in known.groups
            && self in known.groups[item.group.value] && ip in known.groups[item.group.value])
  {
  }

  // ----- the queue -----

  function DueAt(items: seq<Item>, now: nat): seq<nat> {
    if items == [] then []
    else
      var last := items[|items| - 1];
      DueAt(items[..|items| - 1], now) + if last.nextAt <= now then [last.seqNo] else []
  }

  /** Due are exactly the numbers of the items whose time has come. */
  lemma {:induction false} DueIff(items: seq<Item>, now: nat, seqNo: nat)
    ensures seqNo in DueAt(items, now) <==> exists i :: 0 <= i < |items| && items[i].seqNo == seqNo && now >= items[i].nextAt
  {
    if items != [] {
      DueIff(items[..|items| - 1], now, seqNo);
    }
  }

  function Position(items: seq<Item>, seqNo: nat): (r: Option<nat>)
    ensures r.Some? ==> r.value < |items| && items[r.value].seqNo == seqNo
    ensures r.None? <==> forall x <- items :: x.seqNo != seqNo
  {
    if items == [] then None
    else if items[0].seqNo == seqNo then Some(0)
    else match Position(items[1..], seqNo) case Some(i) => Some(i + 1) case None => None
  }

  function Without(items: seq<Item>, i: nat): (r: seq<Item>)
    requires i < |items|
    ensures |r| == |items| - 1 && forall k | 0 <= k < |r| :: r[k] == items[if k < i then k else k + 1]
  {
    items[..i] + items[i + 1..]
  }

  /** Why messages are taken out undelivered: their user calls one back, clears the history, or members are gone. */
  datatype Loss = Cancelled(seqNo: nat) | Cleared | Departed(stale: set<Ip>)

  predicate Lost(loss: Loss, item: Item) {
    match loss
    case Cancelled(seqNo) => item.seqNo == seqNo
    case Cleared => true
    case Departed(stale) => item.scope == Direct && item.to.Some? && item.to.value in stale
  }

  function Kept(items: seq<Item>, loss: Loss): (r: seq<Item>)
    ensures forall x :: x in r <==> x in items && !Lost(loss, x)
  {
    if items == [] then []
    else
      var last := items[|items| - 1];
      assert items == items[..|items| - 1] + [last];
      Kept(items[..|items| - 1], loss) + if Lost(loss, last) then [] else [last]
  }

  /** What a restart finds is due at once. */
  function Restored(disk: seq<Item>, now: nat): (r: seq<Item>)
    ensures |r| == |disk| && forall i | 0 <= i < |disk| :: r[i] == disk[i].(nextAt := now)
  {
    seq(|disk|, i requires 0 <= i < |disk| => disk[i].(nextAt := now))
  }

  /** A one-to-one message is done when its partner has it, any other when anybody has. */
  predicate Done(item: Item) {
    if item.scope == Direct then item.to.Some? && item.to.value in item.delivered else item.delivered != {}
  }

  /** The queue that all pumps share; each method is one hold of its lock. */
  class ChatQueue {
    var items: seq<Item>

    constructor (items: seq<Item>)
      ensures this.items == items
    {
      this.items := items;
    }

    method Due(now: nat) returns (due: seq<nat>)
      ensures due == DueAt(items, now)
    {
      due := [];
      for i := 0 to |items|
        invariant due == DueAt(items[..i], now)
      {
        assert items[..i + 1][..i] == items[..i];
        if items[i].nextAt <= now {
          due := due + [items[i].seqNo];
        }
      }
      assert items[..|items|] == items;
    }

    method Take(seqNo: nat) returns (item: Option<Item>)
      modifies this
      ensures
        var at := Position(old(items), seqNo);
        && item == (if at.Some? then Some(old(items)[at.value]) else None)
        && items == (if at.Some? then Without(old(items), at.value) else old(items))
    {
      for i := 0 to |items|
        invariant items == old(items) && forall k | 0 <= k < i :: items[k].seqNo != seqNo
      {
        if items[i].seqNo == seqNo {
          PositionIs(items, seqNo, i);
          item := Some(items[i]);
          items := items[..i] + items[i + 1..];
          return;
        }
      }
      item := None;
    }

    method Push(item: Item)
      modifies this
      ensures items == old(items) + [item]
    {
      items := items + [item];
    }

    /** The end of a pump's work on an item: it is done, or waits for its next turn. */
    method PutBack(item: Item, now: nat) returns (done: bool)
      modifies this
      ensures done == Done(item)
      ensures items == if done then old(items) else old(items) + [item.(nextAt := now + RESEND_INTERVAL)]
    {
      done := if item.scope == Direct then item.to.Some? && item.to.value in item.delivered else item.delivered != {};
      if !done {
        Push(item.(nextAt := now + RESEND_INTERVAL));
      }
    }

    /** An item that is still there is made due at once. */
    method Requeue(seqNo: nat, now: nat) returns (requeued: bool)
      modifies this
      ensures
        var at := Position(old(items), seqNo);
        && requeued == at.Some?
        && items == (if requeued then old(items)[at.value := old(items)[at.value].(nextAt := now)] else old(items))
    {
      for i := 0 to |items|
        invariant items == old(items) && forall k | 0 <= k < i :: items[k].seqNo != seqNo
      {
        if items[i].seqNo == seqNo {
          PositionIs(items, seqNo, i);
          items := items[i := items[i].(nextAt := now)];
          return true;
        }
      }
      return false;
    }

    method Lose(loss: Loss)
      modifies this
      ensures items == Kept(old(items), loss)
      ensures loss.Cancelled? ==> forall x :: x in items <==> x in old(items) && x.seqNo != loss.seqNo
      ensures loss.Cleared? ==> items == []
      ensures loss.Departed? ==>
        forall x :: x in items <==> x in old(items) && !(x.scope == Direct && x.to.Some? && x.to.value in loss.stale)
    {
      var kept: seq<Item> := [];
      for i := 0 to |items|
        invariant items == old(items) && kept == Kept(items[..i], loss)
      {
        assert items[..i + 1][..i] == items[..i];
        if !Lost(loss, items[i]) {
          kept := kept + [items[i]];
        }
      }
      assert items[..|items|] == items;
      assert kept != [] ==> kept[0] in kept;
      items := kept;
    }
  }

  lemma {:induction false} PositionIs(items: seq<Item>, seqNo: nat, i: nat)
    requires i < |items| && items[i].seqNo == seqNo && forall k | 0 <= k < i :: items[k].seqNo != seqNo
    ensures Position(items, seqNo) == Some(i)
  {
    if i > 0 {
      PositionIs(items[1..], seqNo, i - 1);
    }
  }

  // ----- sending again by hand -----

  function FindEntry(ms: seq<Message>, seqNo: nat): (r: Option<Message>)
    ensures r.Some? ==> r.value in ms && r.value.seqNo == seqNo
  {
    if ms == [] then None else if ms[0].seqNo == seqNo then Some(ms[0]) else FindEntry(ms[1..], seqNo)
  }

  /** The message of an entry of one's own history, with nobody served yet. */
  function ItemOf(m: Message, member: Option<string>, now: nat): Item {
    Item(m.seqNo, m.id, m.scope, m.to, member, m.group, m.text, {}, now)
  }

  // ----- the receiver -----

  predicate HasId(ms: seq<Message>, id: string) {
    exists m <- ms :: m.id == id
  }

  predicate Acceptable(f: Frame) {
    |f.text| <= MAX_TEXT_BYTES && (f.scope == Group ==> f.group.Some?)
  }

  function MessageOf(f: Frame, from: Ip): Message {
    Message(0, f.id, f.scope, f.group, from, if f.scope == Direct then Some(f.target) else None, f.text, false)
  }

  /** A message that is already there is not taken in again. */
  function Handled(log: Log, f: Frame, from: Ip): Log {
    if HasId(log.entries, f.id) then log else Appended(log, MessageOf(f, from), true)
  }

  /** The answer is an acknowledgement in both cases; only what breaks the rules is not acknowledged. */
  method HandleChat(log: ChatLog, f: Frame, from: Ip) returns (acked: bool)
    modifies log
    ensures acked == Acceptable(f)
    ensures acked <==> |f.text| <= 8_192 && (f.scope == Group ==> f.group.Some?)
    ensures log.View() == if acked then Handled(old(log.View()), f, from) else old(log.View())
  {
    if |f.text| > MAX_TEXT_BYTES || (f.scope == Group && f.group.None?) {
      return false;
    }
    var known := log.ContainsId(f.id);
    if !known {
      var stored := log.Append(MessageOf(f, from), true);
    }
    return true;
  }
}
