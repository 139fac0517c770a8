/**
  Chat groups of one device (crates/peercove-cli/src/groups.rs) and the commands that edit them
  (crates/peercove-cli/src/daemon.rs). A group is replaced as a whole; the latest revision wins, and
  between equal revisions the higher author address.
*/
module Groups {
  import opened Options
  import opened Texts

  type Ip = nat

  const MAX_GROUP_MEMBERS := 250
  const MAX_GROUP_NAME_BYTES := 256

  datatype GroupInfo = GroupInfo(
    id: string,
    name: string,
    members: seq<Ip>,
    revision: nat,
    updatedBy: Ip)

  type Known = map<string, GroupInfo>

  // ----- specification -----

  predicate Newer(g: GroupInfo, than: GroupInfo) {
    g.revision > than.revision || (g.revision == than.revision && g.updatedBy > than.updatedBy)
  }

  predicate Wins(known: Known, g: GroupInfo) {
    g.id in known ==> Newer(g, known[g.id])
  }

  function Merge(known: Known, g: GroupInfo): Known {
    if Wins(known, g) then known[g.id := g] else known
  }

  ghost predicate WellKeyed(known: Known) {
    forall id <- known :: known[id].id == id
  }

  /** Other frames are turned away before anything is looked at. */
  predicate WellFormed(g: GroupInfo) {
    g.id != "" && g.name != "" && Utf8Length(g.name) <= MAX_GROUP_NAME_BYTES && |g.members| <= MAX_GROUP_MEMBERS
  }

  /** Only a current member may change a known group, and only a member may introduce one. */
  predicate MayUpdate(known: Known, g: GroupInfo, sender: Ip) {
    if g.id in known then sender in known[g.id].members else sender in g.members
  }

  function Acked(acked: map<(string, Ip), nat>, id: string, peer: Ip): nat {
    if (id, peer) in acked then acked[(id, peer)] else 0
  }

  function Marked(acked: map<(string, Ip), nat>, id: string, peer: Ip, revision: nat): map<(string, Ip), nat> {
    var before := Acked(acked, id, peer);
    acked[(id, peer) := if revision > before then revision else before]
  }

  /** Who should hold `g` besides its author's device: the members, and the host of the network. */
  predicate Target(g: GroupInfo, self: Ip, host: Option<Ip>, peer: Ip) {
    self in g.members && peer != self && (peer in g.members || host == Some(peer))
  }

  predicate Recent(attempts: map<(string, Ip), nat>, id: string, peer: Ip, now: nat, retryAfter: nat) {
    (id, peer) in attempts && now < attempts[(id, peer)] + retryAfter
  }

  /** `peer` should be sent `g` now. */
  predicate Due(
    acked: map<(string, Ip), nat>, attempts: map<(string, Ip), nat>,
    g: GroupInfo, peer: Ip, self: Ip, online: set<Ip>, now: nat, retryAfter: nat, host: Option<Ip>)
  {
    && Target(g, self, host, peer) && peer in online
    && Acked(acked, g.id, peer) < g.revision
    && !Recent(attempts, g.id, peer, now, retryAfter)
  }

  /**
    In plain terms: the device is a member, the peer another one, or the host, and online; it has not
    acknowledged this revision; and it was never tried, or not within `retryAfter`.
  */
  lemma DueIff(
    acked: map<(string, Ip), nat>, attempts: map<(string, Ip), nat>,
    g: GroupInfo, peer: Ip, self: Ip, online: set<Ip>, now: nat, retryAfter: nat, host: Option<Ip>)
    requires g.revision >= 1
    ensures Due(acked, attempts, g, peer, self, online, now, retryAfter, host) <==>
      && self in g.members && peer != self && (peer in g.members || host == Some(peer)) && peer in online
      && ((g.id, peer) in acked ==> acked[(g.id, peer)] < g.revision)
      && ((g.id, peer) in attempts ==> attempts[(g.id, peer)] + retryAfter <= now)
  {
  }

  /** A peer that was sent the group and did not answer is tried again exactly when `retryAfter` has passed. */
  lemma TriedAgainIff(
    acked: map<(string, Ip), nat>, attempts: map<(string, Ip), nat>,
    g: GroupInfo, peer: Ip, self: Ip, online: set<Ip>, at: nat, now: nat, retryAfter: nat, host: Option<Ip>)
    requires Due(acked, attempts, g, peer, self, online, at, retryAfter, host)
    ensures Due(acked, attempts[(g.id, peer) := at], g, peer, self, online, now, retryAfter, host) <==> now >= at + retryAfter
  {
  }

  function Without(members: seq<Ip>, gone: seq<Ip>): (r: seq<Ip>)
    ensures forall ip :: ip in r <==> ip in members && ip !in gone
    ensures |r| <= |members|
  {
    if members == [] then []
    else if members[0] in gone then Without(members[1..], gone)
    else [members[0]] + Without(members[1..], gone)
  }

  predicate Affected(g: GroupInfo, departed: seq<Ip>, self: Ip) {
    self in g.members && exists ip <- g.members :: ip in departed
  }

  function Pruned(g: GroupInfo, departed: seq<Ip>, self: Ip): GroupInfo {
    g.(members := Without(g.members, departed), revision := g.revision + 1, updatedBy := self)
  }

  /** A member's next version of a group it knows: any new name and members, one revision up. */
  predicate Succeeds(known: Known, n: Ip, g: GroupInfo) {
    && g.id in known && n in known[g.id].members
    && g.revision == known[g.id].revision + 1 && g.updatedBy == n
  }

  /** Members who take the same people out of the same version make the same group, but for the author. */
  lemma PruningAgrees(known: Known, departed: seq<Ip>, alsoDeparted: seq<Ip>, g: GroupInfo, n: Ip, m: Ip)
    requires g.id in known && known[g.id] == g && Affected(g, departed, n) && Affected(g, alsoDeparted, m)
    requires forall ip <- g.members :: ip in departed <==> ip in alsoDeparted
    ensures Succeeds(known, n, Pruned(g, departed, n)) && Succeeds(known, m, Pruned(g, alsoDeparted, m))
    ensures Pruned(g, departed, n).(updatedBy := m) == Pruned(g, alsoDeparted, m)
  {
    WithoutSame(g.members, departed, alsoDeparted);
  }

  lemma {:induction false} WithoutSame(members: seq<Ip>, gone: seq<Ip>, alsoGone: seq<Ip>)
    requires forall ip <- members :: ip in gone <==> ip in alsoGone
    ensures Without(members, gone) == Without(members, alsoGone)
  {
    if members != [] {
      WithoutSame(members[1..], gone, alsoGone);
    }
  }

  /** Of several entries with one identifier the last counts. */
  function Listed(list: seq<GroupInfo>): (r: Known)
    ensures WellKeyed(r)
    ensures forall id :: id in r <==> exists g <- list :: g.id == id
    ensures forall g <- r.Values :: g in list
  {
    if list == [] then map[]
    else
      var last := list[|list| - 1];
      assert list == list[..|list| - 1] + [last];
      Listed(list[..|list| - 1])[last.id := last]
  }

  /** Whatever order the groups were written down in, they are read back. */
  lemma LoadsWhatWasSaved(known: Known, list: seq<GroupInfo>)
    requires WellKeyed(known) && forall g :: g in list <==> g.id in known && known[g.id] == g
    ensures Listed(list) == known
  {
    var r := Listed(list);
    forall id
      ensures id in r <==> id in known
      ensures id in r ==> r[id] == known[id]
    {
      if id in known {
        assert known[id] in list;
      }
      if id in r {
        assert r[id] in r.Values;
      }
    }
    assert r.Keys == known.Keys;
  }

  // ----- the store -----

  class GroupStore {
    var groups: Known
    var acked: map<(string, Ip), nat>
    var lastAttempt: map<(string, Ip), nat>

    ghost predicate Valid()
      reads this
    {
      WellKeyed(groups)
    }

    /**
      `saved` is None if the file is missing or cannot be read. Acknowledgements live in memory only,
      so a restart starts them afresh.
    */
    constructor Load(saved: Option<seq<GroupInfo>>)
      ensures Valid() && groups == (if saved.Some? then Listed(saved.value) else map[])
      ensures acked == map[] && lastAttempt == map[]
    {
      groups, acked, lastAttempt := if saved.Some? then Listed(saved.value) else map[], map[], map[];
    }

    function AcceptsUpdate(g: GroupInfo, sender: Ip): bool
      reads this
    {
      MayUpdate(groups, g, sender)
    }

    /** Takes `g` in if it is newer; the answer is what it replaced. */
    method Apply(g: GroupInfo) returns (applied: Option<Option<GroupInfo>>)
      requires Valid()
      modifies this`groups
      ensures Valid() && groups == Merge(old(groups), g)
      ensures g.id in groups && !Newer(g, groups[g.id])
      ensures applied == if Wins(old(groups), g) then Some(Lookup(old(groups), g.id)) else None
      ensures applied.None? ==> groups == old(groups)
    {
      if g.id in groups {
        var current := groups[g.id];
        if !(g.revision > current.revision || (g.revision == current.revision && g.updatedBy > current.updatedBy)) {
          return None;
        }
      }
      applied := Some(Lookup(groups, g.id));
      groups := groups[g.id := g];
    }

    method MarkAcked(id: string, peer: Ip, revision: nat)
      modifies this`acked
      ensures acked == Marked(old(acked), id, peer, revision)
      ensures Acked(acked, id, peer) >= revision && Acked(acked, id, peer) >= Acked(old(acked), id, peer)
    {
      if (id, peer) !in acked {
        acked := acked[(id, peer) := 0];
      }
      if revision > acked[(id, peer)] {
        acked := acked[(id, peer) := revision];
      }
    }

    /** Exactly the groups that are due, each noted as attempted just now. */
    method PendingSync(self: Ip, online: set<Ip>, now: nat, retryAfter: nat, host: Option<Ip>)
      returns (out: seq<(Ip, GroupInfo)>)
      requires Valid()
      modifies this`lastAttempt
      ensures Valid()
      ensures forall peer: Ip, g: GroupInfo ::
        (peer, g) in out <==> g.id in groups && groups[g.id] == g && Due(acked, old(lastAttempt), g, peer, self, online, now, retryAfter, host)
      ensures forall id: string, peer: Ip ::
        Lookup(lastAttempt, (id, peer)) ==
        if id in groups && (peer, groups[id]) in out then Some(now) else Lookup(old(lastAttempt), (id, peer))
    {
      out := [];
      var todo := groups.Keys;
      while todo != {}
        invariant todo <= groups.Keys
        invariant forall peer: Ip, g: GroupInfo ::
          (peer, g) in out <==>
            g.id in groups && groups[g.id] == g && g.id !in todo && Due(acked, lastAttempt, g, peer, self, online, now, retryAfter, host)
        invariant lastAttempt == old(lastAttempt)
        decreases todo
      {
        var id :| id in todo;
        todo := todo - {id};
        var more := DueTo(groups[id], self, online, now, retryAfter, host);
        out := out + more;
      }
      for i := 0 to |out|
        invariant forall id: string, peer: Ip ::
          Lookup(lastAttempt, (id, peer)) ==
          if id in groups && (peer, groups[id]) in out[..i] then Some(now) else Lookup(old(lastAttempt), (id, peer))
      {
        var (peer, g) := out[i];
        lastAttempt := lastAttempt[(g.id, peer) := now];
        assert out[..i + 1] == out[..i] + [out[i]];
      }
      assert out[..|out|] == out;
    }

    method DueTo(g: GroupInfo, self: Ip, online: set<Ip>, now: nat, retryAfter: nat, host: Option<Ip>)
      returns (out: seq<(Ip, GroupInfo)>)
      ensures forall peer: Ip, h: GroupInfo :: (peer, h) in out <==> h == g && Due(acked, lastAttempt, g, peer, self, online, now, retryAfter, host)
    {
      out := [];
      if self !in g.members {
        return;
      }
      var targets := Without(g.members, [self]);
      if host.Some? && host.value != self && host.value !in targets {
        targets := targets + [host.value];
      }
      for i := 0 to |targets|
        invariant forall peer: Ip, h: GroupInfo ::
          (peer, h) in out <==> h == g && peer in targets[..i] && Due(acked, lastAttempt, g, peer, self, online, now, retryAfter, host)
      {
        var peer := targets[i];
        assert targets[..i + 1] == targets[..i] + [peer];
        if peer in online && Acked(acked, g.id, peer) < g.revision && !Recent(lastAttempt, g.id, peer, now, retryAfter) {
          out := out + [(peer, g)];
        }
      }
      assert targets[..|targets|] == targets;
    }

    /** The updates that take the departed out of every group this device belongs to. */
    method PruneDeparted(departed: seq<Ip>, self: Ip) returns (out: seq<GroupInfo>)
      requires Valid()
      ensures forall g :: g in out <==> g.id in groups && Affected(groups[g.id], departed, self) && g == Pruned(groups[g.id], departed, self)
      ensures forall g <- out ::
        && g.revision == groups[g.id].revision + 1 && g.updatedBy == self && g.name == groups[g.id].name
        && forall ip :: ip in g.members <==> ip in groups[g.id].members && ip !in departed
      ensures forall id <- groups | self in groups[id].members && exists ip <- departed :: ip in groups[id].members ::
        exists g <- out :: g.id == id
    {
      out := [];
      if departed == [] {
        return;
      }
      var todo := groups.Keys;
      while todo != {}
        invariant todo <= groups.Keys
        invariant forall g :: g in out <==>
          g.id in groups && g.id !in todo && Affected(groups[g.id], departed, self) && g == Pruned(groups[g.id], departed, self)
        decreases todo
      {
        var id :| id in todo;
        todo := todo - {id};
        if Affected(groups[id], departed, self) {
          out := out + [Pruned(groups[id], departed, self)];
        }
      }
      forall id <- groups | self in groups[id].members && exists ip <- departed :: ip in groups[id].members
        ensures exists g <- out :: g.id == id
      {
        assert Pruned(groups[id], departed, self) in out;
      }
    }
  }

  // ----- the commands of the device's own user -----

  ghost predicate Distinct(ips: seq<Ip>) {
    forall i, j | 0 <= i < j < |ips| :: ips[i] != ips[j]
  }

  /** The newcomers behind the members, each once, in the order they are named. */
  function Added(members: seq<Ip>, add: seq<Ip>): (r: seq<Ip>)
    ensures members <= r
    ensures forall ip :: ip in r <==> ip in members || ip in add
    ensures Distinct(members) ==> Distinct(r)
  {
    if add == [] then members
    else
      var r := Added(members, add[..|add| - 1]);
      assert add == add[..|add| - 1] + [add[|add| - 1]];
      if add[|add| - 1] in r then r else r + [add[|add| - 1]]
  }

  /** What the device knows about one member of the network. */
  datatype Seat = Seat(ip: Ip, online: bool, isHost: bool)

  predicate Seated(ledger: seq<Seat>, ip: Ip) {
    exists seat <- ledger :: seat.ip == ip
  }

  predicate Reachable(ledger: seq<Seat>, ip: Ip) {
    exists seat <- ledger :: seat.ip == ip && seat.online
  }

  /** The device itself, its ledger, and whether it is a member rather than the host. */
  datatype Place = Place(self: Ip, ledger: seq<Seat>, isMember: bool)

  function FirstHost(ledger: seq<Seat>): Option<Ip> {
    if ledger == [] then None else if ledger[0].isHost then Some(ledger[0].ip) else FirstHost(ledger[1..])
  }

  lemma {:induction false} FirstHostIs(ledger: seq<Seat>)
    ensures forall i | 0 <= i < |ledger| && ledger[i].isHost && (forall m | 0 <= m < i :: !ledger[m].isHost) ::
      FirstHost(ledger) == Some(ledger[i].ip)
  {
    if ledger != [] {
      FirstHostIs(ledger[1..]);
      forall i | 0 < i < |ledger| && ledger[i].isHost && (forall m | 0 <= m < i :: !ledger[m].isHost)
        ensures FirstHost(ledger) == Some(ledger[i].ip)
      {
        assert ledger[1..][i - 1] == ledger[i];
      }
    }
  }

  function HostOf(place: Place): Option<Ip> {
    if place.isMember then FirstHost(place.ledger) else None
  }

  /** A command's update goes to those concerned and the host of the network, as far as they are online. */
  ghost predicate Reaches(place: Place, concerned: seq<Ip>, to: seq<Ip>) {
    forall ip :: ip in to <==>
      ip != place.self && Reachable(place.ledger, ip) && (ip in concerned || HostOf(place) == Some(ip))
  }

  method Propagate(place: Place, concerned: seq<Ip>) returns (to: seq<Ip>)
    ensures Reaches(place, concerned, to)
    ensures !place.isMember ==> forall ip <- to :: ip in concerned
    ensures forall i | 0 <= i < |place.ledger| && place.isMember && place.ledger[i].isHost && place.ledger[i].online
        && place.ledger[i].ip != place.self && (forall m | 0 <= m < i :: !place.ledger[m].isHost) ::
      place.ledger[i].ip in to
  {
    FirstHostIs(place.ledger);
    var recipients := concerned;
    var host := HostOf(place);
    if host.Some? && host.value !in recipients {
      recipients := recipients + [host.value];
    }
    to := [];
    for i := 0 to |place.ledger|
      invariant forall ip :: ip in to <==> ip != place.self && ip in recipients && Reachable(place.ledger[..i], ip)
    {
      var seat := place.ledger[i];
      assert place.ledger[..i + 1] == place.ledger[..i] + [seat];
      if seat.ip == place.self || !seat.online || seat.ip !in recipients {
        continue;
      }
      to := to + [seat.ip];
    }
    assert place.ledger[..|place.ledger|] == place.ledger;
  }

  /** What is left of a name between white space, unless it is empty or too long. */
  function ValidGroupName(name: string): (r: Option<string>)
    ensures r.None? <==> (forall c <- name :: IsSpace(c)) || Utf8Length(Trim(name)) > MAX_GROUP_NAME_BYTES
    ensures r.Some? ==> r.value == Trim(name) && r.value != "" && Utf8Length(r.value) <= MAX_GROUP_NAME_BYTES
  {
    var trimmed := Trim(name);
    if trimmed == "" || Utf8Length(trimmed) > MAX_GROUP_NAME_BYTES then None else Some(trimmed)
  }

  /** None if somebody new is no member of the network. */
  method AddMembers(members: seq<Ip>, add: seq<Ip>, ledger: seq<Seat>) returns (r: Option<seq<Ip>>)
    ensures r == if exists ip <- add :: ip !in members && !Seated(ledger, ip) then None else Some(Added(members, add))
  {
    var all := members;
    for i := 0 to |add|
      invariant all == Added(members, add[..i])
      invariant forall ip <- add[..i] :: ip in members || Seated(ledger, ip)
    {
      var ip := add[i];
      assert add[..i + 1][..i] == add[..i];
      if ip in all {
        continue;
      }
      if !Seated(ledger, ip) {
        return None;
      }
      all := all + [ip];
    }
    assert add[..|add|] == add;
    return Some(all);
  }

  /** Founds a group with everyone named, the founder first. */
  method GroupCreate(store: GroupStore, place: Place, newId: string, name: string, members: seq<Ip>)
    returns (r: Option<GroupInfo>, to: seq<Ip>)
    requires store.Valid() && newId !in store.groups
    modifies store`groups
    ensures store.Valid()
    ensures r.None? <==>
      || ValidGroupName(name).None?
      || (exists ip <- members :: ip !in [place.self] && !Seated(place.ledger, ip))
      || !(2 <= |Added([place.self], members)| <= MAX_GROUP_MEMBERS)
    ensures r.None? ==> store.groups == old(store.groups) && to == []
    ensures r.Some? ==>
      && r.value == GroupInfo(newId, Trim(name), Added([place.self], members), 1, place.self)
      && store.groups == old(store.groups)[newId := r.value]
      && Distinct(r.value.members) && r.value.members[0] == place.self
      && Reaches(place, r.value.members, to)
    ensures r.Some? && newId != "" ==> WellFormed(r.value)
  {
    to := [];
    var valid := ValidGroupName(name);
    if valid.None? {
      return None, [];
    }
    var all := AddMembers([place.self], members, place.ledger);
    if all.None? || |all.value| < 2 || |all.value| > MAX_GROUP_MEMBERS {
      return None, [];
    }
    var g := GroupInfo(newId, valid.value, all.value, 1, place.self);
    assert Distinct([place.self]);
    var applied := store.Apply(g);
    to := Propagate(place, g.members);
    return Some(g), to;
  }

  /**
    Renames, adds and takes out in one step; a refused command leaves the store as it was. Those who
    were taken out are told as well.
  */
  method GroupUpdate(store: GroupStore, place: Place, id: string, name: Option<string>, add: seq<Ip>, remove: seq<Ip>)
    returns (r: Option<GroupInfo>, to: seq<Ip>)
    requires store.Valid()
    modifies store`groups
    ensures store.Valid()
    ensures r.None? <==>
      || id !in old(store.groups)
      || place.self !in old(store.groups)[id].members
      || (name.Some? && ValidGroupName(name.value).None?)
      || (exists ip <- add :: ip !in old(store.groups)[id].members && !Seated(place.ledger, ip))
      || place.self in remove
      || |Without(Added(old(store.groups)[id].members, add), remove)| > MAX_GROUP_MEMBERS
    ensures r.None? ==> store.groups == old(store.groups) && to == []
    ensures r.Some? ==>
      && Succeeds(old(store.groups), place.self, r.value) && r.value.id == id
      && store.groups == old(store.groups)[id := r.value]
      && r.value.name == (if name.Some? then Trim(name.value) else old(store.groups)[id].name)
      && r.value.members == Without(Added(old(store.groups)[id].members, add), remove)
      && (forall ip :: ip in r.value.members <==> (ip in old(store.groups)[id].members || ip in add) && ip !in remove)
      && Reaches(place, r.value.members + remove, to)
  {
    to := [];
    if id !in store.groups || place.self !in store.groups[id].members {
      return None, [];
    }
    var group := store.groups[id];
    if name.Some? {
      var valid := ValidGroupName(name.value);
      if valid.None? {
        return None, [];
      }
      group := group.(name := valid.value);
    }
    var all := AddMembers(group.members, add, place.ledger);
    if all.None? || place.self in remove {
      return None, [];
    }
    var members := Without(all.value, remove);
    if |members| > MAX_GROUP_MEMBERS {
      return None, [];
    }
    var next := group.(members := members, revision := group.revision + 1, updatedBy := place.self);
    var applied := store.Apply(next);
    to := Propagate(place, next.members + remove);
    return Some(next), to;
  }

  /** What stays behind is the group without the one who left. */
  method GroupLeave(store: GroupStore, place: Place, id: string) returns (r: Option<GroupInfo>, to: seq<Ip>)
    requires store.Valid()
    modifies store`groups
    ensures store.Valid()
    ensures r.None? <==> id !in old(store.groups) || place.self !in old(store.groups)[id].members
    ensures r.None? ==> store.groups == old(store.groups) && to == []
    ensures r.Some? ==>
      && Succeeds(old(store.groups), place.self, r.value) && r.value.id == id
      && store.groups == old(store.groups)[id := r.value]
      && r.value.name == old(store.groups)[id].name
      && (forall ip :: ip in r.value.members <==> ip in old(store.groups)[id].members && ip != place.self)
      && Reaches(place, r.value.members, to)
  {
    if id !in store.groups || place.self !in store.groups[id].members {
      return None, [];
    }
    var group := store.groups[id];
    var next := group.(members := Without(group.members, [place.self]), revision := group.revision + 1, updatedBy := place.self);
    var applied := store.Apply(next);
    to := Propagate(place, next.members);
    return Some(next), to;
  }

  /** An update from another device: acknowledged exactly if it is well-formed and its sender may make it. */
  method HandleGroupUpdate(store: GroupStore, g: GroupInfo, from: Ip) returns (acknowledged: bool, applied: Option<Option<GroupInfo>>)
    requires store.Valid()
    modifies store`groups, store`acked
    ensures store.Valid()
    ensures acknowledged <==> WellFormed(g) && MayUpdate(old(store.groups), g, from)
    ensures acknowledged && g.id in old(store.groups) ==> from in old(store.groups)[g.id].members
    ensures acknowledged && g.id !in old(store.groups) ==> from in g.members
    ensures WellFormed(g) && g.id in old(store.groups) && from in old(store.groups)[g.id].members ==> acknowledged
    ensures WellFormed(g) && g.id !in old(store.groups) && from in g.members ==> acknowledged
    ensures !acknowledged ==> store.groups == old(store.groups) && store.acked == old(store.acked) && applied.None?
    ensures acknowledged ==>
      && store.groups == Merge(old(store.groups), g)
      && store.acked == Marked(old(store.acked), g.id, from, g.revision)
      && applied == if Wins(old(store.groups), g) then Some(Lookup(old(store.groups), g.id)) else None
  {
    if g.id == "" || g.name == "" || Utf8Length(g.name) > MAX_GROUP_NAME_BYTES || |g.members| > MAX_GROUP_MEMBERS {
      return false, None;
    }
    if !store.AcceptsUpdate(g, from) {
      return false, None;
    }
    store.MarkAcked(g.id, from, g.revision);
    applied := store.Apply(g);
    return true, applied;
  }

  // ----- the latest revision wins, whatever the order -----

  function MergeAll(known: Known, updates: seq<GroupInfo>): Known
    decreases |updates|
  {
    if updates == [] then known else MergeAll(Merge(known, updates[0]), updates[1..])
  }

  /** No two of them differ while sharing a group, a revision and an author. */
  ghost predicate Agree(gs: set<GroupInfo>) {
    forall g <- gs, h <- gs | g.id == h.id && g.revision == h.revision && g.updatedBy == h.updatedBy :: g == h
  }

  ghost function Contents(known: Known): set<GroupInfo> {
    set id <- known :: known[id]
  }

  ghost function Elements(updates: seq<GroupInfo>): set<GroupInfo> {
    set g <- updates
  }

  /** `g` is one of `gs`, and none of `gs` for the same group is newer. */
  ghost predicate Latest(gs: set<GroupInfo>, g: GroupInfo) {
    g in gs && forall h <- gs | h.id == g.id :: !Newer(h, g)
  }

  lemma {:induction false} MergeAllKeepsLatest(known: Known, updates: seq<GroupInfo>, all: set<GroupInfo>)
    requires WellKeyed(known) && all == Contents(known) + Elements(updates)
    ensures WellKeyed(MergeAll(known, updates))
    ensures forall id :: id in MergeAll(known, updates) <==> exists g <- all :: g.id == id
    ensures forall id <- MergeAll(known, updates) :: Latest(all, MergeAll(known, updates)[id])
    decreases |updates|
  {
    if updates == [] {
      assert Elements(updates) == {};
    } else {
      var next, rest := Merge(known, updates[0]), updates[1..];
      assert updates == [updates[0]] + rest;
      var all' := Contents(next) + Elements(rest);
      MergeAllKeepsLatest(next, rest, all');
      assert all' <= all;
      var r := MergeAll(known, updates);
      forall g <- all
        ensures g.id in r && !Newer(g, r[g.id])
      {
        if g !in all' {
          assert g.id in next && next[g.id] in all';
        }
      }
    }
  }

  /** So the highest revision is kept, and of equal ones that of the highest author address. */
  lemma HighestIsKept(known: Known, updates: seq<GroupInfo>, g: GroupInfo)
    requires WellKeyed(known) && (g in updates || (g.id in known && known[g.id] == g))
    ensures g.id in MergeAll(known, updates)
    ensures
      var kept := MergeAll(known, updates)[g.id];
      && (kept in updates || (g.id in known && known[g.id] == kept)) && kept.id == g.id
      && (g.revision < kept.revision || (g.revision == kept.revision && g.updatedBy <= kept.updatedBy))
  {
    var all := Contents(known) + Elements(updates);
    MergeAllKeepsLatest(known, updates, all);
    assert g in all;
    assert Latest(all, MergeAll(known, updates)[g.id]);
  }

  /** Applying the same updates in any order, any number of times, gives the same store. */
  lemma OrderAndRepetitionDoNotMatter(known: Known, us: seq<GroupInfo>, vs: seq<GroupInfo>)
    requires WellKeyed(known)
    requires Elements(us) == Elements(vs) && Agree(Contents(known) + Elements(us))
    ensures MergeAll(known, us) == MergeAll(known, vs)
  {
    var all := Contents(known) + Elements(us);
    MergeAllKeepsLatest(known, us, all);
    MergeAllKeepsLatest(known, vs, all);
    var a, b := MergeAll(known, us), MergeAll(known, vs);
    forall id <- a
      ensures id in b && a[id] == b[id]
    {
    }
    assert a.Keys == b.Keys;
  }

  /** Without agreement the order does matter: the first of two equally ranked updates stays. */
  lemma DisagreementDependsOnOrder(g: GroupInfo, h: GroupInfo)
    requires g != h && g.id == h.id && g.revision == h.revision && g.updatedBy == h.updatedBy
    ensures MergeAll(map[], [g, h]) != MergeAll(map[], [h, g])
  {
    assert MergeAll(map[], [g, h]) == MergeAll(map[g.id := g], [h]) == MergeAll(map[g.id := g], []);
    assert MergeAll(map[], [h, g]) == MergeAll(map[h.id := h], [g]) == MergeAll(map[h.id := h], []);
  }
}
