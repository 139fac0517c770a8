/**
  Many devices that edit groups and send each other whole groups, over a network that loses,
  repeats and reorders both updates and their acknowledgements.
*/
module GroupGossip {
  import opened Options
  import opened Groups
  import opened Texts

  datatype Node = Node(groups: Known, acked: map<(string, Ip), nat>)

  datatype Update = Update(from: Ip, to: Ip, group: GroupInfo)

  datatype Ack = Ack(from: Ip, to: Ip, id: string, revision: nat)

  /**
    What was ever sent stays in flight: it may arrive now, later, twice, or never. `made` records
    every version of a group that a device ever made.
  */
  datatype World = World(nodes: map<Ip, Node>, updates: set<Update>, acks: set<Ack>, made: set<GroupInfo>)

  datatype Action =
    | Create(n: Ip, group: GroupInfo)
    | Edit(n: Ip, group: GroupInfo)
    | Send(n: Ip, to: Ip, id: string)
    | Receive(u: Update)
    | Acknowledged(a: Ack)
    | Restart(n: Ip)

  predicate Enabled(w: World, a: Action) {
    match a
    case Create(n, g) =>
      && n in w.nodes && WellFormed(g) && g.revision == 1 && g.updatedBy == n && n in g.members
      && (forall h <- w.made :: h.id != g.id)
    case Edit(n, g) => n in w.nodes && WellFormed(g) && Succeeds(w.nodes[n].groups, n, g)
    case Send(n, to, id) => n in w.nodes && to in w.nodes && id in w.nodes[n].groups
    case Receive(u) =>
      && u in w.updates && u.to in w.nodes
      && WellFormed(u.group) && MayUpdate(w.nodes[u.to].groups, u.group, u.from)
    case Acknowledged(a) => a in w.acks && a.to in w.nodes
    case Restart(n) => n in w.nodes
  }

  function TakeIn(w: World, n: Ip, g: GroupInfo): World
    requires n in w.nodes
  {
    w.(nodes := w.nodes[n := w.nodes[n].(groups := Merge(w.nodes[n].groups, g))])
  }

  function Note(w: World, n: Ip, id: string, peer: Ip, revision: nat): World
    requires n in w.nodes
  {
    w.(nodes := w.nodes[n := w.nodes[n].(acked := Marked(w.nodes[n].acked, id, peer, revision))])
  }

  function Next(w: World, a: Action): World
    requires Enabled(w, a)
  {
    match a
    case Create(n, g) => TakeIn(w.(made := w.made + {g}), n, g)
    case Edit(n, g) => TakeIn(w.(made := w.made + {g}), n, g)
    case Send(n, to, id) => w.(updates := w.updates + {Update(n, to, w.nodes[n].groups[id])})
    case Receive(u) =>
      var w' := TakeIn(Note(w, u.to, u.group.id, u.from, u.group.revision), u.to, u.group);
      w'.(acks := w'.acks + {Ack(u.to, u.from, u.group.id, u.group.revision)})
    case Acknowledged(a) => Note(w, a.to, a.id, a.from, a.revision)
    case Restart(n) => w.(nodes := w.nodes[n := w.nodes[n].(acked := map[])])
  }

  // ----- the invariant -----

  ghost predicate Has(w: World, n: Ip, id: string, revision: nat) {
    n in w.nodes && id in w.nodes[n].groups && w.nodes[n].groups[id].revision >= revision
  }

  ghost predicate Keyed(w: World) {
    forall n <- w.nodes :: WellKeyed(w.nodes[n].groups)
  }

  ghost predicate Stores(w: World, n: Ip, g: GroupInfo) {
    n in w.nodes && g.id in w.nodes[n].groups && w.nodes[n].groups[g.id] == g
  }

  /** Only versions that some device made are ever stored or sent. */
  ghost predicate Genuine(w: World) {
    && (forall n, g | Stores(w, n, g) :: g in w.made)
    && (forall u <- w.updates :: u.group in w.made)
  }

  /** Every author has at least the revision of each version it made. */
  ghost predicate Authored(w: World) {
    forall g <- w.made :: Has(w, g.updatedBy, g.id, g.revision)
  }

  /** Senders hold what they sent, and acknowledgers what they acknowledged. */
  ghost predicate Vouched(w: World) {
    && (forall u <- w.updates :: Has(w, u.from, u.group.id, u.group.revision))
    && (forall a <- w.acks :: Has(w, a.from, a.id, a.revision))
    && (forall n <- w.nodes, k <- w.nodes[n].acked :: Has(w, k.1, k.0, w.nodes[n].acked[k]))
  }

  ghost predicate Inv(w: World) {
    Keyed(w) && Genuine(w) && Authored(w) && Agree(w.made) && Vouched(w)
  }

  /** No device ever goes back to an older revision, or forgets a group. */
  ghost predicate Grows(w: World, w': World) {
    forall n, id, r | Has(w, n, id, r) :: Has(w', n, id, r)
  }

  lemma TakeInGrows(w: World, n: Ip, g: GroupInfo)
    requires Keyed(w) && n in w.nodes
    ensures Grows(w, TakeIn(w, n, g)) && Keyed(TakeIn(w, n, g))
    ensures Has(TakeIn(w, n, g), n, g.id, g.revision)
  {
  }

  lemma TakeInKeeps(w: World, n: Ip, g: GroupInfo)
    requires Inv(w) && n in w.nodes && g in w.made
    ensures Inv(TakeIn(w, n, g)) && Has(TakeIn(w, n, g), n, g.id, g.revision)
  {
    TakeInGrows(w, n, g);
    AuthorKeeps(w, n, g);
  }

  ghost predicate SameGroups(w: World, w': World) {
    w'.nodes.Keys == w.nodes.Keys && (forall m <- w.nodes :: w'.nodes[m].groups == w.nodes[m].groups) && w'.made == w.made
  }

  lemma SameGroupsGrow(w: World, w': World)
    requires SameGroups(w, w')
    ensures Grows(w, w') && forall m, h | Stores(w', m, h) :: Stores(w, m, h)
  {
  }

  /** As long as the groups stay as they are, only what is new on the way needs a look. */
  lemma SameGroupsKeep(w: World, w': World)
    requires Inv(w) && SameGroups(w, w')
    requires forall u <- w'.updates :: u in w.updates || (u.group in w.made && Has(w, u.from, u.group.id, u.group.revision))
    requires forall a <- w'.acks :: a in w.acks || Has(w, a.from, a.id, a.revision)
    requires forall n <- w'.nodes, k <- w'.nodes[n].acked :: Has(w, k.1, k.0, w'.nodes[n].acked[k])
    ensures Inv(w')
  {
    SameGroupsGrow(w, w');
    SameGenuine(w, w');
    SameVouched(w, w');
  }

  lemma SameGenuine(w: World, w': World)
    requires Keyed(w) && Genuine(w) && Authored(w) && SameGroups(w, w')
    requires Grows(w, w') && forall m, h | Stores(w', m, h) :: Stores(w, m, h)
    requires forall u <- w'.updates :: u in w.updates || u.group in w.made
    ensures Keyed(w') && Genuine(w') && Authored(w')
  {
  }

  lemma SameVouched(w: World, w': World)
    requires Vouched(w) && Grows(w, w')
    requires forall u <- w'.updates :: u in w.updates || Has(w, u.from, u.group.id, u.group.revision)
    requires forall a <- w'.acks :: a in w.acks || Has(w, a.from, a.id, a.revision)
    requires forall n <- w'.nodes, k <- w'.nodes[n].acked :: Has(w, k.1, k.0, w'.nodes[n].acked[k])
    ensures Vouched(w')
  {
  }

  lemma NoteKeeps(w: World, n: Ip, id: string, peer: Ip, revision: nat)
    requires Inv(w) && n in w.nodes && Has(w, peer, id, revision)
    ensures Inv(Note(w, n, id, peer, revision))
  {
    var w' := Note(w, n, id, peer, revision);
    forall m <- w'.nodes, k <- w'.nodes[m].acked
      ensures Has(w, k.1, k.0, w'.nodes[m].acked[k])
    {
      if m != n || k != (id, peer) {
        assert k in w.nodes[m].acked && w'.nodes[m].acked[k] == w.nodes[m].acked[k];
      }
    }
    SameGroupsKeep(w, w');
  }

  /** A version made by an edit has a revision its author never used before for that group. */
  lemma MadeAnew(w: World, a: Action)
    requires Inv(w) && Enabled(w, a) && (a.Create? || a.Edit?)
    ensures Agree(w.made + {a.group})
  {
    var g := a.group;
    forall h <- w.made | h.id == g.id && h.updatedBy == g.updatedBy
      ensures h.revision < g.revision
    {
      assert Has(w, h.updatedBy, h.id, h.revision);
    }
  }

  /** Adding to what was made leaves everything else as it is. */
  lemma MadeKeeps(w: World, w': World)
    requires Inv(w) && w'.nodes == w.nodes && w'.updates == w.updates && w'.acks == w.acks
    requires w.made <= w'.made && Agree(w'.made)
    ensures Keyed(w') && Genuine(w') && Vouched(w') && Agree(w'.made)
  {
    assert Grows(w, w');
    assert forall m, h | Stores(w', m, h) :: Stores(w, m, h);
  }

  lemma EditKeeps(w: World, a: Action)
    requires Inv(w) && Enabled(w, a) && (a.Create? || a.Edit?)
    ensures Inv(Next(w, a))
  {
    var w1 := w.(made := w.made + {a.group});
    MadeAnew(w, a);
    MadeKeeps(w, w1);
    TakeInGrows(w1, a.n, a.group);
    AuthorKeeps(w1, a.n, a.group);
    EditAuthored(w, w1, TakeIn(w1, a.n, a.group), a.group);
  }

  lemma EditAuthored(w: World, w1: World, w': World, g: GroupInfo)
    requires Authored(w) && w1.nodes == w.nodes && w1.made == w.made + {g} && w'.made == w1.made
    requires Grows(w1, w') && Has(w', g.updatedBy, g.id, g.revision)
    ensures Authored(w')
  {
    forall h <- w'.made
      ensures Has(w', h.updatedBy, h.id, h.revision)
    {
      if h in w.made {
        assert Has(w, h.updatedBy, h.id, h.revision);
        assert Has(w1, h.updatedBy, h.id, h.revision);
      }
    }
  }

  lemma AuthorKeeps(w: World, n: Ip, g: GroupInfo)
    requires Keyed(w) && Genuine(w) && Vouched(w) && n in w.nodes && g in w.made
    ensures Genuine(TakeIn(w, n, g)) && Vouched(TakeIn(w, n, g))
  {
    var w' := TakeIn(w, n, g);
    TakeInGrows(w, n, g);
    assert forall m, h | Stores(w', m, h) :: Stores(w, m, h) || h == g;
    assert forall m <- w'.nodes :: w'.nodes[m].acked == w.nodes[m].acked;
  }

  lemma ReceiveKeeps(w: World, u: Update)
    requires Inv(w) && Enabled(w, Receive(u))
    ensures Inv(Next(w, Receive(u)))
  {
    NoteKeeps(w, u.to, u.group.id, u.from, u.group.revision);
    var w1 := Note(w, u.to, u.group.id, u.from, u.group.revision);
    TakeInKeeps(w1, u.to, u.group);
    AckKeeps(TakeIn(w1, u.to, u.group), Ack(u.to, u.from, u.group.id, u.group.revision));
  }

  lemma AckKeeps(w: World, a: Ack)
    requires Inv(w) && Has(w, a.from, a.id, a.revision)
    ensures Inv(w.(acks := w.acks + {a}))
  {
    SameGroupsKeep(w, w.(acks := w.acks + {a}));
  }

  lemma SendKeeps(w: World, u: Update)
    requires Inv(w) && u.group in w.made && Has(w, u.from, u.group.id, u.group.revision)
    ensures Inv(w.(updates := w.updates + {u}))
  {
    SameGroupsKeep(w, w.(updates := w.updates + {u}));
  }

  lemma RestartKeeps(w: World, n: Ip)
    requires Inv(w) && Enabled(w, Restart(n))
    ensures Inv(Next(w, Restart(n)))
  {
    var w' := Next(w, Restart(n));
    forall m <- w'.nodes, k <- w'.nodes[m].acked
      ensures Has(w, k.1, k.0, w'.nodes[m].acked[k])
    {
      assert k in w.nodes[m].acked && w'.nodes[m].acked[k] == w.nodes[m].acked[k];
    }
    SameGroupsKeep(w, w');
  }

  lemma NextKeeps(w: World, a: Action)
    requires Inv(w) && Enabled(w, a)
    ensures Inv(Next(w, a))
  {
    if
    case a.Create? || a.Edit? => EditKeeps(w, a);
    case a.Send? =>
      assert Stores(w, a.n, w.nodes[a.n].groups[a.id]);
      SendKeeps(w, Update(a.n, a.to, w.nodes[a.n].groups[a.id]));
    case a.Receive? => ReceiveKeeps(w, a.u);
    case a.Acknowledged? => NoteKeeps(w, a.a.to, a.a.id, a.a.from, a.a.revision);
    case a.Restart? => RestartKeeps(w, a.n);
  }

  // ----- whole runs -----

  function Fresh(devices: set<Ip>): World {
    World(map n <- devices :: Node(map[], map[]), {}, {}, {})
  }

  /** What is not possible when its turn comes does not happen. */
  function Run(w: World, actions: seq<Action>): World {
    if actions == [] then w
    else
      var before, a := Run(w, actions[..|actions| - 1]), actions[|actions| - 1];
      if Enabled(before, a) then Next(before, a) else before
  }

  lemma {:induction false} RunKeeps(w: World, actions: seq<Action>)
    requires Inv(w)
    ensures Inv(Run(w, actions))
  {
    if actions != [] {
      var front := actions[..|actions| - 1];
      RunKeeps(w, front);
      if Enabled(Run(w, front), actions[|actions| - 1]) {
        NextKeeps(Run(w, front), actions[|actions| - 1]);
      }
    }
  }

  /** Two devices never hold different contents under the same group, revision and author. */
  lemma SameVersionSameContents(devices: set<Ip>, actions: seq<Action>, n: Ip, m: Ip, id: string)
    requires n in Run(Fresh(devices), actions).nodes && m in Run(Fresh(devices), actions).nodes
    requires
      var w := Run(Fresh(devices), actions);
      && id in w.nodes[n].groups && id in w.nodes[m].groups
      && w.nodes[n].groups[id].revision == w.nodes[m].groups[id].revision
      && w.nodes[n].groups[id].updatedBy == w.nodes[m].groups[id].updatedBy
    ensures
      var w := Run(Fresh(devices), actions);
      w.nodes[n].groups[id] == w.nodes[m].groups[id]
  {
    var w := Run(Fresh(devices), actions);
    RunKeeps(Fresh(devices), actions);
    assert Stores(w, n, w.nodes[n].groups[id]) && Stores(w, m, w.nodes[m].groups[id]);
  }

  /** An acknowledgement on record is the truth: the peer stores at least that revision. */
  lemma AcknowledgedMeansStored(devices: set<Ip>, actions: seq<Action>, n: Ip, peer: Ip, id: string)
    requires n in Run(Fresh(devices), actions).nodes
    requires (id, peer) in Run(Fresh(devices), actions).nodes[n].acked
    ensures
      var w := Run(Fresh(devices), actions);
      Has(w, peer, id, w.nodes[n].acked[(id, peer)])
  {
    RunKeeps(Fresh(devices), actions);
  }

  /** `n` has nothing left to send for group `id`: every other member has acknowledged its version. */
  ghost predicate NothingOwed(w: World, n: Ip, id: string)
    requires n in w.nodes && id in w.nodes[n].groups
  {
    var g := w.nodes[n].groups[id];
    forall peer <- g.members | Target(g, n, None, peer) :: Acked(w.nodes[n].acked, id, peer) >= g.revision
  }

  ghost predicate ListEachOther(w: World, n: Ip, m: Ip, id: string) {
    && n in w.nodes && m in w.nodes && id in w.nodes[n].groups && id in w.nodes[m].groups
    && n in w.nodes[n].groups[id].members && m in w.nodes[n].groups[id].members
    && n in w.nodes[m].groups[id].members && m in w.nodes[m].groups[id].members
  }

  /** The revision of the group was made by one device only. */
  ghost predicate OneAuthor(made: set<GroupInfo>, id: string, revision: nat) {
    forall g <- made, h <- made | g.id == h.id == id && g.revision == h.revision == revision :: g.updatedBy == h.updatedBy
  }

  /**
    Once neither owes the other anything, two devices that list each other are at the same revision;
    and then they hold the same contents exactly if that revision has the same author on both. So it
    is whenever no two members ever made that revision of the group.
  */
  lemma QuietDevicesShareTheRevision(devices: set<Ip>, actions: seq<Action>, n: Ip, m: Ip, id: string)
    requires ListEachOther(Run(Fresh(devices), actions), n, m, id)
    requires NothingOwed(Run(Fresh(devices), actions), n, id) && NothingOwed(Run(Fresh(devices), actions), m, id)
    ensures
      var w := Run(Fresh(devices), actions);
      var g, h := w.nodes[n].groups[id], w.nodes[m].groups[id];
      && g.revision == h.revision && (g == h <==> g.updatedBy == h.updatedBy)
      && (OneAuthor(w.made, id, g.revision) ==> g == h)
  {
    var w := Run(Fresh(devices), actions);
    RunKeeps(Fresh(devices), actions);
    assert Stores(w, n, w.nodes[n].groups[id]) && Stores(w, m, w.nodes[m].groups[id]);
    if n != m {
      assert Target(w.nodes[n].groups[id], n, None, m);
      assert Target(w.nodes[m].groups[id], m, None, n);
    }
  }

  // ----- who may change a group -----

  /** The action replaces `g` by `g'` at device `n`, as a member's edit or an update from one of the members of `g`. */
  ghost predicate ByAMember(a: Action, n: Ip, g: GroupInfo, g': GroupInfo) {
    || (a.Edit? && a.n == n && a.group == g' && n in g.members)
    || (a.Receive? && a.u.to == n && a.u.group == g' && a.u.from in g.members)
  }

  lemma TakeInReplaces(w: World, n: Ip, g: GroupInfo, m: Ip, id: string)
    requires n in w.nodes && m in w.nodes && id in w.nodes[m].groups
    ensures id in TakeIn(w, n, g).nodes[m].groups
    ensures TakeIn(w, n, g).nodes[m].groups[id] != w.nodes[m].groups[id] ==>
      m == n && id == g.id && TakeIn(w, n, g).nodes[m].groups[id] == g
  {
  }

  lemma ReplacedByAMember(w: World, a: Action, n: Ip, id: string)
    requires Inv(w) && Enabled(w, a) && n in w.nodes && id in w.nodes[n].groups
    ensures
      var w' := Next(w, a);
      && n in w'.nodes && id in w'.nodes[n].groups
      && (w'.nodes[n].groups[id] != w.nodes[n].groups[id] ==> ByAMember(a, n, w.nodes[n].groups[id], w'.nodes[n].groups[id]))
  {
    match a
    case Create(m, g) =>
      assert Stores(w, n, w.nodes[n].groups[id]);
      TakeInReplaces(w.(made := w.made + {g}), m, g, n, id);
    case Edit(m, g) => TakeInReplaces(w.(made := w.made + {g}), m, g, n, id);
    case Receive(u) => TakeInReplaces(Note(w, u.to, u.group.id, u.from, u.group.revision), u.to, u.group, n, id);
    case _ =>
  }

  /**
    In every run, the version of a group that a device holds is replaced only by its own edit, as a
    member, or by an update from somebody whom the version that is replaced lists as a member.
  */
  lemma OnlyMembersReplace(devices: set<Ip>, actions: seq<Action>, a: Action, n: Ip, id: string)
    requires Enabled(Run(Fresh(devices), actions), a)
    requires n in Run(Fresh(devices), actions).nodes && id in Run(Fresh(devices), actions).nodes[n].groups
    ensures
      var w := Run(Fresh(devices), actions);
      var w' := Next(w, a);
      && n in w'.nodes && id in w'.nodes[n].groups
      && (w'.nodes[n].groups[id] != w.nodes[n].groups[id] ==> ByAMember(a, n, w.nodes[n].groups[id], w'.nodes[n].groups[id]))
  {
    RunKeeps(Fresh(devices), actions);
    ReplacedByAMember(Run(Fresh(devices), actions), a, n, id);
  }

  /** What is left of a group when a member leaves it. */
  function Left(g: GroupInfo, n: Ip): GroupInfo {
    g.(members := Groups.Without(g.members, [n]), revision := g.revision + 1, updatedBy := n)
  }

  lemma {:induction false} MadeWellFormed(devices: set<Ip>, actions: seq<Action>)
    ensures forall g <- Run(Fresh(devices), actions).made :: WellFormed(g)
  {
    if actions != [] {
      MadeWellFormed(devices, actions[..|actions| - 1]);
    }
  }

  /** A member's leave is taken in by every device that still holds the version it left, whenever it arrives. */
  lemma LeaveIsTakenIn(devices: set<Ip>, actions: seq<Action>, u: Update)
    requires
      var w := Run(Fresh(devices), actions);
      && u in w.updates && u.to in w.nodes && u.group.id in w.nodes[u.to].groups
      && var g := w.nodes[u.to].groups[u.group.id];
         u.from in g.members && u.group == Left(g, u.from)
    ensures
      var w := Run(Fresh(devices), actions);
      && Enabled(w, Receive(u))
      && u.group.id in Next(w, Receive(u)).nodes[u.to].groups
      && Next(w, Receive(u)).nodes[u.to].groups[u.group.id] == u.group
      && u.from !in u.group.members
  {
    var w := Run(Fresh(devices), actions);
    RunKeeps(Fresh(devices), actions);
    MadeWellFormed(devices, actions);
    assert Stores(w, u.to, w.nodes[u.to].groups[u.group.id]);
  }

  // ----- equal revisions of different authors can stay apart -----

  const FOUNDED := GroupInfo("g", "team", [1, 2], 1, 1)
  const BY_ONE := GroupInfo("g", "one", [1, 2], 2, 1)
  const BY_TWO := GroupInfo("g", "two", [1, 2], 2, 2)

  lemma TheyAreWellFormed()
    ensures WellFormed(FOUNDED) && WellFormed(BY_ONE) && WellFormed(BY_TWO)
  {
    Utf8AtMostFour("team");
    Utf8AtMostFour("one");
    Utf8AtMostFour("two");
  }

  lemma Extend(actions: seq<Action>, a: Action) returns (more: seq<Action>)
    requires Enabled(Run(Fresh({1, 2}), actions), a)
    ensures Run(Fresh({1, 2}), more) == Next(Run(Fresh({1, 2}), actions), a)
  {
    more := actions + [a];
    assert more[..|more| - 1] == actions;
  }

  lemma BothKnowTheGroup() returns (actions: seq<Action>)
    ensures
      var w := Run(Fresh({1, 2}), actions);
      && w.nodes.Keys == {1, 2}
      && w.nodes[1].groups == map["g" := FOUNDED] && w.nodes[2].groups == map["g" := FOUNDED]
      && w.nodes[1].acked == map[] && w.nodes[2].acked == map[("g", 1) := 1]
  {
    TheyAreWellFormed();
    actions := Extend([], Create(1, FOUNDED));
    actions := Extend(actions, Send(1, 2, "g"));
    actions := Extend(actions, Receive(Update(1, 2, FOUNDED)));
  }

  lemma BothEdit() returns (actions: seq<Action>)
    ensures
      var w := Run(Fresh({1, 2}), actions);
      && w.nodes.Keys == {1, 2}
      && w.nodes[1].groups == map["g" := BY_ONE] && w.nodes[2].groups == map["g" := BY_TWO]
      && w.nodes[1].acked == map[] && w.nodes[2].acked == map[("g", 1) := 1]
  {
    TheyAreWellFormed();
    actions := BothKnowTheGroup();
    actions := Extend(actions, Edit(1, BY_ONE));
    actions := Extend(actions, Edit(2, BY_TWO));
  }

  lemma OneReachesTwo() returns (actions: seq<Action>)
    ensures
      var w := Run(Fresh({1, 2}), actions);
      && w.nodes.Keys == {1, 2}
      && w.nodes[1].groups == map["g" := BY_ONE] && w.nodes[2].groups == map["g" := BY_TWO]
      && w.nodes[1].acked == map[] && w.nodes[2].acked == map[("g", 1) := 2]
      && Ack(2, 1, "g", 2) in w.acks
  {
    TheyAreWellFormed();
    actions := BothEdit();
    actions := Extend(actions, Send(1, 2, "g"));
    actions := Extend(actions, Receive(Update(1, 2, BY_ONE)));
  }

  /**
    Two members edit at once. Device 2 keeps its own version of revision 2, acknowledges the one from
    device 1, and takes that update as proof that device 1 needs nothing: both fall silent, apart.
  */
  lemma TieStaysSplit() returns (actions: seq<Action>)
    ensures
      var w := Run(Fresh({1, 2}), actions);
      && ListEachOther(w, 1, 2, "g") && NothingOwed(w, 1, "g") && NothingOwed(w, 2, "g")
      && w.nodes[1].groups["g"] == BY_ONE && w.nodes[2].groups["g"] == BY_TWO
  {
    actions := OneReachesTwo();
    actions := Extend(actions, Acknowledged(Ack(2, 1, "g", 2)));
  }
}
