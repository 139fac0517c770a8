/**
  What the host tells each member about the others: the pairs the access rules bar from direct
  traffic (crates/peercove-cli/src/commands/tunnel.rs, 754-789), and the ledger one member gets
  (crates/peercove-cli/src/control.rs, 129-197).
*/
module Ledger {
  import opened Options
  import opened AclPolicy
  import opened Direct
  import opened DirectPeers
  import opened Texts

  type Address = AclPolicy.Ip

  const CONTROL_PORT: nat := 51821
  const TCP: nat := 6

  /** A second name for some host, inside the network or not. */
  datatype Alias = Alias(name: string, target: string, resolved: Option<Address>)

  datatype PermGroup = PermGroup(id: string, members: seq<Address>)

  datatype Distribution = Distribution(
    members: seq<Entry>,
    dnsRecords: seq<(string, Address)>,
    aliases: seq<Alias>,
    displayName: Option<string>,
    permGroups: seq<PermGroup>,
    deny: seq<(Address, Address)>,
    forceRelay: seq<(Address, Address, string)>)

  /** What one member is sent. */
  datatype Message = Message(
    members: seq<Entry>,
    dnsRecords: seq<(string, Address)>,
    aliases: seq<Alias>,
    displayName: Option<string>,
    permGroups: seq<PermGroup>)

  // ----- which pairs are barred -----

  /** A member goes by its first address; members without one are passed over. */
  function MemberIps(peers: seq<PeerConfig>): (r: seq<Address>)
    ensures forall a :: a in r <==> exists peer <- peers :: peer.allowedIps != [] && peer.allowedIps[0].addr == a
  {
    if peers == [] then []
    else (if peers[0].allowedIps == [] then [] else [peers[0].allowedIps[0].addr]) + MemberIps(peers[1..])
  }

  predicate Touches(r: Resolved, a: Address, b: Address) {
    Between(r, a, b) || Between(r, b, a)
  }

  function FirstTouching(rules: seq<Resolved>, a: Address, b: Address): string {
    if rules == [] then "acl-policy" else if Touches(rules[0], a, b) then rules[0].id else FirstTouching(rules[1..], a, b)
  }

  /** The first rule that concerns the two gives the reason. */
  lemma {:induction false} FirstTouchingIs(rules: seq<Resolved>, a: Address, b: Address, i: nat)
    requires i < |rules| && Touches(rules[i], a, b) && forall m | 0 <= m < i :: !Touches(rules[m], a, b)
    ensures FirstTouching(rules, a, b) == rules[i].id
  {
    if i > 0 {
      FirstTouchingIs(rules[1..], a, b, i - 1);
    }
  }

  /** Not even the control connection is allowed, in either direction. */
  predicate ControlDenied(policy: Policy, a: Address, b: Address) {
    && Evaluated(policy, a, b, TCP, Some(CONTROL_PORT)).action == Deny
    && Evaluated(policy, b, a, TCP, Some(CONTROL_PORT)).action == Deny
  }

  predicate IsPair(ips: seq<Address>, a: Address, b: Address) {
    exists i, j | 0 <= i < j < |ips| :: ips[i] == a && ips[j] == b
  }

  predicate DeniedPair(policy: Policy, ips: seq<Address>, p: (Address, Address)) {
    (IsPair(ips, p.0, p.1) || IsPair(ips, p.1, p.0)) && p.0 <= p.1 && ControlDenied(policy, p.0, p.1)
  }

  /** The barred pairs that go out with the ledger are those of the policy. */
  ghost predicate Distributes(config: Config, policy: Policy, dist: Distribution) {
    var ips := MemberIps(config.peers);
    && Sorted(dist.deny)
    && (forall p :: p in dist.deny <==> p in NormalizedDeny(config) || DeniedPair(policy, ips, p))
    && (forall f <- dist.forceRelay :: IsPair(ips, f.0, f.1) && Relevant(policy, f.0, f.1) && f.2 == FirstTouching(policy.rules, f.0, f.1))
    && (forall a: Address, b: Address | IsPair(ips, a, b) && Relevant(policy, a, b) :: (a, b, FirstTouching(policy.rules, a, b)) in dist.forceRelay)
  }

  method Distribute(config: Config, policy: Policy, shared: Message) returns (dist: Distribution)
    ensures Distributes(config, policy, dist)
    ensures dist == Distribution(
      shared.members, shared.dnsRecords, shared.aliases, shared.displayName, shared.permGroups, dist.deny, dist.forceRelay)
  {
    var ips := MemberIps(config.peers);
    var pairs := ForceRelayPairs(policy, ips);
    assert forall a: Address, b: Address :: (a, b) in pairs <==> IsPair(ips, a, b) && Relevant(policy, a, b);
    var forceRelay: seq<(Address, Address, string)> := [];
    for i := 0 to |pairs|
      invariant |forceRelay| == i
      invariant forall k | 0 <= k < i :: forceRelay[k] == (pairs[k].0, pairs[k].1, FirstTouching(policy.rules, pairs[k].0, pairs[k].1))
    {
      forceRelay := forceRelay + [(pairs[i].0, pairs[i].1, FirstTouching(policy.rules, pairs[i].0, pairs[i].1))];
    }
    var denied := DeniedPairs(policy, ips);
    var deny := SortedSet(NormalizedDeny(config) + denied);
    forall a: Address, b: Address | IsPair(ips, a, b) && Relevant(policy, a, b)
      ensures (a, b, FirstTouching(policy.rules, a, b)) in forceRelay
    {
      assert (a, b) in pairs;
      var k :| 0 <= k < |pairs| && pairs[k] == (a, b);
      assert forceRelay[k] == (a, b, FirstTouching(policy.rules, a, b));
    }
    dist := Distribution(
      shared.members, shared.dnsRecords, shared.aliases, shared.displayName, shared.permGroups, deny, forceRelay);
  }

  /** The pair is listed if it is denied. */
  predicate Settled(policy: Policy, ips: seq<Address>, deny: seq<(Address, Address)>, i: nat, j: nat)
    requires i < j < |ips|
  {
    ControlDenied(policy, ips[i], ips[j]) ==> Ordered((ips[i], ips[j])) in deny
  }

  method DeniedPairs(policy: Policy, ips: seq<Address>) returns (deny: seq<(Address, Address)>)
    ensures forall p :: p in deny <==> DeniedPair(policy, ips, p)
  {
    deny := [];
    for i := 0 to |ips|
      invariant forall p <- deny :: DeniedPair(policy, ips, p)
      invariant forall m, n | 0 <= m < i && m < n < |ips| :: Settled(policy, ips, deny, m, n)
    {
      for j := i + 1 to |ips|
        invariant forall p <- deny :: DeniedPair(policy, ips, p)
        invariant forall m, n | 0 <= m < i && m < n < |ips| :: Settled(policy, ips, deny, m, n)
        invariant forall n | i < n < j :: Settled(policy, ips, deny, i, n)
      {
        if ControlDenied(policy, ips[i], ips[j]) {
          SettledGrows(policy, ips, deny, OnePair(policy, ips, i, j));
          deny := deny + [OnePair(policy, ips, i, j)];
        }
      }
    }
    forall p | DeniedPair(policy, ips, p)
      ensures p in deny
    {
      SettledPair(policy, ips, deny, p);
    }
  }

  function OnePair(policy: Policy, ips: seq<Address>, i: nat, j: nat): (p: (Address, Address))
    requires i < j < |ips| && ControlDenied(policy, ips[i], ips[j])
    ensures DeniedPair(policy, ips, p) && p == Ordered((ips[i], ips[j]))
  {
    assert IsPair(ips, ips[i], ips[j]);
    Ordered((ips[i], ips[j]))
  }

  lemma SettledGrows(policy: Policy, ips: seq<Address>, deny: seq<(Address, Address)>, p: (Address, Address))
    ensures forall m, n | 0 <= m < n < |ips| :: Settled(policy, ips, deny, m, n) ==> Settled(policy, ips, deny + [p], m, n)
  {
  }

  lemma SettledPair(policy: Policy, ips: seq<Address>, deny: seq<(Address, Address)>, p: (Address, Address))
    requires forall m, n | 0 <= m < n < |ips| :: Settled(policy, ips, deny, m, n)
    requires DeniedPair(policy, ips, p)
    ensures p in deny
  {
    var (a, b) := if IsPair(ips, p.0, p.1) then p else (p.1, p.0);
    var m, n :| 0 <= m < n < |ips| && ips[m] == a && ips[n] == b;
    assert Settled(policy, ips, deny, m, n);
  }

  // ----- the ledger of one member -----

  predicate Joins(f: (Address, Address, string), a: Address, b: Address) {
    (f.0 == a && f.1 == b) || (f.0 == b && f.1 == a)
  }

  function FirstJoining(forceRelay: seq<(Address, Address, string)>, a: Address, b: Address): (r: Option<string>)
    ensures r.Some? <==> exists f <- forceRelay :: Joins(f, a, b)
  {
    if forceRelay == [] then None
    else if Joins(forceRelay[0], a, b) then Some(forceRelay[0].2)
    else FirstJoining(forceRelay[1..], a, b)
  }

  predicate Barred(deny: seq<(Address, Address)>, a: Address, b: Address) {
    (a, b) in deny || (b, a) in deny
  }

  /** A barred partner is shown without a way to reach it directly. */
  function Line(e: Entry, dist: Distribution, recipient: Address): (line: Entry)
    ensures line.key == e.key && line.ip == e.ip
  {
    var shut := if Barred(dist.deny, recipient, e.ip) then e.(endpoint := None, endpointAgeSecs := None, blocked := true) else e;
    var rule := FirstJoining(dist.forceRelay, recipient, e.ip);
    if rule.Some? then shut.(endpoint := None, endpointAgeSecs := None, forceRelay := true, aclRule := rule) else shut
  }

  /** A line differs from what the host knows only where the two are kept apart: no endpoint, and why. */
  lemma LineShows(e: Entry, dist: Distribution, recipient: Address)
    ensures
      var line := Line(e, dist, recipient);
      var denied := (recipient, e.ip) in dist.deny || (e.ip, recipient) in dist.deny;
      var forced := exists f <- dist.forceRelay :: (f.0 == recipient && f.1 == e.ip) || (f.0 == e.ip && f.1 == recipient);
      && (denied || forced ==> line.endpoint.None? && line.endpointAgeSecs.None?)
      && line.blocked == (e.blocked || denied) && line.forceRelay == (e.forceRelay || forced)
      && (forced ==> line.aclRule.Some? && exists f <- dist.forceRelay :: Joins(f, recipient, e.ip) && f.2 == line.aclRule.value)
      && (!denied && !forced ==> line == e)
      && line == e.(endpoint := line.endpoint, endpointAgeSecs := line.endpointAgeSecs,
                    blocked := line.blocked, forceRelay := line.forceRelay, aclRule := line.aclRule)
  {
    FirstJoiningIs(dist.forceRelay, recipient, e.ip);
  }

  lemma {:induction false} FirstJoiningIs(forceRelay: seq<(Address, Address, string)>, a: Address, b: Address)
    ensures FirstJoining(forceRelay, a, b).Some? ==>
      exists f <- forceRelay :: Joins(f, a, b) && f.2 == FirstJoining(forceRelay, a, b).value
  {
    if forceRelay != [] && !Joins(forceRelay[0], a, b) {
      FirstJoiningIs(forceRelay[1..], a, b);
    }
  }

  predicate Isolated(members: seq<Entry>, ip: Address) {
    exists e <- members :: e.awaitingApproval && e.ip == ip
  }

  /** Devices that still wait for approval are hidden from all but administrators. */
  predicate Visible(e: Entry, members: seq<Entry>, recipient: Address) {
    !Isolated(members, e.ip) || exists m <- members :: m.ip == recipient && m.isAdmin
  }

  function Lines(entries: seq<Entry>, dist: Distribution, recipient: Address): (r: seq<Entry>)
    ensures forall x :: x in r <==> exists e <- entries :: Visible(e, dist.members, recipient) && x == Line(e, dist, recipient)
  {
    if entries == [] then []
    else
      var last := entries[|entries| - 1];
      assert entries == entries[..|entries| - 1] + [last];
      Lines(entries[..|entries| - 1], dist, recipient)
      + if Visible(last, dist.members, recipient) then [Line(last, dist, recipient)] else []
  }

  /** A device that waits for approval is shown to administrators only; every other one to all. */
  lemma WaitingIsHidden(dist: Distribution, recipient: Address, e: Entry)
    requires e in dist.members
    ensures
      var waiting := exists w <- dist.members :: w.ip == e.ip && w.awaitingApproval;
      var admin := exists m <- dist.members :: m.ip == recipient && m.isAdmin;
      (exists line <- Lines(dist.members, dist, recipient) :: line.ip == e.ip) <==> !waiting || admin
  {
    if line :| line in Lines(dist.members, dist, recipient) && line.ip == e.ip {
      var x :| x in dist.members && Visible(x, dist.members, recipient) && line == Line(x, dist, recipient);
      assert x.ip == e.ip;
    }
    if Visible(e, dist.members, recipient) {
      assert Line(e, dist, recipient) in Lines(dist.members, dist, recipient);
    }
  }

  function Names(records: seq<(string, Address)>, members: seq<Entry>): (r: seq<(string, Address)>)
    ensures forall x :: x in r <==> x in records && !Isolated(members, x.1)
  {
    if records == [] then []
    else
      var last := records[|records| - 1];
      assert records == records[..|records| - 1] + [last];
      Names(records[..|records| - 1], members) + if Isolated(members, last.1) then [] else [last]
  }

  /** The parts of a name between its dots. */
  function Parts(name: string): (r: seq<string>)
    ensures r != []
  {
    if name == [] then [[]]
    else
      var rest := Parts(name[1..]);
      if name[0] == '.' then [[]] + rest else [[name[0]] + rest[0]] + rest[1..]
  }

  /** The text stands in the name from `i` on, between two dots or ends. */
  ghost predicate Stands(name: string, part: string, i: nat) {
    && i + |part| <= |name| && name[i..i + |part|] == part && '.' !in part
    && (i == 0 || name[i - 1] == '.') && (i + |part| == |name| || name[i + |part|] == '.')
  }

  lemma FirstPart(name: string)
    ensures Stands(name, Parts(name)[0], 0)
  {
    if name != [] && name[0] != '.' {
      FirstPart(name[1..]);
      var part := Parts(name[1..])[0];
      assert Parts(name)[0] == [name[0]] + part;
      assert name[0..1 + |part|] == [name[0]] + name[1..][0..|part|];
    }
  }

  lemma OnlyFirstPart(name: string, part: string)
    requires Stands(name, part, 0)
    ensures part == Parts(name)[0]
  {
    FirstPart(name);
    var first := Parts(name)[0];
    assert forall k | 0 <= k < |part| :: name[k] == name[0..|part|][k] == part[k];
    assert forall k | 0 <= k < |first| :: name[k] == name[0..|first|][k] == first[k];
    assert |first| == |part|;
  }

  lemma StandsInRest(name: string, part: string, i: nat)
    requires name != [] && i > 0 && (i > 1 || name[0] == '.')
    ensures Stands(name, part, i) <==> Stands(name[1..], part, i - 1)
  {
    assert i + |part| <= |name| ==> name[i..i + |part|] == name[1..][i - 1..i - 1 + |part|];
  }

  /** The parts of a name are what stands in it between dots. */
  lemma {:induction false} PartsIff(name: string, part: string)
    ensures part in Parts(name) <==> exists i: nat :: Stands(name, part, i)
    ensures part in Parts(name)[1..] <==> exists i: nat :: i > 0 && Stands(name, part, i)
  {
    FirstPart(name);
    if name == [] {
      assert Stands("", "", 0);
      assert Parts(name)[1..] == [];
    } else {
      var rest := name[1..];
      PartsIff(rest, part);
      if name[0] == '.' {
        DotFirst(name, part);
      } else {
        DotLater(name, part);
      }
    }
    if Stands(name, part, 0) {
      OnlyFirstPart(name, part);
    }
    assert Parts(name) == [Parts(name)[0]] + Parts(name)[1..];
  }

  lemma DotFirst(name: string, part: string)
    requires name != [] && name[0] == '.'
    requires part in Parts(name[1..]) <==> exists i: nat :: Stands(name[1..], part, i)
    ensures part in Parts(name)[1..] <==> exists i: nat :: i > 0 && Stands(name, part, i)
  {
    assert Parts(name)[1..] == Parts(name[1..]);
    forall i: nat | i > 0
      ensures Stands(name, part, i) <==> Stands(name[1..], part, i - 1)
    {
      StandsInRest(name, part, i);
    }
    if i: nat :| Stands(name[1..], part, i) {
      assert Stands(name, part, i + 1);
    }
  }

  lemma DotLater(name: string, part: string)
    requires name != [] && name[0] != '.'
    requires part in Parts(name[1..])[1..] <==> exists i: nat :: i > 0 && Stands(name[1..], part, i)
    ensures part in Parts(name)[1..] <==> exists i: nat :: i > 0 && Stands(name, part, i)
  {
    assert Parts(name)[1..] == Parts(name[1..])[1..];
    forall i: nat | i > 1
      ensures Stands(name, part, i) <==> Stands(name[1..], part, i - 1)
    {
      StandsInRest(name, part, i);
    }
    if i: nat :| i > 0 && Stands(name[1..], part, i) {
      assert Stands(name, part, i + 1);
    }
  }

  /** Some part of the name is the label of a device that still waits. */
  predicate NamesIsolated(name: string, members: seq<Entry>) {
    exists e <- members :: Isolated(members, e.ip) && e.dnsName.Some? && e.dnsName.value in Parts(name)
  }

  function Aliases(aliases: seq<Alias>, members: seq<Entry>): (r: seq<Alias>)
    ensures forall x :: x in r <==> x in aliases && !NamesIsolated(x.name, members)
  {
    if aliases == [] then []
    else
      var last := aliases[|aliases| - 1];
      assert aliases == aliases[..|aliases| - 1] + [last];
      Aliases(aliases[..|aliases| - 1], members) + if NamesIsolated(last.name, members) then [] else [last]
  }

  /** An alias is withheld exactly if the label of a device that waits stands in it between dots. */
  lemma AliasIsHeldBackIff(aliases: seq<Alias>, members: seq<Entry>, x: Alias)
    requires x in aliases
    ensures x !in Aliases(aliases, members) <==>
      exists e <- members, i: nat ::
        (exists w <- members :: w.ip == e.ip && w.awaitingApproval) && e.dnsName.Some? && Stands(x.name, e.dnsName.value, i)
  {
    forall e | e in members && e.dnsName.Some?
      ensures e.dnsName.value in Parts(x.name) <==> exists i: nat :: Stands(x.name, e.dnsName.value, i)
    {
      PartsIff(x.name, e.dnsName.value);
    }
  }

  method LedgerMessageFor(dist: Distribution, recipient: Address) returns (message: Message)
    ensures message == Message(
      Lines(dist.members, dist, recipient), Names(dist.dnsRecords, dist.members),
      Aliases(dist.aliases, dist.members), dist.displayName, dist.permGroups)
  {
    var members := VisibleLines(dist, recipient);
    var names := VisibleNames(dist);
    var aliases := VisibleAliases(dist);
    message := Message(members, names, aliases, dist.displayName, dist.permGroups);
  }

  method VisibleLines(dist: Distribution, recipient: Address) returns (members: seq<Entry>)
    ensures members == Lines(dist.members, dist, recipient)
  {
    var admin := exists m <- dist.members :: m.ip == recipient && m.isAdmin;
    members := [];
    for i := 0 to |dist.members|
      invariant members == Lines(dist.members[..i], dist, recipient)
    {
      assert dist.members[..i + 1][..i] == dist.members[..i];
      if admin || !Isolated(dist.members, dist.members[i].ip) {
        var line := Shown(dist.members[i], dist, recipient);
        members := members + [line];
      }
    }
    assert dist.members[..|dist.members|] == dist.members;
  }

  method VisibleAliases(dist: Distribution) returns (aliases: seq<Alias>)
    ensures aliases == Aliases(dist.aliases, dist.members)
  {
    aliases := [];
    for i := 0 to |dist.aliases|
      invariant aliases == Aliases(dist.aliases[..i], dist.members)
    {
      assert dist.aliases[..i + 1][..i] == dist.aliases[..i];
      if !NamesIsolated(dist.aliases[i].name, dist.members) {
        aliases := aliases + [dist.aliases[i]];
      }
    }
    assert dist.aliases[..|dist.aliases|] == dist.aliases;
  }

  method Shown(e: Entry, dist: Distribution, recipient: Address) returns (entry: Entry)
    ensures entry == Line(e, dist, recipient)
  {
    entry := e;
    if Barred(dist.deny, recipient, e.ip) {
      entry := entry.(endpoint := None, endpointAgeSecs := None, blocked := true);
    }
    var rule := FirstJoining(dist.forceRelay, recipient, e.ip);
    if rule.Some? {
      entry := entry.(endpoint := None, endpointAgeSecs := None, forceRelay := true, aclRule := rule);
    }
  }

  method VisibleNames(dist: Distribution) returns (names: seq<(string, Address)>)
    ensures names == Names(dist.dnsRecords, dist.members)
  {
    names := [];
    for i := 0 to |dist.dnsRecords|
      invariant names == Names(dist.dnsRecords[..i], dist.members)
    {
      assert dist.dnsRecords[..i + 1][..i] == dist.dnsRecords[..i];
      if !Isolated(dist.members, dist.dnsRecords[i].1) {
        names := names + [dist.dnsRecords[i]];
      }
    }
    assert dist.dnsRecords[..|dist.dnsRecords|] == dist.dnsRecords;
  }

  // ----- direct traffic is traffic without rules -----

  /** An enabled rule that concerns the two and was given a name of the kind kept for denied pairs. */
  ghost predicate Poses(config: Config, rule: Rule, a: Address, b: Address) {
    && rule in config.rules && rule.enabled && IsLegacy(rule.id)
    && ResolveRule(config, rule).Some? && Touches(ResolveRule(config, rule).value, a, b)
  }

  /** No rule whatever concerns the two. */
  ghost predicate Free(policy: Policy, a: Address, b: Address) {
    policy.fallback == Allow && forall r <- policy.rules :: !Touches(r, a, b)
  }

  lemma FreeIsAllowed(policy: Policy, a: Address, b: Address, protocol: nat, port: Option<nat>)
    requires Free(policy, a, b)
    ensures Evaluated(policy, a, b, protocol, port) == Decision(Allow, None)
    ensures Evaluated(policy, b, a, protocol, port) == Decision(Allow, None)
  {
    if Evaluated(policy, a, b, protocol, port).ruleId.Some? {
      var j := DeciderOf(policy, a, b, protocol, port);
    }
    if Evaluated(policy, b, a, protocol, port).ruleId.Some? {
      var j := DeciderOf(policy, b, a, protocol, port);
    }
  }

  lemma MirroredDenies(config: Config, k: nat, back: bool, a: Address, b: Address)
    requires Compiled(config).Some? && k < |NormalizedDeny(config)|
    requires Touches(LegacyRuleFor(config, k, back), a, b)
    ensures ControlDenied(Compiled(config).value, a, b)
  {
    var turn := if Between(LegacyRuleFor(config, k, back), a, b) then back else !back;
    LegacyDecides(config, k, turn, a, b, TCP, Some(CONTROL_PORT));
    LegacyDecides(config, k, !turn, b, a, TCP, Some(CONTROL_PORT));
  }

  /** Behind the rules for denied pairs each rule of the policy is an enabled one of the configuration. */
  lemma RuleOf(config: Config, i: nat) returns (rule: Rule)
    requires Compiled(config).Some? && 2 * |NormalizedDeny(config)| <= i < |Compiled(config).value.rules|
    ensures rule in config.rules && rule.enabled && ResolveRule(config, rule) == Some(Compiled(config).value.rules[i])
  {
    RulesCount(config);
    var k := i - 2 * |NormalizedDeny(config)|;
    rule := EnabledOf(config.rules)[k];
    assert rule in EnabledOf(config.rules);
    OwnRuleAt(config, k);
  }

  lemma RuleIsThere(config: Config, rule: Rule)
    requires Compiled(config).Some? && rule in config.rules && rule.enabled
    ensures ResolveRule(config, rule).Some? && ResolveRule(config, rule).value in Compiled(config).value.rules
  {
    assert rule in EnabledOf(config.rules);
    var k: nat :| k < |EnabledOf(config.rules)| && EnabledOf(config.rules)[k] == rule;
    OwnRuleAt(config, k);
  }

  /** If only denied pairs concern the two, even the control connection is denied. */
  lemma OnlyLegacyDenies(config: Config, a: Address, b: Address, i: nat)
    requires Compiled(config).Some? && i < |Compiled(config).value.rules| && Touches(Compiled(config).value.rules[i], a, b)
    requires !Relevant(Compiled(config).value, a, b)
    ensures ControlDenied(Compiled(config).value, a, b) || exists rule :: Poses(config, rule, a, b) && ResolveRule(config, rule).value == Compiled(config).value.rules[i]
  {
    var policy := Compiled(config).value;
    assert policy.rules[i] in policy.rules;
    if i >= 2 * |NormalizedDeny(config)| {
      var rule := RuleOf(config, i);
      assert Poses(config, rule, a, b);
    } else {
      assert i == Place(i / 2, i % 2 == 1);
      LegacyRuleAt(config, i / 2, i % 2 == 1);
      MirroredDenies(config, i / 2, i % 2 == 1, a, b);
    }
  }

  /** What concerns a pair shows in one of three ways. */
  lemma FreeIff(config: Config, a: Address, b: Address)
    requires Compiled(config).Some?
    ensures
      var policy := Compiled(config).value;
      Free(policy, a, b) <==>
        !Relevant(policy, a, b) && !ControlDenied(policy, a, b) && !exists rule :: Poses(config, rule, a, b)
  {
    var policy := Compiled(config).value;
    if Free(policy, a, b) {
      FreeIsAllowed(policy, a, b, TCP, Some(CONTROL_PORT));
      if rule :| Poses(config, rule, a, b) {
        RuleIsThere(config, rule);
      }
    } else if policy.fallback == Allow {
      var i: nat :| i < |policy.rules| && Touches(policy.rules[i], a, b);
      if !Relevant(policy, a, b) {
        OnlyLegacyDenies(config, a, b, i);
      }
    }
  }

  /** For a pair the host denies by address even the control connection is denied. */
  lemma DeniedIsControlDenied(config: Config, p: (Address, Address))
    requires Compiled(config).Some? && p in NormalizedDeny(config)
    ensures ControlDenied(Compiled(config).value, p.0, p.1)
  {
    var i: nat :| i < |NormalizedDeny(config)| && NormalizedDeny(config)[i] == p;
    MirroredDenies(config, i, false, p.0, p.1);
  }

  /** The host keeps the two from direct traffic. */
  ghost predicate Shut(dist: Distribution, a: Address, b: Address) {
    Barred(dist.deny, a, b) || exists f <- dist.forceRelay :: Joins(f, a, b)
  }

  /** Two members are kept apart exactly if a rule of the fine-grained kind matters to them or the control connection is denied. */
  lemma ShutIff(config: Config, dist: Distribution, i: nat, j: nat)
    requires Compiled(config).Some? && Distributes(config, Compiled(config).value, dist)
    requires i < |MemberIps(config.peers)| && j < |MemberIps(config.peers)| && i != j
    ensures
      var policy, a, b := Compiled(config).value, MemberIps(config.peers)[i], MemberIps(config.peers)[j];
      Shut(dist, a, b) <==> Relevant(policy, a, b) || ControlDenied(policy, a, b)
  {
    var policy, ips := Compiled(config).value, MemberIps(config.peers);
    var a, b := ips[i], ips[j];
    assert IsPair(ips, a, b) || IsPair(ips, b, a);
    if Shut(dist, a, b) {
      ShutHasReason(config, dist, a, b);
    }
    if Relevant(policy, a, b) {
      var f := if IsPair(ips, a, b) then (a, b, FirstTouching(policy.rules, a, b)) else (b, a, FirstTouching(policy.rules, b, a));
      assert f in dist.forceRelay && Joins(f, a, b);
    }
    if ControlDenied(policy, a, b) {
      assert DeniedPair(policy, ips, Ordered((a, b)));
    }
  }

  lemma ShutHasReason(config: Config, dist: Distribution, a: Address, b: Address)
    requires Compiled(config).Some? && Distributes(config, Compiled(config).value, dist) && Shut(dist, a, b)
    ensures Relevant(Compiled(config).value, a, b) || ControlDenied(Compiled(config).value, a, b)
  {
    if (a, b) in NormalizedDeny(config) {
      DeniedIsControlDenied(config, (a, b));
    }
    if (b, a) in NormalizedDeny(config) {
      DeniedIsControlDenied(config, (b, a));
    }
  }

  /** One member learns where the other is to be found exactly if no such rule matters and the control connection is not denied. */
  lemma EndpointIsToldIff(config: Config, dist: Distribution, i: nat, j: nat, e: Entry)
    requires Compiled(config).Some? && Distributes(config, Compiled(config).value, dist)
    requires i < |MemberIps(config.peers)| && j < |MemberIps(config.peers)| && i != j && e.ip == MemberIps(config.peers)[j]
    ensures
      var policy, a := Compiled(config).value, MemberIps(config.peers)[i];
      Line(e, dist, a).endpoint == if Relevant(policy, a, e.ip) || ControlDenied(policy, a, e.ip) then None else e.endpoint
  {
    ShutIff(config, dist, i, j);
  }

  /** That a pair is not kept apart although some rule concerns it happens exactly if a posing rule does and nothing else. */
  lemma OpenThoughRuledIff(config: Config, dist: Distribution, i: nat, j: nat)
    requires Compiled(config).Some? && Distributes(config, Compiled(config).value, dist)
    requires i < |MemberIps(config.peers)| && j < |MemberIps(config.peers)| && i != j
    ensures
      var policy, a, b := Compiled(config).value, MemberIps(config.peers)[i], MemberIps(config.peers)[j];
      !Shut(dist, a, b) && !Free(policy, a, b) <==>
        !Relevant(policy, a, b) && !ControlDenied(policy, a, b) && exists rule :: Poses(config, rule, a, b)
  {
    ShutIff(config, dist, i, j);
    FreeIff(config, MemberIps(config.peers)[i], MemberIps(config.peers)[j]);
  }

  /** A packet between two members that are not kept apart is allowed by default, or decided by a posing rule. */
  lemma OpenIsAllowed(config: Config, a: Address, b: Address, src: Address, dst: Address, protocol: nat, port: Option<nat>)
    requires Compiled(config).Some? && !Relevant(Compiled(config).value, a, b) && !ControlDenied(Compiled(config).value, a, b)
    requires (src == a && dst == b) || (src == b && dst == a)
    ensures
      var d := Evaluated(Compiled(config).value, src, dst, protocol, port);
      d == Decision(Allow, None) || exists rule :: Poses(config, rule, a, b) && d == Decision(rule.action, Some(rule.id))
  {
    var policy := Compiled(config).value;
    if Evaluated(policy, src, dst, protocol, port).ruleId.Some? {
      var j := DeciderOf(policy, src, dst, protocol, port);
      OnlyLegacyDenies(config, a, b, j);
    }
  }

  /** Each direct peer stands on some line of the ledger that tells its endpoint. */
  lemma PeerWasTold(
    lines: seq<Entry>, self: Direct.Key, subnet: set<Address>, receivedAt: nat,
    v: Snapshot, v': Snapshot, others: set<Direct.Key>, alive: map<Direct.Key, bool>, now: nat, k: Direct.Key)
    returns (x: Entry)
    requires
      var desired := DesiredOf(lines, self, subnet, now, receivedAt);
      && Consistent(v, others) && AllStable(v, desired) && desired.Keys !! others
      && Ticked(v, v', desired, alive, {}, now)
    requires k in v'.states
    ensures x in lines && x.key == k && x.endpoint.Some? && x.ip == v'.states[k].ip
  {
    var desired := DesiredOf(lines, self, subnet, now, receivedAt);
    AfterTickOne(v, v', others, desired, alive, now, k);
    x :| x in lines && x.key == k && Eligible(x, self, subnet, now, receivedAt) && x.ip == desired[k].ip;
  }

  /**
    After any tick in which its tunnel obeys, a member that works from the host's ledger has only
    such direct peers that every packet between the two, either way, is allowed by default, unless
    an enabled rule with a reserved name concerns them and decides it.
  */
  lemma DirectMeansAllowed(
    config: Config, dist: Distribution, i: nat, j: nat, self: Direct.Key, subnet: set<Address>, receivedAt: nat,
    v: Snapshot, v': Snapshot, others: set<Direct.Key>, alive: map<Direct.Key, bool>, now: nat, k: Direct.Key,
    there: bool, protocol: nat, port: Option<nat>)
    requires Compiled(config).Some? && Distributes(config, Compiled(config).value, dist)
    requires i < |MemberIps(config.peers)| && j < |MemberIps(config.peers)| && i != j
    requires
      var desired := DesiredOf(Lines(dist.members, dist, MemberIps(config.peers)[i]), self, subnet, now, receivedAt);
      && Consistent(v, others) && AllStable(v, desired) && desired.Keys !! others
      && Ticked(v, v', desired, alive, {}, now)
    requires k in v'.states && v'.states[k].ip == MemberIps(config.peers)[j]
    ensures
      var a, b := MemberIps(config.peers)[i], MemberIps(config.peers)[j];
      var d := Evaluated(Compiled(config).value, if there then a else b, if there then b else a, protocol, port);
      d == Decision(Allow, None) || exists rule :: Poses(config, rule, a, b) && d == Decision(rule.action, Some(rule.id))
  {
    var a, b := MemberIps(config.peers)[i], MemberIps(config.peers)[j];
    var x := PeerWasTold(Lines(dist.members, dist, a), self, subnet, receivedAt, v, v', others, alive, now, k);
    var e :| e in dist.members && Visible(e, dist.members, a) && x == Line(e, dist, a);
    EndpointIsToldIff(config, dist, i, j, e);
    OpenIsAllowed(config, a, b, if there then a else b, if there then b else a, protocol, port);
  }

  /**
    The other way round: a pair that goes out as barred has no direct peer after a tick, on either
    side, however long it was established, provided that the key stands on no line but the barred one.
  */
  lemma BarredIsNotDirect(
    dist: Distribution, recipient: Address, barred: Address, self: Direct.Key, subnet: set<Address>, receivedAt: nat,
    s: Slot, k: Direct.Key, alive: bool, now: nat)
    requires Shut(dist, recipient, barred)
    requires forall e <- dist.members | e.key == k :: e.ip == barred
    ensures
      var desired := DesiredOf(Lines(dist.members, dist, recipient), self, subnet, now, receivedAt);
      var s' := Stepped(s, Signal(Lookup(desired, k), alive, true, now));
      s'.peer.None? && (s.peer.Some? ==> s'.wg.None?)
  {
    var lines := Lines(dist.members, dist, recipient);
    var desired := DesiredOf(lines, self, subnet, now, receivedAt);
    forall x <- lines | x.key == k
      ensures x.endpoint.None?
    {
      var e :| e in dist.members && Visible(e, dist.members, recipient) && x == Line(e, dist, recipient);
      assert x.key == e.key == k;
    }
    assert k !in desired;
  }

  // ----- a rule may be named as if it came from a denied pair -----

  function Posing(id: string): Config {
    Config([], Allow, [], [Rule(id, Deny, Any("any"), Any("any"), Icmp, [], true)],
           [PeerConfig(1, [Net(1, 32)], []), PeerConfig(2, [Net(2, 32)], [])], [])
  }

  function PosingPolicy(id: string): Policy {
    Policy(Allow, [Resolved(id, Deny, [], [], Icmp, [])])
  }

  lemma PosingCompiles(id: string)
    requires ValidId(id)
    ensures Compiled(Posing(id)) == Some(PosingPolicy(id))
  {
    var config := Posing(id);
    var rule := config.rules[0];
    assert ResolveRule(config, rule) == Some(PosingPolicy(id).rules[0]);
    OneRule(config, rule);
  }

  lemma OneRule(config: Config, rule: Rule)
    requires rule.enabled && ResolveRule(config, rule).Some?
    ensures ResolveRules(config, [rule]) == Some([ResolveRule(config, rule).value])
  {
    var rules, x := [rule], ResolveRule(config, rule).value;
    assert rules[..|rules| - 1] == [];
    assert [] + [x] == [x];
  }

  /** Such names are taken like any others. */
  lemma PosingNamesAreValid(id: string)
    requires IsLegacy(id) && |id| <= 16
    ensures ValidId(id)
  {
    Utf8AtMostFour(id);
    assert id[0] == LEGACY[0] && id[0] in id && !IsSpace(id[0]);
  }

  lemma PosingBarsNobody(id: string, dist: Distribution)
    requires IsLegacy(id) && Distributes(Posing(id), PosingPolicy(id), dist)
    ensures !Shut(dist, 1, 2)
  {
    var policy := PosingPolicy(id);
    assert !Relevant(policy, 1, 2) && !Relevant(policy, 2, 1);
    assert !Applies(policy.rules[0], 1, 2, TCP, Some(CONTROL_PORT));
    assert !Applies(policy.rules[0], 2, 1, TCP, Some(CONTROL_PORT));
  }

  /** Names are not checked for this, and then a pair is told its endpoints although packets between the two are denied. */
  lemma PosingRuleIsBypassed(id: string, dist: Distribution, e: Entry)
    requires ValidId(id) && IsLegacy(id) && e.ip == 2
    requires Distributes(Posing(id), PosingPolicy(id), dist)
    ensures Compiled(Posing(id)) == Some(PosingPolicy(id))
    ensures Evaluated(PosingPolicy(id), 1, 2, 1, None).action == Deny
    ensures Line(e, dist, 1).endpoint == e.endpoint
  {
    PosingCompiles(id);
    assert Applies(PosingPolicy(id).rules[0], 1, 2, 1, None);
    PosingBarsNobody(id, dist);
  }
}
