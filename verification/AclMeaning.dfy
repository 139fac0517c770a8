/**
  What a configuration of access rules means, told from its own peers, groups, records and rules, and
  that the compiled policy decides by just that (crates/peercove-core/src/acl.rs, 271-341 and 374-470).
*/
module AclMeaning {
  import opened Options
  import opened AclPolicy
  import Numerals

  // ----- what a target names -----

  /** The addresses of a network are an interval: as many bits as the prefix says are fixed. */
  ghost predicate Within(net: Net, ip: Ip) {
    net.prefix <= 32 &&
    var size := Pow2(32 - net.prefix);
    var first := net.addr - net.addr % size;
    first <= ip < first + size
  }

  ghost predicate FirstPeer(peers: seq<PeerConfig>, key: Key, k: nat) {
    k < |peers| && peers[k].key == key && forall m | 0 <= m < k :: peers[m].key != key
  }

  ghost predicate FirstGroup(groups: seq<GroupConfig>, id: string, k: nat) {
    k < |groups| && groups[k].id == id && forall m | 0 <= m < k :: groups[m].id != id
  }

  ghost predicate FirstRecord(records: seq<Record>, id: string, k: nat) {
    k < |records| && records[k].id == Some(id) && forall m | 0 <= m < k :: records[m].id != Some(id)
  }

  /** The network is one of the member's own or one behind it. */
  ghost predicate HasNet(config: Config, key: Key, net: Net) {
    exists k: nat :: FirstPeer(config.peers, key, k) && (net in config.peers[k].allowedIps || net in config.peers[k].subnets)
  }

  /** A service is at its fixed address, or else at the first network of its member. */
  ghost predicate ServedAt(config: Config, record: Record, net: Net) {
    match record.ip
    case Some(ip) => net == Net(ip, 32)
    case None =>
      record.member.Some? &&
      exists k: nat ::
        FirstPeer(config.peers, record.member.value, k) && IsFirst(config.peers[k].allowedIps + config.peers[k].subnets, net)
  }

  ghost predicate IsFirst(nets: seq<Net>, net: Net) {
    nets != [] && nets[0] == net
  }

  ghost predicate Names(config: Config, target: Target, net: Net) {
    match target
    case Any(_) => false
    case Member(key) => HasNet(config, key, net)
    case Group(id) =>
      exists k: nat :: FirstGroup(config.groups, id, k) && exists key <- config.groups[k].members :: HasNet(config, key, net)
    case Subnet(n) => net == n
    case Service(id) => exists k: nat :: FirstRecord(config.records, id, k) && ServedAt(config, config.records[k], net)
  }

  ghost predicate Denotes(config: Config, target: Target, ip: Ip) {
    target.Any? || exists net :: Names(config, target, net) && Within(net, ip)
  }

  /** The target was resolved, but to no network at all. */
  ghost predicate Nameless(config: Config, target: Target) {
    !target.Any? && forall net :: !Names(config, target, net)
  }

  ghost predicate Concerned(config: Config, target: Target, ip: Ip) {
    Denotes(config, target, ip) || Nameless(config, target)
  }

  /** The rule, as it is written, concerns the packet. */
  ghost predicate Concerns(config: Config, rule: Rule, src: Ip, dst: Ip, protocol: nat, port: Option<nat>) {
    && Concerned(config, rule.source, src) && Concerned(config, rule.destination, dst)
    && (match rule.protocol
        case AnyProtocol => true
        case Tcp => protocol == 6
        case Udp => protocol == 17
        case Icmp => protocol == 1)
    && (rule.ports == [] || (port.Some? && exists text <- rule.ports :: Covering(text, port.value)))
  }

  ghost predicate Covering(text: string, port: nat) {
    ParseRange(text).Some? && ParseRange(text).value.0 <= port <= ParseRange(text).value.1
  }

  // ----- the networks of a target -----

  lemma QuotientIff(a: nat, b: nat, size: nat)
    requires size > 0
    ensures a / size == b / size <==> a - a % size <= b < a - a % size + size
  {
    var q := a / size;
    assert a - a % size == q * size && (q + 1) * size == q * size + size;
    if q * size <= b < (q + 1) * size {
      Numerals.Quotient(b, size, q);
    }
  }

  lemma ContainsIff(net: Net, ip: Ip)
    ensures Contains(net, ip) <==> Within(net, ip)
  {
    if net.prefix <= 32 {
      QuotientIff(net.addr, ip, Pow2(32 - net.prefix));
    }
  }

  lemma {:induction false} FindPeerIs(peers: seq<PeerConfig>, key: Key)
    ensures match FindPeer(peers, key)
      case None => forall peer <- peers :: peer.key != key
      case Some(peer) => exists k: nat :: FirstPeer(peers, key, k) && peers[k] == peer
  {
    if peers != [] {
      FindPeerIs(peers[1..], key);
      if peers[0].key == key {
        assert FirstPeer(peers, key, 0);
      } else if FindPeer(peers[1..], key).Some? {
        var k: nat :| FirstPeer(peers[1..], key, k) && peers[1..][k] == FindPeer(peers[1..], key).value;
        assert FirstPeer(peers, key, k + 1);
      }
    }
  }

  lemma {:induction false} FindGroupIs(groups: seq<GroupConfig>, id: string)
    ensures match FindGroup(groups, id)
      case None => forall group <- groups :: group.id != id
      case Some(group) => exists k: nat :: FirstGroup(groups, id, k) && groups[k] == group
  {
    if groups != [] {
      FindGroupIs(groups[1..], id);
      if groups[0].id == id {
        assert FirstGroup(groups, id, 0);
      } else if FindGroup(groups[1..], id).Some? {
        var k: nat :| FirstGroup(groups[1..], id, k) && groups[1..][k] == FindGroup(groups[1..], id).value;
        assert FirstGroup(groups, id, k + 1);
      }
    }
  }

  lemma {:induction false} FindRecordIs(records: seq<Record>, id: string)
    ensures match FindRecord(records, id)
      case None => forall record <- records :: record.id != Some(id)
      case Some(record) => exists k: nat :: FirstRecord(records, id, k) && records[k] == record
  {
    if records != [] {
      FindRecordIs(records[1..], id);
      if records[0].id == Some(id) {
        assert FirstRecord(records, id, 0);
      } else if FindRecord(records[1..], id).Some? {
        var k: nat :| FirstRecord(records[1..], id, k) && records[1..][k] == FindRecord(records[1..], id).value;
        assert FirstRecord(records, id, k + 1);
      }
    }
  }

  lemma PeerNetworksAre(config: Config, key: Key, net: Net)
    ensures PeerNetworks(config, key).Some? ==> (net in PeerNetworks(config, key).value <==> HasNet(config, key, net))
    ensures PeerNetworks(config, key).None? ==> !HasNet(config, key, net)
  {
    FindPeerIs(config.peers, key);
    if FindPeer(config.peers, key).Some? {
      var k: nat :| FirstPeer(config.peers, key, k) && config.peers[k] == FindPeer(config.peers, key).value;
      assert forall m: nat | FirstPeer(config.peers, key, m) :: m == k;
    }
  }

  lemma GroupNames(config: Config, members: seq<Key>, net: Net)
    ensures net in GroupNetworks(config, members) <==> exists key <- members :: HasNet(config, key, net)
  {
    GroupNetworksAre(config, members, net);
    forall key <- members
      ensures PeerNetworks(config, key).Some? && net in PeerNetworks(config, key).value <==> HasNet(config, key, net)
    {
      PeerNetworksAre(config, key, net);
    }
  }

  lemma ServiceNames(config: Config, record: Record, net: Net)
    requires record.ip.None? && record.member.Some? && PeerNetworks(config, record.member.value).Some?
    ensures
      var nets := PeerNetworks(config, record.member.value).value;
      ServedAt(config, record, net) <==> IsFirst(nets, net)
  {
    FindPeerIs(config.peers, record.member.value);
    var key := record.member.value;
    var k: nat :| FirstPeer(config.peers, key, k) && config.peers[k] == FindPeer(config.peers, key).value;
    assert forall m: nat | FirstPeer(config.peers, key, m) :: m == k;
  }

  lemma ServiceTargetNames(config: Config, id: string, net: Net)
    requires ResolveTarget(config, Service(id), true).Some?
    ensures net in ResolveTarget(config, Service(id), true).value <==> Names(config, Service(id), net)
  {
    FindRecordIs(config.records, id);
    var record := FindRecord(config.records, id).value;
    var k: nat :| FirstRecord(config.records, id, k) && config.records[k] == record;
    assert forall m: nat | FirstRecord(config.records, id, m) :: m == k;
    if record.ip.None? {
      ServiceNames(config, record, net);
    }
  }

  lemma GroupTargetNames(config: Config, id: string, net: Net)
    requires FindGroup(config.groups, id).Some?
    ensures net in GroupNetworks(config, FindGroup(config.groups, id).value.members) <==> Names(config, Group(id), net)
  {
    FindGroupIs(config.groups, id);
    var k: nat :| FirstGroup(config.groups, id, k) && config.groups[k] == FindGroup(config.groups, id).value;
    assert forall m: nat | FirstGroup(config.groups, id, m) :: m == k;
    GroupNames(config, config.groups[k].members, net);
  }

  /** A target resolves to exactly the networks it names. */
  lemma ResolvedNames(config: Config, target: Target, destination: bool, net: Net)
    requires ResolveTarget(config, target, destination).Some?
    ensures net in ResolveTarget(config, target, destination).value <==> Names(config, target, net)
  {
    match target
    case Any(_) =>
    case Member(key) => PeerNetworksAre(config, key, net);
    case Group(id) => GroupTargetNames(config, id, net);
    case Subnet(_) =>
    case Service(id) => ServiceTargetNames(config, id, net);
  }

  /** So it matches what it denotes, and everything if it names no network. */
  lemma ResolvedMatchesIff(config: Config, target: Target, destination: bool, ip: Ip)
    requires ResolveTarget(config, target, destination).Some?
    ensures MatchesIp(ResolveTarget(config, target, destination).value, ip) <==> Concerned(config, target, ip)
  {
    var nets := ResolveTarget(config, target, destination).value;
    forall net
      ensures net in nets <==> Names(config, target, net)
      ensures Contains(net, ip) <==> Within(net, ip)
    {
      ResolvedNames(config, target, destination, net);
      ContainsIff(net, ip);
    }
    if nets != [] {
      assert nets[0] in nets;
    }
  }

  /** A target means what it denotes, for every address, exactly if it names some network. */
  lemma MeansWhatItDenotesIff(config: Config, target: Target, destination: bool)
    requires ResolveTarget(config, target, destination).Some?
    ensures
      (forall ip: Ip :: MatchesIp(ResolveTarget(config, target, destination).value, ip) <==> Denotes(config, target, ip))
      <==> !Nameless(config, target)
  {
    forall ip: Ip
      ensures MatchesIp(ResolveTarget(config, target, destination).value, ip) <==> Concerned(config, target, ip)
    {
      ResolvedMatchesIff(config, target, destination, ip);
    }
    if Nameless(config, target) {
      assert MatchesIp(ResolveTarget(config, target, destination).value, 0) && !Denotes(config, target, 0);
    }
  }

  // ----- which targets resolve -----

  ghost predicate Registered(config: Config, key: Key) {
    exists peer <- config.peers :: peer.key == key
  }

  /** What the target refers to exists, and a service, which only a destination can be, has a port and an address. */
  ghost predicate Resolvable(config: Config, target: Target, destination: bool) {
    match target
    case Any(text) => text == "any"
    case Member(key) => Registered(config, key)
    case Group(id) => exists group <- config.groups :: group.id == id
    case Subnet(_) => true
    case Service(id) =>
      destination && exists k: nat :: FirstRecord(config.records, id, k) && Offered(config, config.records[k])
  }

  ghost predicate Offered(config: Config, record: Record) {
    !record.cname && record.port.Some? && (record.ip.Some? || (record.member.Some? && Registered(config, record.member.value)))
  }

  lemma RegisteredIff(config: Config, key: Key)
    ensures Registered(config, key) <==> PeerNetworks(config, key).Some?
  {
    FindPeerIs(config.peers, key);
  }

  lemma ServiceResolvesIff(config: Config, id: string)
    ensures ResolveTarget(config, Service(id), true).Some? <==> Resolvable(config, Service(id), true)
  {
    FindRecordIs(config.records, id);
    if FindRecord(config.records, id).Some? {
      var k: nat :| FirstRecord(config.records, id, k) && config.records[k] == FindRecord(config.records, id).value;
      assert forall m: nat | FirstRecord(config.records, id, m) :: m == k;
      if config.records[k].member.Some? {
        RegisteredIff(config, config.records[k].member.value);
      }
    }
  }

  lemma TargetResolvesIff(config: Config, target: Target, destination: bool)
    ensures ResolveTarget(config, target, destination).Some? <==> Resolvable(config, target, destination)
  {
    match target
    case Member(key) => RegisteredIff(config, key);
    case Group(id) => FindGroupIs(config.groups, id);
    case Service(id) => ServiceResolvesIff(config, id);
    case _ =>
  }

  // ----- what a rule means -----

  lemma {:induction false} PortsParsed(texts: seq<string>, port: nat)
    ensures ParsePorts(texts).Some? <==> forall text <- texts :: ParseRange(text).Some?
    ensures ParsePorts(texts).Some? ==>
      && (ParsePorts(texts).value == [] <==> texts == [])
      && ((exists range <- ParsePorts(texts).value :: range.0 <= port <= range.1) <==> exists text <- texts :: Covering(text, port))
  {
    if texts != [] {
      PortsParsed(texts[1..], port);
      assert texts == [texts[0]] + texts[1..];
      if ParsePorts(texts).Some? {
        var ranges := ParsePorts(texts).value;
        assert ranges == [ParseRange(texts[0]).value] + ParsePorts(texts[1..]).value;
        OneMoreRange(ParseRange(texts[0]).value, ParsePorts(texts[1..]).value, port);
        OneMoreText(texts, port);
      }
    }
  }

  lemma OneMoreRange(range: (nat, nat), ranges: seq<(nat, nat)>, port: nat)
    ensures (exists r <- [range] + ranges :: r.0 <= port <= r.1) <==>
      range.0 <= port <= range.1 || exists r <- ranges :: r.0 <= port <= r.1
  {
    assert ([range] + ranges)[0] == range;
    if r :| r in ranges && r.0 <= port <= r.1 {
      assert r in [range] + ranges;
    }
  }

  lemma OneMoreText(texts: seq<string>, port: nat)
    requires texts != []
    ensures (exists text <- texts :: Covering(text, port)) <==>
      Covering(texts[0], port) || exists text <- texts[1..] :: Covering(text, port)
  {
  }

  /** A rule is accepted exactly if its name, its ports and both its targets are in order. */
  lemma RuleResolvesIff(config: Config, rule: Rule)
    ensures ResolveRule(config, rule).Some? <==>
      && ValidId(rule.id) && (forall text <- rule.ports :: ParseRange(text).Some?)
      && (rule.ports == [] || rule.protocol.Tcp? || rule.protocol.Udp?)
      && Resolvable(config, rule.source, false) && Resolvable(config, rule.destination, true)
  {
    PortsParsed(rule.ports, 0);
    TargetResolvesIff(config, rule.source, false);
    TargetResolvesIff(config, rule.destination, true);
  }

  /** And then it concerns exactly the packets it is written for. */
  lemma RuleMeans(config: Config, rule: Rule, src: Ip, dst: Ip, protocol: nat, port: Option<nat>)
    requires ResolveRule(config, rule).Some?
    ensures Applies(ResolveRule(config, rule).value, src, dst, protocol, port) <==> Concerns(config, rule, src, dst, protocol, port)
  {
    ResolvedMatchesIff(config, rule.source, false, src);
    ResolvedMatchesIff(config, rule.destination, true, dst);
    PortsParsed(rule.ports, if port.Some? then port.value else 0);
  }

  // ----- what a denied pair means -----

  ghost predicate FirstHolder(peers: seq<PeerConfig>, a: Ip, k: nat) {
    && k < |peers| && (exists net <- peers[k].allowedIps :: Within(net, a))
    && forall m | 0 <= m < k :: !exists net <- peers[m].allowedIps :: Within(net, a)
  }

  /** The address is `a` or lies in a subnet behind the first member that holds `a`. */
  ghost predicate Behind(config: Config, a: Ip, ip: Ip) {
    ip == a || exists k: nat :: FirstHolder(config.peers, a, k) && exists net <- config.peers[k].subnets :: Within(net, ip)
  }

  lemma HolderIff(config: Config, a: Ip, k: nat)
    ensures Owner(config.peers, a, k) <==> FirstHolder(config.peers, a, k)
  {
    forall net
      ensures Contains(net, a) <==> Within(net, a)
    {
      ContainsIff(net, a);
    }
  }

  lemma {:induction false} NoHolder(peers: seq<PeerConfig>, a: Ip)
    requires forall k: nat :: !Owner(peers, a, k)
    ensures SideSubnets(peers, a) == []
  {
    if peers != [] {
      assert !Owner(peers, a, 0);
      forall k: nat
        ensures !Owner(peers[1..], a, k)
      {
        assert !Owner(peers, a, k + 1);
      }
      NoHolder(peers[1..], a);
    }
  }

  lemma SideMatchesIff(config: Config, a: Ip, ip: Ip)
    ensures MatchesIp(SideNetworks(config, a), ip) <==> Behind(config, a, ip)
  {
    var subnets := SideSubnets(config.peers, a);
    assert SideNetworks(config, a) == [Net(a, 32)] + subnets;
    assert Contains(Net(a, 32), ip) <==> ip == a;
    SideMatches(config, a, ip, subnets);
    forall net
      ensures Contains(net, ip) <==> Within(net, ip)
    {
      ContainsIff(net, ip);
    }
    if k: nat :| Owner(config.peers, a, k) {
      SideSubnetsAre(config.peers, a, k);
      HolderIff(config, a, k);
      assert forall m: nat | FirstHolder(config.peers, a, m) :: m == k;
    } else {
      NoHolder(config.peers, a);
      forall k: nat
        ensures !FirstHolder(config.peers, a, k)
      {
        HolderIff(config, a, k);
      }
    }
  }

  lemma SideMatches(config: Config, a: Ip, ip: Ip, subnets: seq<Net>)
    ensures MatchesIp([Net(a, 32)] + subnets, ip) <==> Contains(Net(a, 32), ip) || exists net <- subnets :: Contains(net, ip)
  {
    assert ([Net(a, 32)] + subnets)[0] == Net(a, 32);
    if net :| net in subnets && Contains(net, ip) {
      assert net in [Net(a, 32)] + subnets;
    }
  }

  /** The packet goes, either way, between the two sides of a denied pair. */
  ghost predicate DenyConcerns(config: Config, src: Ip, dst: Ip) {
    exists p <- config.deny :: (Behind(config, p.0, src) && Behind(config, p.1, dst)) || (Behind(config, p.0, dst) && Behind(config, p.1, src))
  }

  lemma LegacyRuleConcerns(config: Config, k: nat, back: bool, src: Ip, dst: Ip)
    requires k < |NormalizedDeny(config)| && Between(LegacyRuleFor(config, k, back), src, dst)
    ensures DenyConcerns(config, src, dst)
  {
    var q := NormalizedDeny(config)[k];
    assert q in OrderedAll(config.deny);
    var p :| p in config.deny && Ordered(p) == q;
    SideMatchesIff(config, q.0, src);
    SideMatchesIff(config, q.1, dst);
    SideMatchesIff(config, q.0, dst);
    SideMatchesIff(config, q.1, src);
  }

  lemma DenyConcernsDenies(config: Config, src: Ip, dst: Ip, protocol: nat, port: Option<nat>)
    requires Compiled(config).Some? && DenyConcerns(config, src, dst)
    ensures Evaluated(Compiled(config).value, src, dst, protocol, port).action == Deny
  {
    var p :| p in config.deny
      && ((Behind(config, p.0, src) && Behind(config, p.1, dst)) || (Behind(config, p.0, dst) && Behind(config, p.1, src)));
    var (a, b) := if Behind(config, p.0, src) && Behind(config, p.1, dst) then (src, dst) else (dst, src);
    SideMatchesIff(config, p.0, a);
    SideMatchesIff(config, p.1, b);
    DeniedPairsAreDenied(config, p, a, b, protocol, port);
  }

  // ----- the whole policy -----

  ghost predicate InForce(config: Config, i: nat, src: Ip, dst: Ip, protocol: nat, port: Option<nat>) {
    i < |config.rules| && config.rules[i].enabled && Concerns(config, config.rules[i], src, dst, protocol, port)
  }

  /** The first enabled rule of the configuration that concerns the packet. */
  ghost predicate Ruling(config: Config, i: nat, src: Ip, dst: Ip, protocol: nat, port: Option<nat>) {
    InForce(config, i, src, dst, protocol, port) && forall m: nat | m < i :: !InForce(config, m, src, dst, protocol, port)
  }

  /** No enabled rule of the configuration concerns the packet. */
  ghost predicate Unruled(config: Config, src: Ip, dst: Ip, protocol: nat, port: Option<nat>) {
    forall i: nat :: !InForce(config, i, src, dst, protocol, port)
  }

  ghost predicate ComesFromBefore(rules: seq<Rule>, i: nat, rule: Rule)
    requires i <= |rules|
  {
    exists j | 0 <= j < i :: rules[j].enabled && rules[j] == rule
  }

  /** Skipping the rules that are switched off changes nothing about the order. */
  lemma {:induction false} PlaceAmongEnabled(rules: seq<Rule>, i: nat) returns (k: nat)
    requires i < |rules| && rules[i].enabled
    ensures k < |EnabledOf(rules)| && EnabledOf(rules)[k] == rules[i]
    ensures forall m | 0 <= m < k :: ComesFromBefore(rules, i, EnabledOf(rules)[m])
  {
    var front := rules[..|rules| - 1];
    if i < |rules| - 1 {
      k := PlaceAmongEnabled(front, i);
      forall m | 0 <= m < k
        ensures ComesFromBefore(rules, i, EnabledOf(rules)[m])
      {
        assert ComesFromBefore(front, i, EnabledOf(front)[m]);
      }
    } else {
      k := |EnabledOf(front)|;
      forall m | 0 <= m < k
        ensures ComesFromBefore(rules, i, EnabledOf(rules)[m])
      {
        EnabledIsBefore(front, EnabledOf(front)[m]);
      }
    }
  }

  lemma EnabledIsBefore(rules: seq<Rule>, rule: Rule)
    requires rule in EnabledOf(rules)
    ensures ComesFromBefore(rules, |rules|, rule)
  {
    var j :| 0 <= j < |rules| && rules[j] == rule;
  }

  /** Behind the rules for denied pairs each enabled rule, in order, applies to exactly the packets it concerns. */
  lemma CompiledRuleMeans(config: Config, k: nat, src: Ip, dst: Ip, protocol: nat, port: Option<nat>)
    requires Compiled(config).Some? && k < |EnabledOf(config.rules)|
    ensures 2 * |NormalizedDeny(config)| + k < |Compiled(config).value.rules|
    ensures
      var r := Compiled(config).value.rules[2 * |NormalizedDeny(config)| + k];
      && r.id == EnabledOf(config.rules)[k].id && r.action == EnabledOf(config.rules)[k].action
      && (Applies(r, src, dst, protocol, port) <==> Concerns(config, EnabledOf(config.rules)[k], src, dst, protocol, port))
  {
    OwnRuleAt(config, k);
    RuleMeans(config, EnabledOf(config.rules)[k], src, dst, protocol, port);
  }

  lemma NoLegacyApplies(config: Config, i: nat, src: Ip, dst: Ip, protocol: nat, port: Option<nat>)
    requires Compiled(config).Some? && i < 2 * |NormalizedDeny(config)| && !DenyConcerns(config, src, dst)
    ensures i < |Compiled(config).value.rules| && !Applies(Compiled(config).value.rules[i], src, dst, protocol, port)
  {
    var k, back := i / 2, i % 2 == 1;
    assert i == Place(k, back);
    LegacyRuleAt(config, k, back);
    if Applies(Compiled(config).value.rules[i], src, dst, protocol, port) {
      LegacyRuleConcerns(config, k, back, src, dst);
    }
  }

  lemma OwnDoesNotApply(config: Config, k: nat, i: nat, src: Ip, dst: Ip, protocol: nat, port: Option<nat>)
    requires Compiled(config).Some? && k < |EnabledOf(config.rules)| && i == 2 * |NormalizedDeny(config)| + k
    requires !Concerns(config, EnabledOf(config.rules)[k], src, dst, protocol, port)
    ensures i < |Compiled(config).value.rules| && !Applies(Compiled(config).value.rules[i], src, dst, protocol, port)
  {
    CompiledRuleMeans(config, k, src, dst, protocol, port);
  }

  lemma EarlierDoesNotConcern(config: Config, i: nat, rule: Rule, src: Ip, dst: Ip, protocol: nat, port: Option<nat>)
    requires Ruling(config, i, src, dst, protocol, port) && ComesFromBefore(config.rules, i, rule)
    ensures !Concerns(config, rule, src, dst, protocol, port)
  {
    var j :| 0 <= j < i && config.rules[j].enabled && config.rules[j] == rule;
    assert !InForce(config, j, src, dst, protocol, port);
  }

  ghost predicate NoneBefore(config: Config, k: nat, src: Ip, dst: Ip, protocol: nat, port: Option<nat>) {
    k < |EnabledOf(config.rules)| && forall m | 0 <= m < k :: !Concerns(config, EnabledOf(config.rules)[m], src, dst, protocol, port)
  }

  lemma NoneBeforeApplies(config: Config, k: nat, i: nat, src: Ip, dst: Ip, protocol: nat, port: Option<nat>)
    requires Compiled(config).Some? && !DenyConcerns(config, src, dst) && NoneBefore(config, k, src, dst, protocol, port)
    requires i < 2 * |NormalizedDeny(config)| + k
    ensures i < |Compiled(config).value.rules| && !Applies(Compiled(config).value.rules[i], src, dst, protocol, port)
  {
    if i < 2 * |NormalizedDeny(config)| {
      NoLegacyApplies(config, i, src, dst, protocol, port);
    } else {
      OwnDoesNotApply(config, i - 2 * |NormalizedDeny(config)|, i, src, dst, protocol, port);
    }
  }

  /** None of the first `n` rules of the policy applies to the packet. */
  ghost predicate Skipped(policy: Policy, n: nat, src: Ip, dst: Ip, protocol: nat, port: Option<nat>) {
    n < |policy.rules| && forall i | 0 <= i < n :: !Applies(policy.rules[i], src, dst, protocol, port)
  }

  lemma AllSkipped(config: Config, k: nat, n: nat, src: Ip, dst: Ip, protocol: nat, port: Option<nat>)
    requires Compiled(config).Some? && !DenyConcerns(config, src, dst) && NoneBefore(config, k, src, dst, protocol, port)
    requires n == 2 * |NormalizedDeny(config)| + k
    ensures Skipped(Compiled(config).value, n, src, dst, protocol, port)
  {
    OwnRuleAt(config, k);
    forall i: nat | i < n
      ensures !Applies(Compiled(config).value.rules[i], src, dst, protocol, port)
    {
      NoneBeforeApplies(config, k, i, src, dst, protocol, port);
    }
  }

  /** The rule at place `n` applies to the packet and answers as `rule` says. */
  ghost predicate Answers(policy: Policy, n: nat, rule: Rule, src: Ip, dst: Ip, protocol: nat, port: Option<nat>) {
    && n < |policy.rules| && Applies(policy.rules[n], src, dst, protocol, port)
    && Decision(policy.rules[n].action, Some(policy.rules[n].id)) == Decision(rule.action, Some(rule.id))
  }

  lemma SkippedThenDecides(policy: Policy, n: nat, rule: Rule, src: Ip, dst: Ip, protocol: nat, port: Option<nat>)
    requires Skipped(policy, n, src, dst, protocol, port) && Answers(policy, n, rule, src, dst, protocol, port)
    ensures Evaluated(policy, src, dst, protocol, port) == Decision(rule.action, Some(rule.id))
  {
    assert Decides(policy, src, dst, protocol, port, n);
    FirstDecides(policy, src, dst, protocol, port);
  }

  lemma PlacedFirst(config: Config, i: nat, k: nat, src: Ip, dst: Ip, protocol: nat, port: Option<nat>)
    requires Ruling(config, i, src, dst, protocol, port) && k < |EnabledOf(config.rules)|
    requires forall m | 0 <= m < k :: ComesFromBefore(config.rules, i, EnabledOf(config.rules)[m])
    ensures NoneBefore(config, k, src, dst, protocol, port)
  {
    forall m | 0 <= m < k
      ensures !Concerns(config, EnabledOf(config.rules)[m], src, dst, protocol, port)
    {
      EarlierDoesNotConcern(config, i, EnabledOf(config.rules)[m], src, dst, protocol, port);
    }
  }

  lemma PlacedAnswers(config: Config, k: nat, n: nat, src: Ip, dst: Ip, protocol: nat, port: Option<nat>)
    requires Compiled(config).Some? && k < |EnabledOf(config.rules)| && n == 2 * |NormalizedDeny(config)| + k
    requires Concerns(config, EnabledOf(config.rules)[k], src, dst, protocol, port)
    ensures Answers(Compiled(config).value, n, EnabledOf(config.rules)[k], src, dst, protocol, port)
  {
    CompiledRuleMeans(config, k, src, dst, protocol, port);
  }

  lemma PlacedDecides(config: Config, k: nat, src: Ip, dst: Ip, protocol: nat, port: Option<nat>)
    requires Compiled(config).Some? && !DenyConcerns(config, src, dst) && NoneBefore(config, k, src, dst, protocol, port)
    requires Concerns(config, EnabledOf(config.rules)[k], src, dst, protocol, port)
    ensures Evaluated(Compiled(config).value, src, dst, protocol, port)
         == Decision(EnabledOf(config.rules)[k].action, Some(EnabledOf(config.rules)[k].id))
  {
    var n := 2 * |NormalizedDeny(config)| + k;
    PlacedAnswers(config, k, n, src, dst, protocol, port);
    AllSkipped(config, k, n, src, dst, protocol, port);
    SkippedThenDecides(Compiled(config).value, n, EnabledOf(config.rules)[k], src, dst, protocol, port);
  }

  lemma RulingDecides(config: Config, i: nat, src: Ip, dst: Ip, protocol: nat, port: Option<nat>)
    requires Compiled(config).Some? && !DenyConcerns(config, src, dst) && Ruling(config, i, src, dst, protocol, port)
    ensures Evaluated(Compiled(config).value, src, dst, protocol, port) == Decision(config.rules[i].action, Some(config.rules[i].id))
  {
    var k := PlaceAmongEnabled(config.rules, i);
    PlacedFirst(config, i, k, src, dst, protocol, port);
    PlacedDecides(config, k, src, dst, protocol, port);
  }

  lemma NoneConcerns(config: Config, m: nat, src: Ip, dst: Ip, protocol: nat, port: Option<nat>)
    requires m < |EnabledOf(config.rules)| && Unruled(config, src, dst, protocol, port)
    ensures !Concerns(config, EnabledOf(config.rules)[m], src, dst, protocol, port)
  {
    EnabledIsBefore(config.rules, EnabledOf(config.rules)[m]);
    var j :| 0 <= j < |config.rules| && config.rules[j].enabled && config.rules[j] == EnabledOf(config.rules)[m];
    assert !InForce(config, j, src, dst, protocol, port);
  }

  lemma OwnNeverApplies(config: Config, k: nat, i: nat, src: Ip, dst: Ip, protocol: nat, port: Option<nat>)
    requires Compiled(config).Some? && k < |EnabledOf(config.rules)| && i == 2 * |NormalizedDeny(config)| + k
    requires Unruled(config, src, dst, protocol, port)
    ensures i < |Compiled(config).value.rules| && !Applies(Compiled(config).value.rules[i], src, dst, protocol, port)
  {
    NoneConcerns(config, k, src, dst, protocol, port);
    OwnDoesNotApply(config, k, i, src, dst, protocol, port);
  }

  lemma NothingApplies(config: Config, m: nat, src: Ip, dst: Ip, protocol: nat, port: Option<nat>)
    requires Compiled(config).Some? && !DenyConcerns(config, src, dst) && m < |Compiled(config).value.rules|
    requires Unruled(config, src, dst, protocol, port)
    ensures !Applies(Compiled(config).value.rules[m], src, dst, protocol, port)
  {
    if m < 2 * |NormalizedDeny(config)| {
      NoLegacyApplies(config, m, src, dst, protocol, port);
    } else {
      RulesCount(config);
      OwnNeverApplies(config, m - 2 * |NormalizedDeny(config)|, m, src, dst, protocol, port);
    }
  }

  lemma NothingDecides(config: Config, src: Ip, dst: Ip, protocol: nat, port: Option<nat>)
    requires Compiled(config).Some? && !DenyConcerns(config, src, dst)
    requires Unruled(config, src, dst, protocol, port)
    ensures Evaluated(Compiled(config).value, src, dst, protocol, port) == Decision(config.fallback, None)
  {
    var policy := Compiled(config).value;
    forall m: nat | m < |policy.rules|
      ensures !Applies(policy.rules[m], src, dst, protocol, port)
    {
      NothingApplies(config, m, src, dst, protocol, port);
    }
    FirstDecides(policy, src, dst, protocol, port);
  }

  lemma {:induction false} SomeRuling(config: Config, i: nat, src: Ip, dst: Ip, protocol: nat, port: Option<nat>) returns (k: nat)
    requires InForce(config, i, src, dst, protocol, port)
    ensures Ruling(config, k, src, dst, protocol, port)
    decreases i
  {
    if m: nat :| m < i && InForce(config, m, src, dst, protocol, port) {
      k := SomeRuling(config, m, src, dst, protocol, port);
    } else {
      k := i;
    }
  }

  /**
    What a compiled policy decides, told from the configuration alone: a packet between the two sides of
    a denied pair is denied; any other goes by the first enabled rule that is written for it; and what
    no rule is written for goes by the default.
  */
  lemma CompiledMeans(config: Config, src: Ip, dst: Ip, protocol: nat, port: Option<nat>)
    requires Compiled(config).Some?
    ensures
      var d := Evaluated(Compiled(config).value, src, dst, protocol, port);
      && (DenyConcerns(config, src, dst) ==> d.action == Deny)
      && (!DenyConcerns(config, src, dst) ==>
            if Unruled(config, src, dst, protocol, port) then d == Decision(config.fallback, None)
            else exists i: nat :: Ruling(config, i, src, dst, protocol, port) && d == Decision(config.rules[i].action, Some(config.rules[i].id)))
  {
    if DenyConcerns(config, src, dst) {
      DenyConcernsDenies(config, src, dst, protocol, port);
    } else if i: nat :| InForce(config, i, src, dst, protocol, port) {
      var k := SomeRuling(config, i, src, dst, protocol, port);
      RulingDecides(config, k, src, dst, protocol, port);
    } else {
      NothingDecides(config, src, dst, protocol, port);
    }
  }
}
