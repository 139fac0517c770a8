/** Access rules between members: how they are resolved and how they decide (crates/peercove-core/src/acl.rs). */
module AclPolicy {
  import opened Options
  import opened Numerals
  import opened Texts

  type Ip = nat
  type Key = nat

  datatype Action = Allow | Deny

  datatype Protocol = AnyProtocol | Tcp | Udp | Icmp

  datatype Net = Net(addr: Ip, prefix: nat)

  datatype Target =
    | Any(text: string)
    | Member(member: Key)
    | Group(group: string)
    | Subnet(subnet: Net)
    | Service(service: string)

  datatype Rule = Rule(
    id: string,
    action: Action,
    source: Target,
    destination: Target,
    protocol: Protocol,
    ports: seq<string>,
    enabled: bool)

  datatype PeerConfig = PeerConfig(key: Key, allowedIps: seq<Net>, subnets: seq<Net>)

  datatype GroupConfig = GroupConfig(id: string, members: seq<Key>)

  datatype Record = Record(id: Option<string>, cname: bool, port: Option<nat>, ip: Option<Ip>, member: Option<Key>)

  datatype Config = Config(
    deny: seq<(Ip, Ip)>,
    fallback: Action,
    groups: seq<GroupConfig>,
    rules: seq<Rule>,
    peers: seq<PeerConfig>,
    records: seq<Record>)

  datatype Resolved = Resolved(
    id: string,
    action: Action,
    source: seq<Net>,
    destination: seq<Net>,
    protocol: Protocol,
    ports: seq<(nat, nat)>)

  datatype Policy = Policy(fallback: Action, rules: seq<Resolved>)

  datatype Decision = Decision(action: Action, ruleId: Option<string>)

  const LEGACY := "legacy-deny-"

  // ----- matching -----

  function Pow2(n: nat): (r: nat)
    ensures r > 0
  {
    if n == 0 then 1 else 2 * Pow2(n - 1)
  }

  predicate Contains(net: Net, ip: Ip) {
    net.prefix <= 32 && net.addr / Pow2(32 - net.prefix) == ip / Pow2(32 - net.prefix)
  }

  /** No network at all stands for every address. */
  predicate MatchesIp(nets: seq<Net>, ip: Ip) {
    nets == [] || exists net <- nets :: Contains(net, ip)
  }

  predicate ProtocolMatches(expected: Protocol, actual: nat) {
    match expected
    case AnyProtocol => true
    case Tcp => actual == 6
    case Udp => actual == 17
    case Icmp => actual == 1
  }

  predicate Between(r: Resolved, src: Ip, dst: Ip) {
    MatchesIp(r.source, src) && MatchesIp(r.destination, dst)
  }

  predicate Applies(r: Resolved, src: Ip, dst: Ip, protocol: nat, port: Option<nat>) {
    && Between(r, src, dst)
    && ProtocolMatches(r.protocol, protocol)
    && (r.ports == [] || (port.Some? && exists range <- r.ports :: range.0 <= port.value <= range.1))
  }

  /** The first rule that applies decides. */
  ghost predicate Decides(policy: Policy, src: Ip, dst: Ip, protocol: nat, port: Option<nat>, i: nat) {
    && i < |policy.rules| && Applies(policy.rules[i], src, dst, protocol, port)
    && forall j | 0 <= j < i :: !Applies(policy.rules[j], src, dst, protocol, port)
  }

  function EvaluateFrom(policy: Policy, src: Ip, dst: Ip, protocol: nat, port: Option<nat>, i: nat): (d: Decision)
    requires i <= |policy.rules|
    ensures d.ruleId.None? ==>
      d.action == policy.fallback && forall j | i <= j < |policy.rules| :: !Applies(policy.rules[j], src, dst, protocol, port)
    ensures d.ruleId.Some? ==> exists j | i <= j < |policy.rules| ::
      && d == Decision(policy.rules[j].action, Some(policy.rules[j].id)) && Applies(policy.rules[j], src, dst, protocol, port)
      && forall m | i <= m < j :: !Applies(policy.rules[m], src, dst, protocol, port)
    decreases |policy.rules| - i
  {
    if i == |policy.rules| then Decision(policy.fallback, None)
    else if Applies(policy.rules[i], src, dst, protocol, port) then Decision(policy.rules[i].action, Some(policy.rules[i].id))
    else EvaluateFrom(policy, src, dst, protocol, port, i + 1)
  }

  function Evaluated(policy: Policy, src: Ip, dst: Ip, protocol: nat, port: Option<nat>): Decision {
    EvaluateFrom(policy, src, dst, protocol, port, 0)
  }

  /** Whatever rule a decision names is the first that applies. */
  lemma DeciderOf(policy: Policy, src: Ip, dst: Ip, protocol: nat, port: Option<nat>) returns (j: nat)
    requires Evaluated(policy, src, dst, protocol, port).ruleId.Some?
    ensures Decides(policy, src, dst, protocol, port, j) && policy.rules[j] in policy.rules
    ensures Evaluated(policy, src, dst, protocol, port) == Decision(policy.rules[j].action, Some(policy.rules[j].id))
  {
    j :| 0 <= j < |policy.rules|
      && Evaluated(policy, src, dst, protocol, port) == Decision(policy.rules[j].action, Some(policy.rules[j].id))
      && Applies(policy.rules[j], src, dst, protocol, port)
      && forall m | 0 <= m < j :: !Applies(policy.rules[m], src, dst, protocol, port);
  }

  lemma FirstDecides(policy: Policy, src: Ip, dst: Ip, protocol: nat, port: Option<nat>)
    ensures forall i: nat | Decides(policy, src, dst, protocol, port, i) ::
      Evaluated(policy, src, dst, protocol, port) == Decision(policy.rules[i].action, Some(policy.rules[i].id))
    ensures (forall i | 0 <= i < |policy.rules| :: !Applies(policy.rules[i], src, dst, protocol, port)) ==>
      Evaluated(policy, src, dst, protocol, port) == Decision(policy.fallback, None)
  {
    if Evaluated(policy, src, dst, protocol, port).ruleId.Some? {
      var j := DeciderOf(policy, src, dst, protocol, port);
    }
  }

  method Evaluate(policy: Policy, src: Ip, dst: Ip, protocol: nat, port: Option<nat>) returns (d: Decision)
    ensures d == Evaluated(policy, src, dst, protocol, port)
    ensures forall i: nat | Decides(policy, src, dst, protocol, port, i) :: d == Decision(policy.rules[i].action, Some(policy.rules[i].id))
    ensures (forall i | 0 <= i < |policy.rules| :: !Applies(policy.rules[i], src, dst, protocol, port)) ==> d == Decision(policy.fallback, None)
  {
    FirstDecides(policy, src, dst, protocol, port);
    for i := 0 to |policy.rules|
      invariant Evaluated(policy, src, dst, protocol, port) == EvaluateFrom(policy, src, dst, protocol, port, i)
    {
      var r := policy.rules[i];
      if !MatchesIp(r.source, src) || !MatchesIp(r.destination, dst) {
        continue;
      }
      if !ProtocolMatches(r.protocol, protocol) {
        continue;
      }
      if r.ports != [] && !(port.Some? && exists range <- r.ports :: range.0 <= port.value <= range.1) {
        continue;
      }
      return Decision(r.action, Some(r.id));
    }
    return Decision(policy.fallback, None);
  }

  // ----- which pairs may not talk directly -----

  predicate IsLegacy(id: string) {
    LEGACY <= id
  }

  /** A rule of the fine-grained kind could decide some packet between the two. */
  predicate Relevant(policy: Policy, a: Ip, b: Ip) {
    policy.fallback == Deny || exists r <- policy.rules :: (Between(r, a, b) || Between(r, b, a)) && !IsLegacy(r.id)
  }

  method ForceRelayPairs(policy: Policy, members: seq<Ip>) returns (pairs: seq<(Ip, Ip)>)
    ensures forall a, b :: (a, b) in pairs <==>
      (exists i, j :: 0 <= i < j < |members| && members[i] == a && members[j] == b) && Relevant(policy, a, b)
  {
    pairs := [];
    for i := 0 to |members|
      invariant forall a, b :: (a, b) in pairs <==>
        (exists m, n :: 0 <= m < i && m < n < |members| && members[m] == a && members[n] == b) && Relevant(policy, a, b)
    {
      var more := PairsFrom(policy, members, i);
      pairs := pairs + more;
    }
  }

  method PairsFrom(policy: Policy, members: seq<Ip>, i: nat) returns (pairs: seq<(Ip, Ip)>)
    requires i < |members|
    ensures forall a, b :: (a, b) in pairs <==>
      (exists n :: i < n < |members| && members[i] == a && members[n] == b) && Relevant(policy, a, b)
  {
    pairs := [];
    for j := i + 1 to |members|
      invariant forall a, b :: (a, b) in pairs <==>
        (exists n :: i < n < j && members[i] == a && members[n] == b) && Relevant(policy, a, b)
    {
      if Relevant(policy, members[i], members[j]) {
        pairs := pairs + [(members[i], members[j])];
      }
    }
  }

  /** A pair that may talk directly is only ever decided by default Allow or by a legacy deny pair. */
  lemma UnforcedIsUnruled(policy: Policy, a: Ip, b: Ip, protocol: nat, port: Option<nat>)
    requires !Relevant(policy, a, b)
    ensures
      var d := Evaluated(policy, a, b, protocol, port);
      d == Decision(Allow, None) || (d.ruleId.Some? && IsLegacy(d.ruleId.value))
    ensures
      var d := Evaluated(policy, b, a, protocol, port);
      d == Decision(Allow, None) || (d.ruleId.Some? && IsLegacy(d.ruleId.value))
  {
  }

  // ----- resolving the configuration -----

  function FindPeer(peers: seq<PeerConfig>, key: Key): Option<PeerConfig> {
    if peers == [] then None else if peers[0].key == key then Some(peers[0]) else FindPeer(peers[1..], key)
  }

  function PeerNetworks(config: Config, key: Key): Option<seq<Net>> {
    match FindPeer(config.peers, key)
    case None => None
    case Some(peer) => Some(peer.allowedIps + peer.subnets)
  }

  predicate Holds(peer: PeerConfig, ip: Ip) {
    exists net <- peer.allowedIps :: Contains(net, ip)
  }

  /** The first registered member that holds the address. */
  ghost predicate Owner(peers: seq<PeerConfig>, ip: Ip, k: nat) {
    k < |peers| && Holds(peers[k], ip) && forall m | 0 <= m < k :: !Holds(peers[m], ip)
  }

  function SideSubnets(peers: seq<PeerConfig>, ip: Ip): seq<Net> {
    if peers == [] then []
    else if Holds(peers[0], ip) then peers[0].subnets
    else SideSubnets(peers[1..], ip)
  }

  /** The address of a denied member and the subnets behind it. */
  function SideNetworks(config: Config, ip: Ip): (r: seq<Net>)
    ensures r != [] && MatchesIp(r, ip)
  {
    assert Contains(Net(ip, 32), ip);
    var r := [Net(ip, 32)] + SideSubnets(config.peers, ip);
    assert r[0] == Net(ip, 32);
    r
  }

  /** They are the subnets of the first member that holds the address. */
  lemma SideNetworksAre(config: Config, ip: Ip, k: nat)
    requires Owner(config.peers, ip, k)
    ensures SideNetworks(config, ip) == [Net(ip, 32)] + config.peers[k].subnets
  {
    SideSubnetsAre(config.peers, ip, k);
  }

  lemma {:induction false} SideSubnetsAre(peers: seq<PeerConfig>, ip: Ip, k: nat)
    requires Owner(peers, ip, k)
    ensures SideSubnets(peers, ip) == peers[k].subnets
  {
    if k > 0 {
      SideSubnetsAre(peers[1..], ip, k - 1);
    }
  }

  lemma {:induction false} NothingBehind(peers: seq<PeerConfig>, ip: Ip)
    ensures (forall peer <- peers :: !Holds(peer, ip)) ==> SideSubnets(peers, ip) == []
  {
    if peers != [] {
      NothingBehind(peers[1..], ip);
    }
  }

  function FindGroup(groups: seq<GroupConfig>, id: string): Option<GroupConfig> {
    if groups == [] then None else if groups[0].id == id then Some(groups[0]) else FindGroup(groups[1..], id)
  }

  /** Members that are not registered are passed over. */
  function GroupNetworks(config: Config, members: seq<Key>): seq<Net> {
    if members == [] then []
    else
      var nets := PeerNetworks(config, members[0]);
      (if nets.Some? then nets.value else []) + GroupNetworks(config, members[1..])
  }

  function FindRecord(records: seq<Record>, id: string): Option<Record> {
    if records == [] then None else if records[0].id == Some(id) then Some(records[0]) else FindRecord(records[1..], id)
  }

  /** None stands for a configuration error. */
  function ResolveTarget(config: Config, target: Target, destination: bool): Option<seq<Net>> {
    match target
    case Any(text) => if text == "any" then Some([]) else None
    case Member(key) => PeerNetworks(config, key)
    case Group(id) =>
      (match FindGroup(config.groups, id)
       case None => None
       case Some(group) => Some(GroupNetworks(config, group.members)))
    case Subnet(net) => Some([net])
    case Service(id) =>
      if !destination then None
      else
        match FindRecord(config.records, id)
        case None => None
        case Some(record) =>
          if record.cname || record.port.None? then None
          else if record.ip.Some? then Some([Net(record.ip.value, 32)])
          else if record.member.None? then None
          else
            match PeerNetworks(config, record.member.value)
            case None => None
            case Some(nets) => Some(if nets == [] then [] else nets[..1])
  }

  /** A sixteen-bit number, which may carry a plus sign. */
  function ParseU16(s: string): Option<nat> {
    var digits := if s != [] && s[0] == '+' then s[1..] else s;
    if digits == [] then None
    else
      match ParseDigits(digits)
      case Some(n) => if n <= 0xFFFF then Some(n) else None
      case None => None
  }

  function IndexOf(s: string, c: char): Option<nat> {
    if s == [] then None
    else if s[0] == c then Some(0)
    else match IndexOf(s[1..], c) case Some(i) => Some(i + 1) case None => None
  }

  /** A port `80` or a range `8000-8100`, cut at the first hyphen. */
  function ParseRange(s: string): (r: Option<(nat, nat)>)
    ensures r.Some? ==> 1 <= r.value.0 <= r.value.1 <= 0xFFFF
  {
    var at := IndexOf(s, '-');
    var a := if at.Some? && at.value < |s| then s[..at.value] else s;
    var b := if at.Some? && at.value < |s| then s[at.value + 1..] else s;
    match (ParseU16(a), ParseU16(b))
    case (Some(start), Some(end)) => if start == 0 || start > end then None else Some((start, end))
    case _ => None
  }

  function ParsePorts(values: seq<string>): Option<seq<(nat, nat)>> {
    if values == [] then Some([])
    else
      match (ParseRange(values[0]), ParsePorts(values[1..]))
      case (Some(range), Some(rest)) => Some([range] + rest)
      case _ => None
  }

  predicate ValidId(id: string) {
    (exists c <- id :: !IsSpace(c)) && Utf8Length(id) <= 64
  }

  function ResolveRule(config: Config, rule: Rule): (r: Option<Resolved>)
    ensures r.Some? ==> r.value.id == rule.id && r.value.action == rule.action
  {
    if !ValidId(rule.id) then None
    else
      match ParsePorts(rule.ports)
      case None => None
      case Some(ports) =>
        if ports != [] && !rule.protocol.Tcp? && !rule.protocol.Udp? then None
        else
          match (ResolveTarget(config, rule.source, false), ResolveTarget(config, rule.destination, true))
          case (Some(source), Some(destination)) =>
            Some(Resolved(rule.id, rule.action, source, destination, rule.protocol, ports))
          case _ => None
  }

  function EnabledOf(rules: seq<Rule>): (r: seq<Rule>)
    ensures forall rule :: rule in r <==> rule in rules && rule.enabled
  {
    if rules == [] then []
    else
      var last := rules[|rules| - 1];
      assert rules == rules[..|rules| - 1] + [last];
      EnabledOf(rules[..|rules| - 1]) + if last.enabled then [last] else []
  }

  /** Each enabled rule, in order; None exactly if any of them is in error. */
  function ResolveRules(config: Config, rules: seq<Rule>): (r: Option<seq<Resolved>>)
    ensures r.Some? <==> forall rule <- EnabledOf(rules) :: ResolveRule(config, rule).Some?
    ensures r.Some? ==> |r.value| == |EnabledOf(rules)|
    ensures r.Some? ==> forall i | 0 <= i < |r.value| :: ResolveRule(config, EnabledOf(rules)[i]) == Some(r.value[i])
  {
    if rules == [] then Some([])
    else
      var last := rules[|rules| - 1];
      match ResolveRules(config, rules[..|rules| - 1])
      case None => None
      case Some(before) =>
        if !last.enabled then Some(before)
        else
          match ResolveRule(config, last)
          case None => None
          case Some(x) => Some(before + [x])
  }

  function LegacyRule(config: Config, index: nat, source: Ip, destination: Ip): Resolved {
    Resolved(LEGACY + Decimal(index), Deny, SideNetworks(config, source), SideNetworks(config, destination), AnyProtocol, [])
  }

  /** Each denied pair makes two rules, one in each direction. */
  function LegacyRules(config: Config, pairs: seq<(Ip, Ip)>): (r: seq<Resolved>)
    ensures |r| == 2 * |pairs|
  {
    if pairs == [] then []
    else
      var n := |pairs| - 1;
      LegacyRules(config, pairs[..n]) + [LegacyRule(config, n, pairs[n].0, pairs[n].1), LegacyRule(config, n, pairs[n].1, pairs[n].0)]
  }

  predicate Before(p: (Ip, Ip), q: (Ip, Ip)) {
    p.0 < q.0 || (p.0 == q.0 && p.1 < q.1)
  }

  predicate Sorted(pairs: seq<(Ip, Ip)>) {
    forall i, j | 0 <= i < j < |pairs| :: Before(pairs[i], pairs[j])
  }

  function Insert(p: (Ip, Ip), sorted: seq<(Ip, Ip)>): (r: seq<(Ip, Ip)>)
    ensures forall q :: q in r <==> q == p || q in sorted
  {
    if sorted == [] then [p]
    else if p == sorted[0] then sorted
    else if Before(p, sorted[0]) then [p] + sorted
    else [sorted[0]] + Insert(p, sorted[1..])
  }

  lemma {:induction false} InsertIsSorted(p: (Ip, Ip), sorted: seq<(Ip, Ip)>)
    requires Sorted(sorted)
    ensures Sorted(Insert(p, sorted))
  {
    if sorted != [] && p != sorted[0] && !Before(p, sorted[0]) {
      InsertIsSorted(p, sorted[1..]);
      var rest := Insert(p, sorted[1..]);
      forall i | 0 <= i < |rest|
        ensures Before(sorted[0], rest[i])
      {
        assert rest[i] in rest;
        if rest[i] != p {
          var k :| 0 <= k < |sorted| - 1 && sorted[1..][k] == rest[i];
          assert sorted[k + 1] == rest[i];
        }
      }
    }
  }

  /** Sorted, each once. */
  function SortedSet(pairs: seq<(Ip, Ip)>): (r: seq<(Ip, Ip)>)
    ensures Sorted(r) && forall q :: q in r <==> q in pairs
  {
    if pairs == [] then []
    else
      var rest := SortedSet(pairs[1..]);
      InsertIsSorted(pairs[0], rest);
      Insert(pairs[0], rest)
  }

  function Ordered(p: (Ip, Ip)): (Ip, Ip) {
    if p.0 <= p.1 then p else (p.1, p.0)
  }

  function OrderedAll(pairs: seq<(Ip, Ip)>): (r: seq<(Ip, Ip)>)
    ensures forall p <- pairs :: Ordered(p) in r
    ensures forall q <- r :: exists p <- pairs :: Ordered(p) == q
  {
    if pairs == [] then [] else [Ordered(pairs[0])] + OrderedAll(pairs[1..])
  }

  function NormalizedDeny(config: Config): seq<(Ip, Ip)> {
    SortedSet(OrderedAll(config.deny))
  }

  function Compiled(config: Config): Option<Policy> {
    match ResolveRules(config, config.rules)
    case None => None
    case Some(rules) => Some(Policy(config.fallback, LegacyRules(config, NormalizedDeny(config)) + rules))
  }

  method Compile(config: Config) returns (r: Option<Policy>)
    ensures r == Compiled(config)
  {
    var legacy := CompileLegacy(config, NormalizedDeny(config));
    var rules := CompileRules(config);
    match rules
    case None => return None;
    case Some(rules) => return Some(Policy(config.fallback, legacy + rules));
  }

  method CompileLegacy(config: Config, pairs: seq<(Ip, Ip)>) returns (rules: seq<Resolved>)
    ensures rules == LegacyRules(config, pairs)
  {
    rules := [];
    for index := 0 to |pairs|
      invariant rules == LegacyRules(config, pairs[..index])
    {
      var (a, b) := pairs[index];
      assert pairs[..index + 1][..index] == pairs[..index];
      rules := rules + [LegacyRule(config, index, a, b), LegacyRule(config, index, b, a)];
    }
    assert pairs[..|pairs|] == pairs;
  }

  method CompileRules(config: Config) returns (r: Option<seq<Resolved>>)
    ensures r == ResolveRules(config, config.rules)
  {
    var rules: seq<Resolved> := [];
    for i := 0 to |config.rules|
      invariant ResolveRules(config, config.rules[..i]) == Some(rules)
    {
      OneMoreRule(config, i);
      if config.rules[i].enabled {
        var resolved := ResolveRule(config, config.rules[i]);
        if resolved.None? {
          FailurePropagates(config, i + 1);
          return None;
        }
        rules := rules + [resolved.value];
      }
    }
    assert config.rules[..|config.rules|] == config.rules;
    return Some(rules);
  }

  function Extended(config: Config, before: Option<seq<Resolved>>, rule: Rule): Option<seq<Resolved>> {
    if before.None? || !rule.enabled then before
    else if ResolveRule(config, rule).None? then None
    else Some(before.value + [ResolveRule(config, rule).value])
  }

  lemma OneRuleBehind(config: Config, rules: seq<Rule>, rule: Rule)
    ensures ResolveRules(config, rules + [rule]) == Extended(config, ResolveRules(config, rules), rule)
  {
    assert (rules + [rule])[..|rules|] == rules;
  }

  lemma OneMoreRule(config: Config, i: nat)
    requires i < |config.rules|
    ensures ResolveRules(config, config.rules[..i + 1]) == Extended(config, ResolveRules(config, config.rules[..i]), config.rules[i])
  {
    assert config.rules[..i + 1] == config.rules[..i] + [config.rules[i]];
    OneRuleBehind(config, config.rules[..i], config.rules[i]);
  }

  lemma {:induction false} FailurePropagates(config: Config, i: nat)
    requires i <= |config.rules| && ResolveRules(config, config.rules[..i]).None?
    ensures ResolveRules(config, config.rules).None?
    decreases |config.rules| - i
  {
    if i == |config.rules| {
      assert config.rules[..i] == config.rules;
    } else {
      OneMoreRule(config, i);
      FailurePropagates(config, i + 1);
    }
  }

  // ----- what the compiled policy means -----

  /** Some member of the list is registered with a network. */
  predicate Resolves(config: Config, members: seq<Key>) {
    exists key <- members :: PeerNetworks(config, key).Some? && PeerNetworks(config, key).value != []
  }

  /** The address belongs to a registered member of the list, or to a subnet behind one. */
  predicate Covers(config: Config, members: seq<Key>, ip: Ip) {
    exists key <- members :: PeerNetworks(config, key).Some? && exists net <- PeerNetworks(config, key).value :: Contains(net, ip)
  }

  lemma {:induction false} GroupNetworksAre(config: Config, members: seq<Key>, net: Net)
    ensures net in GroupNetworks(config, members) <==>
      exists key <- members :: PeerNetworks(config, key).Some? && net in PeerNetworks(config, key).value
  {
    if members != [] {
      GroupNetworksAre(config, members[1..], net);
    }
  }

  /** A group stands for its members' addresses exactly as long as one of them resolves; otherwise for every address. */
  lemma GroupMeansItsMembersIff(config: Config, members: seq<Key>)
    ensures (forall ip: Ip :: MatchesIp(GroupNetworks(config, members), ip) <==> Covers(config, members, ip)) <==> Resolves(config, members)
  {
    var nets := GroupNetworks(config, members);
    forall net ensures net in nets <==>
      exists key <- members :: PeerNetworks(config, key).Some? && net in PeerNetworks(config, key).value
    {
      GroupNetworksAre(config, members, net);
    }
    if nets != [] {
      assert nets[0] in nets;
      assert Resolves(config, members);
    }
    if Resolves(config, members) {
      var key :| key in members && PeerNetworks(config, key).Some? && PeerNetworks(config, key).value != [];
      assert PeerNetworks(config, key).value[0] in nets;
    } else {
      assert MatchesIp(nets, 0) && !Covers(config, members, 0);
    }
  }

  /** A denied pair is denied before any other rule is looked at, both ways, for the two and all that is behind them. */
  lemma DeniedPairsAreDenied(config: Config, p: (Ip, Ip), src: Ip, dst: Ip, protocol: nat, port: Option<nat>)
    requires Compiled(config).Some? && p in config.deny
    requires MatchesIp(SideNetworks(config, p.0), src) && MatchesIp(SideNetworks(config, p.1), dst)
    ensures Evaluated(Compiled(config).value, src, dst, protocol, port).action == Deny
    ensures Evaluated(Compiled(config).value, dst, src, protocol, port).action == Deny
  {
    assert Ordered(p) in NormalizedDeny(config);
    var i: nat :| i < |NormalizedDeny(config)| && NormalizedDeny(config)[i] == Ordered(p);
    if p.0 <= p.1 {
      LegacyPairDenies(config, i, src, dst, protocol, port);
    } else {
      LegacyPairDenies(config, i, dst, src, protocol, port);
    }
  }

  lemma LegacyPairDenies(config: Config, i: nat, src: Ip, dst: Ip, protocol: nat, port: Option<nat>)
    requires Compiled(config).Some? && i < |NormalizedDeny(config)|
    requires MatchesIp(SideNetworks(config, NormalizedDeny(config)[i].0), src)
    requires MatchesIp(SideNetworks(config, NormalizedDeny(config)[i].1), dst)
    ensures Evaluated(Compiled(config).value, src, dst, protocol, port).action == Deny
    ensures Evaluated(Compiled(config).value, dst, src, protocol, port).action == Deny
  {
    LegacyRuleAt(config, i, false);
    LegacyRuleAt(config, i, true);
    LegacyDecides(config, i, false, src, dst, protocol, port);
    LegacyDecides(config, i, true, dst, src, protocol, port);
  }

  /** Where the rule for a denied pair stands, in either direction. */
  function Place(k: nat, back: bool): nat {
    2 * k + if back then 1 else 0
  }

  function LegacyRuleFor(config: Config, k: nat, back: bool): Resolved
    requires k < |NormalizedDeny(config)|
  {
    var (a, b) := NormalizedDeny(config)[k];
    if back then LegacyRule(config, k, b, a) else LegacyRule(config, k, a, b)
  }

  lemma LegacyRuleAt(config: Config, k: nat, back: bool)
    requires Compiled(config).Some? && k < |NormalizedDeny(config)|
    ensures Place(k, back) < |Compiled(config).value.rules|
    ensures Compiled(config).value.rules[Place(k, back)] == LegacyRuleFor(config, k, back)
  {
    LegacyRulesAre(config, NormalizedDeny(config), k);
    var i := Place(k, back);
    assert i < 2 * |NormalizedDeny(config)|;
    assert Compiled(config).value.rules[i] == LegacyRules(config, NormalizedDeny(config))[i];
  }

  /** Each pair has two rules of one number, which mirror each other. */
  lemma {:induction false} LegacyRulesAre(config: Config, pairs: seq<(Ip, Ip)>, k: nat)
    requires k < |pairs|
    ensures LegacyRules(config, pairs)[2 * k] == LegacyRule(config, k, pairs[k].0, pairs[k].1)
    ensures LegacyRules(config, pairs)[2 * k + 1] == LegacyRule(config, k, pairs[k].1, pairs[k].0)
  {
    if k < |pairs| - 1 {
      LegacyRulesAre(config, pairs[..|pairs| - 1], k);
    }
  }

  lemma OwnBehindLegacy(legacy: seq<Resolved>, own: seq<Resolved>, k: nat)
    requires k < |own|
    ensures (legacy + own)[|legacy| + k] == own[k]
  {
  }

  /** Behind the rules for denied pairs stand the enabled rules, in order. */
  lemma OwnRuleAt(config: Config, k: nat)
    requires Compiled(config).Some? && k < |EnabledOf(config.rules)|
    ensures 2 * |NormalizedDeny(config)| + k < |Compiled(config).value.rules|
    ensures ResolveRule(config, EnabledOf(config.rules)[k]) == Some(Compiled(config).value.rules[2 * |NormalizedDeny(config)| + k])
  {
    var legacy, own := LegacyRules(config, NormalizedDeny(config)), ResolveRules(config, config.rules).value;
    assert Compiled(config).value.rules == legacy + own;
    OwnBehindLegacy(legacy, own, k);
  }

  lemma RulesCount(config: Config)
    requires Compiled(config).Some?
    ensures |Compiled(config).value.rules| == 2 * |NormalizedDeny(config)| + |EnabledOf(config.rules)|
  {
  }

  /** Where one of the leading rules concerns a packet, some leading rule decides it. */
  lemma LegacyDecides(config: Config, k: nat, back: bool, src: Ip, dst: Ip, protocol: nat, port: Option<nat>)
    requires Compiled(config).Some? && k < |NormalizedDeny(config)|
    requires Between(LegacyRuleFor(config, k, back), src, dst)
    ensures Evaluated(Compiled(config).value, src, dst, protocol, port).action == Deny
  {
    var policy := Compiled(config).value;
    LegacyRuleAt(config, k, back);
    assert Applies(policy.rules[Place(k, back)], src, dst, protocol, port);
    var d := Evaluated(policy, src, dst, protocol, port);
    if d.ruleId.Some? {
      var j := DeciderOf(policy, src, dst, protocol, port);
      assert j <= Place(k, back) < 2 * |NormalizedDeny(config)|;
      assert j == Place(j / 2, j % 2 == 1);
      LegacyRuleAt(config, j / 2, j % 2 == 1);
    }
  }

  // ----- ports as text -----

  lemma DecimalIsU16(n: nat)
    requires n <= 0xFFFF
    ensures ParseU16(Decimal(n)) == Some(n) && Digits(Decimal(n))
  {
    DecimalParses(n);
    assert Decimal(n)[0] != '+';
  }

  lemma {:induction false} CutAt(s: string, t: string)
    requires Digits(s)
    ensures IndexOf(s, '-') == None && IndexOf(s + "-" + t, '-') == Some(|s|)
  {
    if s == [] {
      assert s + "-" + t == "-" + t;
    } else {
      CutAt(s[1..], t);
      assert (s + "-" + t)[1..] == s[1..] + "-" + t;
    }
  }

  /** Every range of ports can be written down, and single ports as well. */
  lemma PortsRoundTrip(start: nat, end: nat)
    requires 1 <= start <= end <= 0xFFFF
    ensures ParseRange(Decimal(start) + "-" + Decimal(end)) == Some((start, end))
    ensures ParseRange(Decimal(start)) == Some((start, start))
  {
    DecimalIsU16(start);
    DecimalIsU16(end);
    RangeOf(Decimal(start), Decimal(end));
  }

  lemma RangeOf(a: string, b: string)
    requires Digits(a) && ParseU16(a).Some? && ParseU16(b).Some?
    requires 1 <= ParseU16(a).value <= ParseU16(b).value
    ensures ParseRange(a + "-" + b) == Some((ParseU16(a).value, ParseU16(b).value))
    ensures ParseRange(a) == Some((ParseU16(a).value, ParseU16(a).value))
  {
    CutAt(a, b);
    var s := a + "-" + b;
    assert s[..|a|] == a && s[|a| + 1..] == b;
  }
}
