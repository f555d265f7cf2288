/** Source-policy egress: acceptance, compilation to prioritised rules, and what the rules do to packets
    (src/bird-source-policy.ts, the per-node block of src/bird-inventory.ts). */
module SourcePolicy {
  import opened Wrappers
  import opened Ipv4
  import opened IpRules

  type NodeId = string

  const MAX_GROUPS := 16
  const MAX_SOURCES_PER_GROUP := 64
  const PRIORITY_MIN := 10000
  const PRIORITY_WIDTH := 1024
  const PRIORITY_MAX := 32765
  const GATEWAY_PRIORITY_MIN := 9000
  const GATEWAY_PRIORITY_WIDTH := 1000
  const RESERVED_TABLES := {0, 253, 254, 255}

  datatype Group = Group(id: string, egress: Address, sources: seq<Cidr>, table: int, slot: nat) {
    /** What `normalizeGroup` accepts. */
    predicate WellFormed() {
      && 0 < |sources| <= MAX_SOURCES_PER_GROUP
      && (forall c :: c in sources ==> c.Valid())
      && (forall i, j :: 0 <= i < j < |sources| ==> !Overlap(sources[i], sources[j]))
      && 1 <= table <= MAX_TABLE && table !in RESERVED_TABLES
      && slot < MAX_GROUPS
    }
  }

  datatype Policy = Policy(id: string, groups: seq<Group>, base: int) {
    /** What `normalizeSourcePolicyEgress` accepts. */
    predicate WellFormed() {
      && 0 < |groups| <= MAX_GROUPS
      && (forall g :: g in groups ==> g.WellFormed())
      && (forall i, j :: 0 <= i < j < |groups| ==>
           && groups[i].id != groups[j].id && groups[i].egress != groups[j].egress
           && groups[i].slot != groups[j].slot && groups[i].table != groups[j].table)
      && PRIORITY_MIN <= base && base + PRIORITY_WIDTH - 1 <= PRIORITY_MAX
    }
  }

  // ----- Ranges (section 3.1 of RFC 4632)

  function High(c: Cidr): int
    requires c.length <= 32
  {
    c.network + BlockSize(c.length) - 1
  }

  predicate Overlap(left: Cidr, right: Cidr) {
    left.length <= 32 && right.length <= 32 && left.network <= High(right) && right.network <= High(left)
  }

  lemma Scaled(a: int, b: int, size: nat)
    requires a <= b
    ensures a * size <= b * size
  {
  }

  lemma Quotient(a: nat, size: nat)
    requires size >= 1
    ensures a / size * size <= a < (a / size + 1) * size
  {
  }

  /** Membership by prefix bits is membership in the numeric range. */
  lemma ContainsIsRange(c: Cidr, a: Address)
    requires c.Valid()
    ensures c.Contains(a) <==> c.network <= a <= High(c)
  {
    hide BlockSize;
    var size := BlockSize(c.length);
    var q, r := c.network / size, a / size;
    assert c.network == q * size;
    assert r * size <= a < (r + 1) * size by {
      hide *;
      Quotient(a, size);
    }
    if r < q {
      Scaled(r + 1, q, size);
    } else if r > q {
      Scaled(q + 1, r, size);
    }
  }

  /** Blocks overlap exactly when some address lies in both. */
  lemma OverlapIsSharedAddress(left: Cidr, right: Cidr)
    requires left.Valid() && right.Valid()
    ensures Overlap(left, right) <==> exists a: Address :: left.Contains(a) && right.Contains(a)
  {
    var a := if left.network < right.network then right.network else left.network;
    ContainsIsRange(left, a);
    ContainsIsRange(right, a);
    if b: Address :| left.Contains(b) && right.Contains(b) {
      ContainsIsRange(left, b);
      ContainsIsRange(right, b);
    }
  }

  // ----- Compilation

  function RulePriority(policy: Policy, group: Group, index: nat): int {
    policy.base + group.slot * MAX_SOURCES_PER_GROUP + index
  }

  function GroupRules(policy: Policy, group: Group): (rules: seq<Rule>)
    ensures |rules| == |group.sources|
    ensures forall i :: 0 <= i < |rules| ==>
      rules[i] == Rule(RulePriority(policy, group, i), From(group.sources[i]), group.table)
  {
    seq(|group.sources|, i requires 0 <= i < |group.sources| =>
      Rule(RulePriority(policy, group, i), From(group.sources[i]), group.table))
  }

  function SourceRules(policy: Policy, groups: seq<Group>): (rules: seq<Rule>)
    ensures forall r :: r in rules <==> exists g :: g in groups && r in GroupRules(policy, g)
  {
    if groups == [] then [] else GroupRules(policy, groups[0]) + SourceRules(policy, groups[1..])
  }

  /** `stable` stands for the hash of the gateway's address. */
  function GatewayRule(egress: Address, stable: Address -> nat): Rule {
    Rule(GATEWAY_PRIORITY_MIN + stable(egress) % GATEWAY_PRIORITY_WIDTH, To(Cidr(egress, 32)), MAIN_TABLE)
  }

  function GroupsOf(policies: seq<Policy>): (groups: seq<Group>)
    ensures forall g :: g in groups <==> exists p :: p in policies && g in p.groups
  {
    if policies == [] then [] else policies[0].groups + GroupsOf(policies[1..])
  }

  /** One gateway rule per destination, the first one seen. */
  function GatewayRules(groups: seq<Group>, stable: Address -> nat): (rules: seq<Rule>)
    ensures forall r :: r in rules <==> exists g :: g in groups && r == GatewayRule(g.egress, stable)
  {
    if groups == [] then []
    else
      var rest, last := GatewayRules(groups[..|groups| - 1], stable), groups[|groups| - 1];
      assert groups == groups[..|groups| - 1] + [last];
      if GatewayRule(last.egress, stable) in rest then rest else rest + [GatewayRule(last.egress, stable)]
  }

  function AllSourceRules(policies: seq<Policy>): (rules: seq<Rule>)
    ensures forall r :: r in rules <==> exists p :: p in policies && r in SourceRules(p, p.groups)
  {
    if policies == [] then [] else SourceRules(policies[0], policies[0].groups) + AllSourceRules(policies[1..])
  }

  function UniqueRules(rules: seq<Rule>): (unique: seq<Rule>)
    ensures forall r :: r in unique <==> r in rules
    ensures forall i, j :: 0 <= i < j < |unique| ==> unique[i] != unique[j]
  {
    if rules == [] then []
    else
      var rest, last := rules[..|rules| - 1], rules[|rules| - 1];
      assert rules == rest + [last];
      if last in rest then UniqueRules(rest) else UniqueRules(rest) + [last]
  }

  function ManagedRules(policies: seq<Policy>, stable: Address -> nat): seq<Rule> {
    UniqueRules(GatewayRules(GroupsOf(policies), stable) + AllSourceRules(policies))
  }

  function OtherGroups(groups: seq<Group>, local: Address): (others: seq<Group>)
    ensures forall g :: g in others <==> g in groups && g.egress != local
  {
    if groups == [] then []
    else if groups[0].egress != local then [groups[0]] + OtherGroups(groups[1..], local)
    else OtherGroups(groups[1..], local)
  }

  /** The gateway node itself keeps its normal routes. */
  function ForNode(policy: Policy, local: Option<Address>): Option<Policy> {
    var groups := if local.Some? then OtherGroups(policy.groups, local.value) else policy.groups;
    if groups == [] then None else Some(policy.(groups := groups))
  }

  function ScopedTo(policies: seq<Policy>, local: Option<Address>): (scoped: seq<Policy>)
    ensures forall s :: s in scoped <==> exists p :: p in policies && ForNode(p, local) == Some(s)
  {
    if policies == [] then []
    else
      var rest := ScopedTo(policies[1..], local);
      match ForNode(policies[0], local)
      case None => rest
      case Some(scoped) => [scoped] + rest
  }

  function ManagedRulesForNode(policies: seq<Policy>, local: Option<Address>, stable: Address -> nat): seq<Rule> {
    ManagedRules(ScopedTo(policies, local), stable)
  }

  // ----- Acceptance of one node's active policies

  datatype Route = Route(policy: string, group: string, source: Cidr)

  function GroupRoutes(policy: Policy, group: Group): (routes: seq<Route>)
    ensures |routes| == |group.sources|
    ensures forall i :: 0 <= i < |routes| ==> routes[i] == Route(policy.id, group.id, group.sources[i])
  {
    seq(|group.sources|, i requires 0 <= i < |group.sources| => Route(policy.id, group.id, group.sources[i]))
  }

  function PolicyRoutes(policy: Policy, groups: seq<Group>): (routes: seq<Route>)
    ensures forall g, c :: g in groups && c in g.sources ==> Route(policy.id, g.id, c) in routes
  {
    if groups == [] then []
    else
      var last := groups[|groups| - 1];
      assert groups == groups[..|groups| - 1] + [last];
      assert forall c :: c in last.sources ==> Route(policy.id, last.id, c) in GroupRoutes(policy, last) by {
        forall c | c in last.sources
          ensures Route(policy.id, last.id, c) in GroupRoutes(policy, last)
        {
          var i :| 0 <= i < |last.sources| && last.sources[i] == c;
          assert GroupRoutes(policy, last)[i] == Route(policy.id, last.id, c);
        }
      }
      PolicyRoutes(policy, groups[..|groups| - 1]) + GroupRoutes(policy, last)
  }

  function Routes(policies: seq<Policy>): (routes: seq<Route>)
    ensures forall p, g, c :: p in policies && g in p.groups && c in g.sources ==> Route(p.id, g.id, c) in routes
  {
    if policies == [] then []
    else
      var last := policies[|policies| - 1];
      assert policies == policies[..|policies| - 1] + [last];
      Routes(policies[..|policies| - 1]) + PolicyRoutes(last, last.groups)
  }

  function Tables(policies: seq<Policy>): (tables: seq<int>)
  {
    if policies == [] then []
    else
      var last := policies[|policies| - 1];
      Tables(policies[..|policies| - 1]) + seq(|last.groups|, i requires 0 <= i < |last.groups| => last.groups[i].table)
  }

  predicate Distinct<T(==)>(s: seq<T>) {
    forall i, j :: 0 <= i < j < |s| ==> s[i] != s[j]
  }

  predicate Clash(left: Route, right: Route) {
    left != right && Overlap(left.source, right.source)
  }

  predicate InWindow(policy: Policy, priority: int) {
    policy.base <= priority < policy.base + PRIORITY_WIDTH
  }

  predicate SharedWindow(left: Policy, right: Policy) {
    left.id != right.id && left.base < right.base + PRIORITY_WIDTH && right.base < left.base + PRIORITY_WIDTH
  }

  predicate Fits(policy: Policy) {
    && policy.base + PRIORITY_WIDTH - 1 <= PRIORITY_MAX
    && forall g :: g in policy.groups ==> GroupFits(policy, g)
  }

  predicate GroupFits(policy: Policy, g: Group) {
    g.table !in RESERVED_TABLES && (g.sources != [] ==> RulePriority(policy, g, |g.sources| - 1) <= PRIORITY_MAX)
  }

  predicate NoClash(routes: seq<Route>) {
    forall i, j :: 0 <= i < j < |routes| ==> !Clash(routes[i], routes[j])
  }

  predicate NoSharedWindow(policies: seq<Policy>) {
    forall i, j :: 0 <= i < j < |policies| ==> !SharedWindow(policies[i], policies[j])
  }

  /** The inventory's per-node check. */
  predicate Accepted(policies: seq<Policy>) {
    && (forall p :: p in policies ==> Fits(p))
    && NoClash(Routes(policies))
    && Distinct(Tables(policies))
    && NoSharedWindow(policies)
  }

  method CheckNode(policies: seq<Policy>) returns (ok: bool)
    ensures ok <==> Accepted(policies)
  {
    var routes: seq<Route>;
    ok, routes := CollectRoutes(policies);
    if !ok {
      return;
    }
    ok := CheckRoutes(routes);
    if !ok {
      return;
    }
    ok := CheckTables(policies);
    if !ok {
      return;
    }
    ok := CheckPriorities(policies);
  }

  method CollectRoutes(policies: seq<Policy>) returns (ok: bool, routes: seq<Route>)
    ensures ok <==> forall p :: p in policies ==> Fits(p)
    ensures ok ==> routes == Routes(policies)
  {
    routes := [];
    for i := 0 to |policies|
      invariant routes == Routes(policies[..i])
      invariant forall k :: 0 <= k < i ==> Fits(policies[k])
    {
      var added;
      ok, added := CollectPolicy(policies[i]);
      if !ok {
        return;
      }
      assert policies[..i + 1][..i] == policies[..i];
      routes := routes + added;
    }
    assert policies[..|policies|] == policies;
    return true, routes;
  }

  method CollectPolicy(policy: Policy) returns (ok: bool, routes: seq<Route>)
    ensures ok <==> Fits(policy)
    ensures ok ==> routes == PolicyRoutes(policy, policy.groups)
  {
    routes := [];
    if policy.base + PRIORITY_WIDTH - 1 > PRIORITY_MAX {
      return false, routes;
    }
    for k := 0 to |policy.groups|
      invariant routes == PolicyRoutes(policy, policy.groups[..k])
      invariant forall m :: 0 <= m < k ==> GroupFits(policy, policy.groups[m])
    {
      var added;
      ok, added := CollectGroup(policy, policy.groups[k]);
      if !ok {
        assert policy.groups[k] in policy.groups;
        return;
      }
      assert policy.groups[..k + 1][..k] == policy.groups[..k];
      routes := routes + added;
    }
    assert policy.groups[..|policy.groups|] == policy.groups;
    return true, routes;
  }

  method CollectGroup(policy: Policy, group: Group) returns (ok: bool, routes: seq<Route>)
    ensures ok <==> GroupFits(policy, group)
    ensures ok ==> routes == GroupRoutes(policy, group)
  {
    routes := [];
    if group.table in RESERVED_TABLES {
      return false, routes;
    }
    for index := 0 to |group.sources|
      invariant routes == GroupRoutes(policy, group)[..index]
      invariant index > 0 ==> RulePriority(policy, group, index - 1) <= PRIORITY_MAX
    {
      routes := routes + [Route(policy.id, group.id, group.sources[index])];
      if RulePriority(policy, group, index) > PRIORITY_MAX {
        return false, routes;
      }
    }
    return true, routes;
  }

  method CheckRoutes(routes: seq<Route>) returns (ok: bool)
    ensures ok <==> NoClash(routes)
  {
    for left := 0 to |routes|
      invariant forall i, j :: 0 <= i < left && i < j < |routes| ==> !Clash(routes[i], routes[j])
    {
      for right := left + 1 to |routes|
        invariant forall j :: left < j < right ==> !Clash(routes[left], routes[j])
      {
        if routes[left] != routes[right] && Overlap(routes[left].source, routes[right].source) {
          return false;
        }
      }
    }
    return true;
  }

  method CheckTables(policies: seq<Policy>) returns (ok: bool)
    ensures ok <==> Distinct(Tables(policies))
  {
    var owned: seq<int> := [];
    for i := 0 to |policies|
      invariant owned == Tables(policies[..i])
      invariant Distinct(owned)
    {
      var groups := policies[i].groups;
      ghost var before := owned;
      ghost var added := seq(|groups|, k requires 0 <= k < |groups| => groups[k].table);
      assert policies[..i + 1][..i] == policies[..i];
      for k := 0 to |groups|
        invariant owned == before + added[..k]
        invariant Distinct(owned)
      {
        if groups[k].table in owned {
          TablesPrefix(policies, i + 1);
          var m :| 0 <= m < |owned| && owned[m] == groups[k].table;
          assert Tables(policies[..i + 1]) == before + added;
          assert Tables(policies)[m] == Tables(policies)[|owned|];
          return false;
        }
        owned := owned + [groups[k].table];
      }
    }
    assert policies[..|policies|] == policies;
    return true;
  }

  lemma {:induction false} TablesPrefix(policies: seq<Policy>, count: nat)
    requires count <= |policies|
    ensures Tables(policies[..count]) <= Tables(policies)
    decreases |policies| - count
  {
    if count == |policies| {
      assert policies[..count] == policies;
    } else {
      TablesPrefix(policies, count + 1);
      assert policies[..count + 1][..count] == policies[..count];
    }
  }

  method CheckPriorities(policies: seq<Policy>) returns (ok: bool)
    ensures ok <==> NoSharedWindow(policies)
  {
    var owners: map<int, string> := map[];
    for i := 0 to |policies|
      invariant NoSharedWindow(policies[..i])
      invariant forall k, q :: 0 <= k < i && InWindow(policies[k], q) ==> q in owners && owners[q] == policies[k].id
      invariant forall q :: q in owners ==>
        exists k :: 0 <= k < i && InWindow(policies[k], q) && owners[q] == policies[k].id
    {
      var policy := policies[i];
      ghost var before := owners;
      var priority := policy.base;
      while priority < policy.base + PRIORITY_WIDTH
        invariant policy.base <= priority <= policy.base + PRIORITY_WIDTH
        invariant forall q :: q in owners <==> q in before || policy.base <= q < priority
        invariant forall q :: q in before ==> owners[q] == before[q]
        invariant forall q :: policy.base <= q < priority ==> owners[q] == policy.id
      {
        if priority in owners && owners[priority] != policy.id {
          ghost var k :| 0 <= k < i && InWindow(policies[k], priority) && before[priority] == policies[k].id;
          assert SharedWindow(policies[k], policies[i]);
          return false;
        }
        owners := owners[priority := policy.id];
        priority := priority + 1;
      }
      forall k | 0 <= k < i
        ensures !SharedWindow(policies[k], policy)
      {
        var q := if policy.base < policies[k].base then policies[k].base else policy.base;
        assert InWindow(policies[k], q) && InWindow(policy, q) ==> q in before && before[q] == policies[k].id;
      }
    }
    assert policies[..|policies|] == policies;
    return true;
  }

  // ----- What the compiled rules do

  datatype Packet = Packet(src: Address, dst: Address)

  predicate RuleMatches(rule: Rule, packet: Packet) {
    match rule.selector
    case From(source) => source.length <= 32 && source.Contains(packet.src)
    case To(destination) => destination.length <= 32 && destination.Contains(packet.dst)
  }

  /** The kernel's choice: the lowest priority number that matches, the earliest rule among equals. */
  function FirstMatch(rules: seq<Rule>, packet: Packet): (hit: Option<Rule>)
    ensures hit.None? ==> forall r :: r in rules ==> !RuleMatches(r, packet)
    ensures hit.Some? ==> hit.value in rules && RuleMatches(hit.value, packet)
    ensures hit.Some? ==> forall r :: r in rules && RuleMatches(r, packet) ==> hit.value.priority <= r.priority
  {
    if rules == [] then None
    else
      var later := FirstMatch(rules[1..], packet);
      if RuleMatches(rules[0], packet) && (later.None? || rules[0].priority <= later.value.priority) then Some(rules[0])
      else later
  }

  predicate Holds(group: Group, src: Address) {
    exists c :: c in group.sources && c.length <= 32 && c.Contains(src)
  }

  /** The group of one of the policies applies on a node with this address, which is not its gateway. */
  ghost predicate Serves(policies: seq<Policy>, local: Option<Address>, g: Group) {
    local != Some(g.egress) && exists p :: p in policies && g in p.groups
  }

  /** Scoping to a node leaves exactly the groups of which it is not the gateway. */
  lemma ScopedGroups(policies: seq<Policy>, local: Option<Address>, g: Group)
    ensures g in GroupsOf(ScopedTo(policies, local)) <==> Serves(policies, local, g)
  {
    if p :| p in policies && g in p.groups && local != Some(g.egress) {
      assert ForNode(p, local).Some? && g in ForNode(p, local).value.groups;
      assert ForNode(p, local).value in ScopedTo(policies, local);
    }
    if s :| s in ScopedTo(policies, local) && g in s.groups {
      var p :| p in policies && ForNode(p, local) == Some(s);
      assert g in p.groups;
    }
  }

  ghost predicate ToEgress(policies: seq<Policy>, local: Option<Address>, dst: Address) {
    exists g :: Serves(policies, local, g) && g.egress == dst
  }

  ghost predicate FromGroup(policies: seq<Policy>, local: Option<Address>, src: Address) {
    exists g :: Serves(policies, local, g) && Holds(g, src)
  }

  /** What the inventory guarantees of one node's active policies. */
  predicate Admitted(policies: seq<Policy>) {
    && (forall p :: p in policies ==> p.WellFormed())
    && (forall i, j :: 0 <= i < j < |policies| ==> policies[i].id != policies[j].id)
    && Accepted(policies)
  }

  /** Any single group within the ranges is admitted: so the laws are about something. */
  lemma SingleIsAdmitted(id: string, egress: Address, source: Cidr, table: int, slot: nat, base: int)
    requires source.Valid() && 1 <= table <= 2147483647 && table !in {253, 254, 255} && slot < 16
    requires 10000 <= base <= 31742
    ensures Admitted([Policy(id, [Group(id, egress, [source], table, slot)], base)])
  {
    var group := Group(id, egress, [source], table, slot);
    var policy := Policy(id, [group], base);
    assert group.WellFormed() && policy.WellFormed() && Fits(policy);
    hide Overlap;
    OneRoute(policy, group);
  }

  /** Groups that differ in all that must differ make a well-formed policy, at both ends of its range. */
  lemma PairIsWellFormed(left: Group, right: Group, base: int)
    requires left.WellFormed() && right.WellFormed() && left.id != right.id && left.egress != right.egress
    requires left.slot != right.slot && left.table != right.table && 10000 <= base <= 31742
    ensures Policy("p", [left, right], base).WellFormed() && !Policy("p", [], base).WellFormed()
  {
  }

  lemma OneRoute(policy: Policy, group: Group)
    requires policy.groups == [group] && |group.sources| == 1
    ensures |Routes([policy])| == 1 && |Tables([policy])| == 1
  {
    assert [policy][..0] == [] && policy.groups[..0] == [];
    assert Routes([]) == [] && Tables([]) == [] && PolicyRoutes(policy, []) == [];
  }

  lemma RoutesAreApart(policies: seq<Policy>, p: Policy, g: Group, c: Cidr, q: Policy, h: Group, d: Cidr, src: Address)
    requires Admitted(policies)
    requires p in policies && g in p.groups && c in g.sources && q in policies && h in q.groups && d in h.sources
    requires c.length <= 32 && c.Contains(src) && d.length <= 32 && d.Contains(src)
    ensures Route(p.id, g.id, c) == Route(q.id, h.id, d)
  {
    assert c.Valid() && d.Valid() by {
      assert g.WellFormed() && h.WellFormed();
    }
    OverlapIsSharedAddress(c, d);
    OverlapIsSharedAddress(d, c);
    hide Overlap;
    var left, right := Route(p.id, g.id, c), Route(q.id, h.id, d);
    var routes := Routes(policies);
    assert left in routes && right in routes;
    var i :| 0 <= i < |routes| && routes[i] == left;
    var j :| 0 <= j < |routes| && routes[j] == right;
    if i < j {
      assert !Clash(routes[i], routes[j]);
    } else if j < i {
      assert !Clash(routes[j], routes[i]);
    }
  }

  /** No address belongs to two groups. */
  lemma GroupIsUnique(policies: seq<Policy>, p: Policy, g: Group, q: Policy, h: Group, src: Address)
    requires Admitted(policies)
    requires p in policies && g in p.groups && q in policies && h in q.groups
    requires Holds(g, src) && Holds(h, src)
    ensures p == q && g == h
  {
    var c :| c in g.sources && c.length <= 32 && c.Contains(src);
    var d :| d in h.sources && d.length <= 32 && d.Contains(src);
    RoutesAreApart(policies, p, g, c, q, h, d, src);
    var m :| 0 <= m < |policies| && policies[m] == p;
    var n :| 0 <= n < |policies| && policies[n] == q;
    assert m == n;
  }

  lemma GatewayContains(egress: Address, dst: Address)
    ensures Cidr(egress, 32).Contains(dst) <==> egress == dst
  {
    BlockSizes();
  }

  /** The rules of a node are its gateways' and its groups', and no others. */
  lemma RulesOfNode(policies: seq<Policy>, stable: Address -> nat, rule: Rule)
    ensures rule in ManagedRules(policies, stable) <==>
      || (exists g :: g in GroupsOf(policies) && rule == GatewayRule(g.egress, stable))
      || (exists p, g :: p in policies && g in p.groups && rule in GroupRules(p, g))
  {
  }

  /** Where a source rule comes from. */
  lemma SourceRuleOrigin(policies: seq<Policy>, local: Option<Address>, stable: Address -> nat, rule: Rule)
    returns (p: Policy, g: Group, i: nat)
    requires rule in ManagedRulesForNode(policies, local, stable) && rule.selector.From?
    ensures p in policies && g in p.groups && g in GroupsOf(ScopedTo(policies, local))
    ensures i < |g.sources| && rule == Rule(RulePriority(p, g, i), From(g.sources[i]), g.table)
  {
    var s: Policy;
    s, g, i := RuleOrigin(ScopedTo(policies, local), stable, rule);
    p := PolicyOfGroup(policies, local, s, g);
  }

  lemma RuleOrigin(policies: seq<Policy>, stable: Address -> nat, rule: Rule) returns (p: Policy, g: Group, i: nat)
    requires rule in ManagedRules(policies, stable) && rule.selector.From?
    ensures p in policies && g in p.groups
    ensures i < |g.sources| && rule == Rule(RulePriority(p, g, i), From(g.sources[i]), g.table)
  {
    RulesOfNode(policies, stable, rule);
    p, g :| p in policies && g in p.groups && rule in GroupRules(p, g);
    i := RuleIndex(p, g, rule);
  }

  lemma RuleIndex(p: Policy, g: Group, rule: Rule) returns (i: nat)
    requires rule in GroupRules(p, g)
    ensures i < |g.sources| && rule == Rule(RulePriority(p, g, i), From(g.sources[i]), g.table)
  {
    i :| 0 <= i < |GroupRules(p, g)| && GroupRules(p, g)[i] == rule;
  }

  lemma PolicyOfGroup(policies: seq<Policy>, local: Option<Address>, s: Policy, g: Group) returns (p: Policy)
    requires s in ScopedTo(policies, local) && g in s.groups
    ensures p in policies && g in p.groups && p.id == s.id && p.base == s.base
  {
    p :| p in policies && ForNode(p, local) == Some(s);
  }

  ghost predicate Routed(policies: seq<Policy>, local: Option<Address>, src: Address, table: int) {
    && FromGroup(policies, local, src)
    && forall g :: Serves(policies, local, g) && Holds(g, src) ==> g.table == table
  }

  /** Any matching rule of a node is a gateway exception for the destination or the rule of the source's only group. */
  lemma HitExplained(
    policies: seq<Policy>, local: Option<Address>, stable: Address -> nat, packet: Packet, rule: Rule)
    requires Admitted(policies)
    requires rule in ManagedRulesForNode(policies, local, stable) && RuleMatches(rule, packet)
    ensures rule.selector.To? ==>
      rule.priority < PRIORITY_MIN && rule.table == MAIN_TABLE
        && ToEgress(policies, local, packet.dst)
    ensures rule.selector.From? ==>
      rule.priority >= PRIORITY_MIN && Routed(policies, local, packet.src, rule.table)
  {
    if rule.selector.To? {
      RulesOfNode(ScopedTo(policies, local), stable, rule);
      var g :| g in GroupsOf(ScopedTo(policies, local)) && rule == GatewayRule(g.egress, stable);
      ScopedGroups(policies, local, g);
      GatewayContains(g.egress, packet.dst);
    } else {
      var p, g, i := SourceRuleOrigin(policies, local, stable, rule);
      assert g.sources[i] in g.sources && Holds(g, packet.src);
      assert p.WellFormed();
      ScopedGroups(policies, local, g);
      forall h | Serves(policies, local, h) && Holds(h, packet.src)
        ensures h == g
      {
        var q :| q in policies && h in q.groups;
        GroupIsUnique(policies, p, g, q, h, packet.src);
      }
    }
  }

  lemma GatewayMatches(policies: seq<Policy>, local: Option<Address>, stable: Address -> nat, packet: Packet)
    requires ToEgress(policies, local, packet.dst)
    ensures exists r ::
      r in ManagedRulesForNode(policies, local, stable) && RuleMatches(r, packet) && r.priority < PRIORITY_MIN
  {
    var g :| Serves(policies, local, g) && g.egress == packet.dst;
    ScopedGroups(policies, local, g);
    GatewayContains(g.egress, packet.dst);
    RulesOfNode(ScopedTo(policies, local), stable, GatewayRule(g.egress, stable));
  }

  lemma RuleOfGroup(scoped: seq<Policy>, stable: Address -> nat, p: Policy, g: Group, i: nat)
    requires p in scoped && g in p.groups && i < |g.sources|
    ensures Rule(RulePriority(p, g, i), From(g.sources[i]), g.table) in ManagedRules(scoped, stable)
  {
    var rule := Rule(RulePriority(p, g, i), From(g.sources[i]), g.table);
    assert GroupRules(p, g)[i] == rule;
    RulesOfNode(scoped, stable, rule);
  }

  lemma SourceMatches(policies: seq<Policy>, local: Option<Address>, stable: Address -> nat, packet: Packet, g: Group)
    requires Serves(policies, local, g) && Holds(g, packet.src)
    ensures exists r :: r in ManagedRulesForNode(policies, local, stable) && RuleMatches(r, packet)
  {
    var c :| c in g.sources && c.length <= 32 && c.Contains(packet.src);
    var i :| 0 <= i < |g.sources| && g.sources[i] == c;
    ScopedGroups(policies, local, g);
    hide ScopedTo, ManagedRules, RulePriority;
    var p :| p in ScopedTo(policies, local) && g in p.groups;
    RuleOfGroup(ScopedTo(policies, local), stable, p, g, i);
    assert RuleMatches(Rule(RulePriority(p, g, i), From(c), g.table), packet);
  }

  /**
   * First match over a node's compiled rules: main for an egress address, the table of the group that holds the source,
   * and no managed rule for anything else; the groups of which the node itself is the gateway do not count.
   */
  lemma {:induction false} CompiledRulesRoute(
    policies: seq<Policy>, local: Option<Address>, stable: Address -> nat, packet: Packet)
    requires Admitted(policies)
    ensures
      var hit := FirstMatch(ManagedRulesForNode(policies, local, stable), packet);
      if ToEgress(policies, local, packet.dst) then hit.Some? && hit.value.table == MAIN_TABLE
      else if FromGroup(policies, local, packet.src) then
        hit.Some? && Routed(policies, local, packet.src, hit.value.table)
      else hit.None?
  {
    var hit := FirstMatch(ManagedRulesForNode(policies, local, stable), packet);
    if hit.Some? {
      HitExplained(policies, local, stable, packet, hit.value);
    }
    if ToEgress(policies, local, packet.dst) {
      GatewayMatches(policies, local, stable, packet);
    } else if g :| Serves(policies, local, g) && Holds(g, packet.src) {
      SourceMatches(policies, local, stable, packet, g);
    }
  }

  /** Accepted policies send no two groups to one table, nor any to a reserved one. */
  lemma TablesAreApart(policies: seq<Policy>, i: nat, k: nat, j: nat, m: nat)
    requires Accepted(policies)
    requires i < |policies| && k < |policies[i].groups| && j < |policies| && m < |policies[j].groups|
    ensures policies[i].groups[k].table == policies[j].groups[m].table ==> i == j && k == m
    ensures policies[i].groups[k].table !in RESERVED_TABLES
  {
    assert Fits(policies[i]) && GroupFits(policies[i], policies[i].groups[k]);
    if policies[i].groups[k].table == policies[j].groups[m].table {
      DistinctTables(policies, i, k, j, m);
    }
  }

  lemma {:induction false} TableIsListed(policies: seq<Policy>, i: nat, k: nat)
    requires i < |policies| && k < |policies[i].groups|
    ensures policies[i].groups[k].table in Tables(policies)
  {
    var init, last := policies[..|policies| - 1], policies[|policies| - 1];
    var added := seq(|last.groups|, n requires 0 <= n < |last.groups| => last.groups[n].table);
    if i == |init| {
      assert added[k] == last.groups[k].table;
    } else {
      TableIsListed(init, i, k);
    }
  }

  lemma {:induction false} DistinctTables(policies: seq<Policy>, i: nat, k: nat, j: nat, m: nat)
    requires Distinct(Tables(policies))
    requires i < |policies| && k < |policies[i].groups| && j < |policies| && m < |policies[j].groups|
    requires policies[i].groups[k].table == policies[j].groups[m].table
    ensures i == j && k == m
    decreases |policies|
  {
    var init, last := policies[..|policies| - 1], policies[|policies| - 1];
    var added := seq(|last.groups|, n requires 0 <= n < |last.groups| => last.groups[n].table);
    var earlier, all := Tables(init), Tables(init) + added;
    assert all == Tables(policies);
    assert forall n :: 0 <= n < |earlier| ==> all[n] == earlier[n];
    assert forall n :: 0 <= n < |added| ==> all[|earlier| + n] == last.groups[n].table;
    if i < |init| && j < |init| {
      assert Distinct(earlier);
      DistinctTables(init, i, k, j, m);
    } else if i < |init| {
      TableIsListed(init, i, k);
    } else if j < |init| {
      TableIsListed(init, j, m);
    }
  }

  lemma WindowsAreApart(policies: seq<Policy>, m: nat, n: nat)
    requires Admitted(policies) && m < |policies| && n < |policies|
    ensures m < n ==> !SharedWindow(policies[m], policies[n])
    ensures n < m ==> !SharedWindow(policies[n], policies[m])
  {
  }

  /** Source rules have pairwise distinct priorities, all above every gateway rule's. */
  lemma SourcePrioritiesAreDistinct(
    policies: seq<Policy>, p: Policy, g: Group, i: nat, q: Policy, h: Group, j: nat)
    requires Admitted(policies)
    requires p in policies && g in p.groups && i < |g.sources|
    requires q in policies && h in q.groups && j < |h.sources|
    requires RulePriority(p, g, i) == RulePriority(q, h, j)
    ensures p == q && g == h && i == j
    ensures RulePriority(p, g, i) >= GATEWAY_PRIORITY_MIN + GATEWAY_PRIORITY_WIDTH
  {
    assert g.WellFormed() && h.WellFormed();
    var m :| 0 <= m < |policies| && policies[m] == p;
    var n :| 0 <= n < |policies| && policies[n] == q;
    WindowsAreApart(policies, m, n);
    assert g.slot == h.slot;
  }

  /** The agent accepts every compiled rule. */
  lemma ManagedRulesAreValid(policies: seq<Policy>, local: Option<Address>, stable: Address -> nat, rule: Rule)
    requires Admitted(policies) && rule in ManagedRulesForNode(policies, local, stable)
    ensures rule.Valid()
  {
    if rule.selector.To? {
      RulesOfNode(ScopedTo(policies, local), stable, rule);
      BlockSizes();
    } else {
      var p, g, i := SourceRuleOrigin(policies, local, stable, rule);
      assert g.WellFormed() && g.sources[i] in g.sources;
    }
  }
}
