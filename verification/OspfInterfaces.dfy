/**
 * Sharing of interfaces between OSPF links (src/ospf.ts) and the interface blocks rendered for them
 * (src/bird-render.ts).
 */
module OspfInterfaces {
  import Ipv4Text
  import opened Wrappers

  datatype Family = V4 | V6

  datatype Address = Address(text: string, family: Family)

  datatype Neighbor = Neighbor(address: Address, eligible: bool)

  datatype Setting = Setting(key: string, value: string)

  /** Interface options: the network type, all other settings in order, and the neighbours. */
  datatype Options = Options(kind: string, settings: seq<Setting>, neighbors: seq<Neighbor>)

  datatype Link = Link(
    id: string, fromNode: string, toNode: string, area: string, localInterface: string, remoteInterface: string,
    cost: int, hello: int, dead: int, passive: bool, authentication: string,
    localOptions: Options, remoteOptions: Options)

  /** A link as one of its nodes sees it. */
  datatype Endpoint = Endpoint(
    node: string, iface: string, area: string, cost: int, hello: int, dead: int, passive: bool, authentication: string,
    options: Options)

  datatype OspfError =
    | DuplicateId | SameNode | MissingInterface | InvalidInterface | InvalidArea | CostDiffers | CannotShare
    | OptionsDiffer

  function Local(l: Link): Endpoint {
    Endpoint(l.fromNode, l.localInterface, l.area, l.cost, l.hello, l.dead, l.passive, l.authentication, l.localOptions)
  }

  function Remote(l: Link): Endpoint {
    Endpoint(l.toNode, l.remoteInterface, l.area, l.cost, l.hello, l.dead, l.passive, l.authentication, l.remoteOptions)
  }

  function Endpoints(links: seq<Link>): seq<Endpoint> {
    if links == [] then []
    else Endpoints(links[..|links| - 1]) + [Local(links[|links| - 1]), Remote(links[|links| - 1])]
  }

  // ----- When links may share an interface

  predicate SameInterface(a: Endpoint, b: Endpoint) {
    a.node == b.node && a.iface == b.iface
  }

  predicate MultiPoint(e: Endpoint) {
    e.options.kind == "nbma" || e.options.kind == "ptmp"
  }

  /** Everything an interface block says except its neighbours. */
  predicate SameTimers(a: Endpoint, b: Endpoint) {
    a.area == b.area && a.cost == b.cost && a.hello == b.hello && a.dead == b.dead && a.passive == b.passive
    && a.authentication == b.authentication
  }

  predicate SameSettings(a: Endpoint, b: Endpoint) {
    a.options.kind == b.options.kind && a.options.settings == b.options.settings
  }

  predicate Compatible(a: Endpoint, b: Endpoint) {
    MultiPoint(a) && MultiPoint(b) && SameTimers(a, b) && SameSettings(a, b)
  }

  /** Any two links on an interface agree. */
  predicate Agreed(es: seq<Endpoint>) {
    forall i, j :: 0 <= i < j < |es| && SameInterface(es[i], es[j]) ==> Compatible(es[i], es[j])
  }

  predicate LetterOrUnderscore(c: char) {
    'A' <= c <= 'Z' || 'a' <= c <= 'z' || c == '_'
  }

  predicate InterfaceName(s: string) {
    && 1 <= |s| <= 64 && LetterOrUnderscore(s[0])
    && forall i :: 1 <= i < |s| ==> LetterOrUnderscore(s[i]) || '0' <= s[i] <= '9' || s[i] == '.' || s[i] == '-'
  }

  predicate LinkFits(l: Link) {
    && l.fromNode != l.toNode
    && InterfaceName(l.localInterface) && InterfaceName(l.remoteInterface)
    && Ipv4Text.ParseAddress(l.area).Some?
  }

  function Pair(l: Link): set<string> {
    {l.fromNode, l.toNode}
  }

  predicate CostsAgree(links: seq<Link>) {
    forall i, j :: 0 <= i < j < |links| && Pair(links[i]) == Pair(links[j]) ==> links[i].cost == links[j].cost
  }

  predicate DistinctIds(links: seq<Link>) {
    forall i, j :: 0 <= i < j < |links| ==> links[i].id != links[j].id
  }

  predicate AcceptedLinks(links: seq<Link>) {
    && DistinctIds(links) && (forall i :: 0 <= i < |links| ==> LinkFits(links[i]))
    && CostsAgree(links) && Agreed(Endpoints(links))
  }

  // ----- Comparing with the first user only

  type Key = (string, string)

  function KeyOf(e: Endpoint): Key {
    (e.node, e.iface)
  }

  /** What the checked endpoints have left in the map of first users. */
  predicate Tracked(used: map<Key, Endpoint>, es: seq<Endpoint>) {
    && (forall i :: 0 <= i < |es| ==>
      KeyOf(es[i]) in used && (used[KeyOf(es[i])] == es[i] || Compatible(used[KeyOf(es[i])], es[i])))
    && (forall k :: k in used ==> KeyOf(used[k]) == k && used[k] in es)
    && Agreed(es)
  }

  lemma FirstUser(used: map<Key, Endpoint>, es: seq<Endpoint>, e: Endpoint)
    requires Tracked(used, es) && KeyOf(e) !in used
    ensures Tracked(used[KeyOf(e) := e], es + [e])
  {
    var grown := es + [e];
    forall i, j | 0 <= i < j < |grown| && SameInterface(grown[i], grown[j])
      ensures Compatible(grown[i], grown[j])
    {
      assert KeyOf(grown[i]) == KeyOf(grown[j]);
    }
  }

  lemma LaterUser(used: map<Key, Endpoint>, es: seq<Endpoint>, e: Endpoint)
    requires Tracked(used, es) && KeyOf(e) in used
    ensures Compatible(used[KeyOf(e)], e) ==> Tracked(used, es + [e])
    ensures !Compatible(used[KeyOf(e)], e) ==> !Agreed(es + [e])
  {
    var grown, first := es + [e], used[KeyOf(e)];
    if Compatible(first, e) {
      forall i, j | 0 <= i < j < |grown| && SameInterface(grown[i], grown[j])
        ensures Compatible(grown[i], grown[j])
      {
        if j == |es| {
          assert KeyOf(grown[i]) == KeyOf(e);
        }
      }
    } else {
      var i :| 0 <= i < |es| && es[i] == first;
      assert grown[i] == first && grown[|es|] == e && SameInterface(grown[i], grown[|es|]);
    }
  }

  lemma AgreedPrefix(es: seq<Endpoint>, more: seq<Endpoint>)
    requires Agreed(es + more)
    ensures Agreed(es)
  {
    forall i, j | 0 <= i < j < |es| && SameInterface(es[i], es[j])
      ensures Compatible(es[i], es[j])
    {
      assert (es + more)[i] == es[i] && (es + more)[j] == es[j];
    }
  }

  lemma {:induction false} EndpointsPrefix(links: seq<Link>, n: nat)
    requires n <= |links| && Agreed(Endpoints(links))
    ensures Agreed(Endpoints(links[..n]))
  {
    if n == |links| {
      assert links[..n] == links;
    } else {
      var init := links[..|links| - 1];
      AgreedPrefix(Endpoints(init), [Local(links[|links| - 1]), Remote(links[|links| - 1])]);
      EndpointsPrefix(init, n);
      assert init[..n] == links[..n];
    }
  }

  /** One endpoint against the first user of its interface. */
  method CheckEndpoint(used: map<Key, Endpoint>, e: Endpoint, ghost es: seq<Endpoint>)
    returns (result: Result<map<Key, Endpoint>, OspfError>)
    requires Tracked(used, es)
    ensures result.Ok? ==> Tracked(result.value, es + [e])
    ensures result.Err? ==> !Agreed(es + [e])
  {
    if KeyOf(e) !in used {
      FirstUser(used, es, e);
      return Ok(used[KeyOf(e) := e]);
    }
    LaterUser(used, es, e);
    var previous := used[KeyOf(e)];
    if !(MultiPoint(previous) && MultiPoint(e) && SameTimers(previous, e)) {
      return Err(CannotShare);
    }
    if !SameSettings(previous, e) {
      return Err(OptionsDiffer);
    }
    return Ok(used);
  }

  method CheckLink(l: Link) returns (error: Option<OspfError>)
    ensures error.None? <==> LinkFits(l)
    ensures error == Some(SameNode) <==> l.fromNode == l.toNode
    ensures error == Some(MissingInterface) <==>
      l.fromNode != l.toNode && (l.localInterface == "" || l.remoteInterface == "")
    ensures error == Some(InvalidArea) ==> Ipv4Text.ParseAddress(l.area).None?
    ensures error in {None, Some(SameNode), Some(MissingInterface), Some(InvalidInterface), Some(InvalidArea)}
  {
    if l.fromNode == l.toNode {
      return Some(SameNode);
    }
    if l.localInterface == "" || l.remoteInterface == "" {
      return Some(MissingInterface);
    }
    if !InterfaceName(l.localInterface) || !InterfaceName(l.remoteInterface) {
      return Some(InvalidInterface);
    }
    if Ipv4Text.ParseAddress(l.area).None? {
      return Some(InvalidArea);
    }
    return None;
  }

  /** The costs seen so far, by pair of nodes. */
  predicate CostsTracked(costs: map<set<string>, int>, links: seq<Link>) {
    && (forall i :: 0 <= i < |links| ==> Pair(links[i]) in costs && costs[Pair(links[i])] == links[i].cost)
    && (forall p :: p in costs ==> exists i :: 0 <= i < |links| && Pair(links[i]) == p)
  }

  lemma CostStep(costs: map<set<string>, int>, links: seq<Link>, n: nat)
    requires n < |links| && CostsTracked(costs, links[..n])
    ensures
      var l := links[n];
      if l.fromNode != l.toNode && Pair(l) in costs && costs[Pair(l)] != l.cost then !CostsAgree(links)
      else Pair(l) !in costs || costs[Pair(l)] == l.cost ==> CostsTracked(costs[Pair(l) := l.cost], links[..n + 1])
  {
    var l := links[n];
    if Pair(l) in costs && costs[Pair(l)] != l.cost {
      var i :| 0 <= i < n && Pair(links[..n][i]) == Pair(l);
      assert links[i].cost == costs[Pair(l)];
    } else {
      var grown := costs[Pair(l) := l.cost];
      var seen := links[..n + 1];
      assert seen == links[..n] + [l];
      forall p | p in grown
        ensures exists i :: 0 <= i < |seen| && Pair(seen[i]) == p
      {
        if p in costs {
          var i :| 0 <= i < n && Pair(links[..n][i]) == p;
          assert Pair(seen[i]) == p;
        } else {
          assert Pair(seen[n]) == p;
        }
      }
    }
  }

  lemma CostsTrackedAgree(costs: map<set<string>, int>, links: seq<Link>)
    requires CostsTracked(costs, links)
    ensures CostsAgree(links)
  {
  }

  /** The checks of one link: its own, its cost, and both its endpoints. */
  method CheckNext(links: seq<Link>, n: nat, costs: map<set<string>, int>, used: map<Key, Endpoint>)
    returns (error: Option<OspfError>, moreCosts: map<set<string>, int>, moreUsed: map<Key, Endpoint>)
    requires n < |links| && CostsTracked(costs, links[..n]) && Tracked(used, Endpoints(links[..n]))
    ensures error.Some? ==> !AcceptedLinks(links)
    ensures error.None? ==>
      LinkFits(links[n]) && CostsTracked(moreCosts, links[..n + 1]) && Tracked(moreUsed, Endpoints(links[..n + 1]))
  {
    var l := links[n];
    moreCosts, moreUsed := costs, used;
    error := CheckLink(l);
    if error.Some? {
      return;
    }
    CostStep(costs, links, n);
    if Pair(l) in costs && costs[Pair(l)] != l.cost {
      error := Some(CostDiffers);
      return;
    }
    moreCosts := costs[Pair(l) := l.cost];
    ghost var es := Endpoints(links[..n]);
    EndpointsNext(links, n);
    var first := CheckEndpoint(used, Local(l), es);
    if first.Err? {
      error := Some(first.error);
      return;
    }
    var second := CheckEndpoint(first.value, Remote(l), es + [Local(l)]);
    if second.Err? {
      error := Some(second.error);
      return;
    }
    moreUsed := second.value;
  }

  lemma EndpointsNext(links: seq<Link>, n: nat)
    requires n < |links|
    ensures Endpoints(links[..n + 1]) == Endpoints(links[..n]) + [Local(links[n])] + [Remote(links[n])]
    ensures AcceptedLinks(links) ==>
      Agreed(Endpoints(links[..n]) + [Local(links[n])])
        && Agreed(Endpoints(links[..n]) + [Local(links[n])] + [Remote(links[n])])
  {
    assert links[..n + 1][..n] == links[..n];
    var es, local, remote := Endpoints(links[..n]), Local(links[n]), Remote(links[n]);
    assert es + [local, remote] == es + [local] + [remote];
    if AcceptedLinks(links) {
      EndpointsPrefix(links, n + 1);
      AgreedPrefix(es + [local], [remote]);
    }
  }

  /** Accepts exactly the links of which any two on an interface agree, though each is compared with the first only. */
  method CheckLinks(links: seq<Link>) returns (error: Option<OspfError>)
    ensures error.None? <==> AcceptedLinks(links)
  {
    if !DistinctIds(links) {
      return Some(DuplicateId);
    }
    var costs: map<set<string>, int> := map[];
    var used: map<Key, Endpoint> := map[];
    for n := 0 to |links|
      invariant forall i :: 0 <= i < n ==> LinkFits(links[i])
      invariant CostsTracked(costs, links[..n]) && Tracked(used, Endpoints(links[..n]))
    {
      error, costs, used := CheckNext(links, n, costs, used);
      if error.Some? {
        return;
      }
    }
    assert links[..|links|] == links;
    CostsTrackedAgree(costs, links);
    return None;
  }

  // ----- Rendering: links by area, and blocks by interface

  /** The node's end of a link, as the renderer takes it. */
  function View(l: Link, node: string): Endpoint {
    if l.fromNode == node then Local(l) else Remote(l)
  }

  function Views(links: seq<Link>, node: string): seq<Endpoint> {
    if links == [] then []
    else
      var earlier, l := Views(links[..|links| - 1], node), links[|links| - 1];
      if l.fromNode == node || l.toNode == node then earlier + [View(l, node)] else earlier
  }

  function InArea(views: seq<Endpoint>, area: string): seq<Endpoint> {
    if views == [] then []
    else
      var earlier, v := InArea(views[..|views| - 1], area), views[|views| - 1];
      if v.area == area then earlier + [v] else earlier
  }

  datatype Block = Block(link: Endpoint, neighbors: map<Address, bool>)

  function AddNeighbors(known: map<Address, bool>, more: seq<Neighbor>, family: Family): map<Address, bool> {
    if more == [] then known
    else
      var earlier, n := AddNeighbors(known, more[..|more| - 1], family), more[|more| - 1];
      if n.address.family != family then earlier
      else earlier[n.address := (n.address in earlier && earlier[n.address]) || n.eligible]
  }

  /** The interface blocks of an area: the first link of each interface, and the neighbours of all. */
  function Blocks(views: seq<Endpoint>, family: Family): map<string, Block> {
    if views == [] then map[]
    else
      var earlier, v := Blocks(views[..|views| - 1], family), views[|views| - 1];
      var block := if v.iface in earlier then earlier[v.iface] else Block(v, map[]);
      earlier[v.iface := block.(neighbors := AddNeighbors(block.neighbors, v.options.neighbors, family))]
  }

  method RenderBlocks(links: seq<Endpoint>, family: Family) returns (groups: map<string, Block>)
    ensures groups == Blocks(links, family)
  {
    groups := map[];
    for i := 0 to |links|
      invariant groups == Blocks(links[..i], family)
    {
      assert links[..i + 1][..i] == links[..i];
      var link := links[i];
      var group := if link.iface in groups then groups[link.iface] else Block(link, map[]);
      var neighbors := group.neighbors;
      var listed := link.options.neighbors;
      for k := 0 to |listed|
        invariant neighbors == AddNeighbors(group.neighbors, listed[..k], family)
      {
        assert listed[..k + 1][..k] == listed[..k];
        var neighbor := listed[k];
        if neighbor.address.family == family {
          neighbors := neighbors[neighbor.address :=
            (neighbor.address in neighbors && neighbors[neighbor.address]) || neighbor.eligible];
        }
      }
      assert listed[..|listed|] == listed;
      groups := groups[link.iface := group.(neighbors := neighbors)];
    }
    assert links[..|links|] == links;
  }

  predicate Grouped(areas: map<string, seq<Endpoint>>, views: seq<Endpoint>, others: set<string>) {
    && areas.Keys == (set v | v in views :: v.area) + others
    && forall a :: a in areas ==> areas[a] == InArea(views, a)
  }

  lemma GroupedStep(areas: map<string, seq<Endpoint>>, views: seq<Endpoint>, v: Endpoint)
    requires Grouped(areas, views, {})
    ensures Grouped(areas[v.area := (if v.area in areas then areas[v.area] else []) + [v]], views + [v], {})
  {
    var grown := areas[v.area := (if v.area in areas then areas[v.area] else []) + [v]];
    assert (views + [v])[..|views|] == views;
    AreaOfNone(views, v.area);
    assert grown.Keys == set w | w in views + [v] :: w.area;
  }

  /** Links by area. An area may also come from the node's options or virtual links alone. */
  method GroupByArea(
    links: seq<Link>, node: string, otherAreas: seq<string>) returns (areas: map<string, seq<Endpoint>>)
    ensures Grouped(areas, Views(links, node), set a | a in otherAreas)
  {
    areas := map[];
    for i := 0 to |links|
      invariant Grouped(areas, Views(links[..i], node), {})
    {
      assert links[..i + 1][..i] == links[..i];
      var link := links[i];
      if link.fromNode != node && link.toNode != node {
        continue;
      }
      var v := View(link, node);
      GroupedStep(areas, Views(links[..i], node), v);
      areas := areas[v.area := (if v.area in areas then areas[v.area] else []) + [v]];
    }
    assert links[..|links|] == links;
    ghost var done: set<string> := {};
    for k := 0 to |otherAreas|
      invariant done == set j | 0 <= j < k :: otherAreas[j]
      invariant Grouped(areas, Views(links, node), done)
    {
      if otherAreas[k] !in areas {
        AreaOfNone(Views(links, node), otherAreas[k]);
        areas := areas[otherAreas[k] := []];
      }
      done := done + {otherAreas[k]};
    }
    assert done == set a | a in otherAreas;
  }

  lemma {:induction false} AreaOfNone(views: seq<Endpoint>, area: string)
    ensures InArea(views, area) == [] <==> forall v :: v in views ==> v.area != area
    ensures forall v :: v in InArea(views, area) <==> v in views && v.area == area
  {
    if views != [] {
      AreaOfNone(views[..|views| - 1], area);
      assert views == views[..|views| - 1] + [views[|views| - 1]];
    }
  }

  // ----- What the blocks say

  ghost predicate Listed(views: seq<Endpoint>, iface: string, a: Address) {
    exists v, n :: v in views && n in v.options.neighbors && v.iface == iface && n.address == a
  }

  ghost predicate ListedEligible(views: seq<Endpoint>, iface: string, a: Address) {
    exists v, n :: v in views && n in v.options.neighbors && v.iface == iface && n.address == a && n.eligible
  }

  ghost predicate Named(more: seq<Neighbor>, a: Address) {
    exists n :: n in more && n.address == a
  }

  ghost predicate NamedEligible(more: seq<Neighbor>, a: Address) {
    exists n :: n in more && n.address == a && n.eligible
  }

  lemma {:induction false} AddedNeighbors(known: map<Address, bool>, more: seq<Neighbor>, family: Family, a: Address)
    ensures var added := AddNeighbors(known, more, family);
      && (a in added <==> a in known || (a.family == family && Named(more, a)))
      && (a in added ==> (added[a] <==> (a in known && known[a]) || (a.family == family && NamedEligible(more, a))))
  {
    if more != [] {
      var init, n := more[..|more| - 1], more[|more| - 1];
      AddedNeighbors(known, init, family, a);
      assert more == init + [n];
      assert Named(more, a) <==> Named(init, a) || n.address == a;
      assert NamedEligible(more, a) <==> NamedEligible(init, a) || (n.address == a && n.eligible);
    }
  }

  /** Every interface has one block, that of its first link, with the neighbours of all its links. */
  lemma {:induction false} BlocksSay(views: seq<Endpoint>, family: Family, iface: string, a: Address)
    ensures iface in Blocks(views, family) <==> exists v :: v in views && v.iface == iface
    ensures iface in Blocks(views, family) ==>
      var block := Blocks(views, family)[iface];
      && block.link in views && block.link.iface == iface
      && (a in block.neighbors <==> a.family == family && Listed(views, iface, a))
      && (a in block.neighbors ==> (block.neighbors[a] <==> ListedEligible(views, iface, a)))
  {
    if views != [] {
      var init, v := views[..|views| - 1], views[|views| - 1];
      BlocksSay(init, family, iface, a);
      assert views == init + [v];
      ListedStep(init, v, iface, a);
      if v.iface == iface {
        var block := if iface in Blocks(init, family) then Blocks(init, family)[iface] else Block(v, map[]);
        AddedNeighbors(block.neighbors, v.options.neighbors, family, a);
        if iface !in Blocks(init, family) {
          assert !Listed(init, iface, a);
        }
      }
    }
  }

  lemma ListedStep(init: seq<Endpoint>, v: Endpoint, iface: string, a: Address)
    ensures Listed(init + [v], iface, a) <==>
      Listed(init, iface, a) || (v.iface == iface && Named(v.options.neighbors, a))
    ensures ListedEligible(init + [v], iface, a) <==>
      ListedEligible(init, iface, a) || (v.iface == iface && NamedEligible(v.options.neighbors, a))
  {
    assert forall w :: w in init + [v] <==> w in init || w == v;
    if v.iface == iface && Named(v.options.neighbors, a) {
      var n :| n in v.options.neighbors && n.address == a;
      assert v in init + [v] && n in v.options.neighbors;
    }
    if v.iface == iface && NamedEligible(v.options.neighbors, a) {
      var n :| n in v.options.neighbors && n.address == a && n.eligible;
      assert v in init + [v] && n in v.options.neighbors;
    }
  }

  lemma {:induction false} ViewsAreEndpoints(links: seq<Link>, node: string)
    ensures forall v :: v in Views(links, node) ==> v in Endpoints(links) && v.node == node
  {
    if links != [] {
      ViewsAreEndpoints(links[..|links| - 1], node);
    }
  }

  /** Agreement of all links carries over to what one node sees. */
  lemma {:induction false} ViewsAgree(links: seq<Link>, node: string)
    requires Agreed(Endpoints(links))
    ensures Agreed(Views(links, node))
  {
    if links != [] {
      var init, l := links[..|links| - 1], links[|links| - 1];
      var es, views := Endpoints(init), Views(init, node);
      AgreedPrefix(es, [Local(l), Remote(l)]);
      ViewsAgree(init, node);
      ViewsAreEndpoints(init, node);
      if l.fromNode == node || l.toNode == node {
        var v := View(l, node);
        forall i | 0 <= i < |views| && SameInterface(views[i], v)
          ensures Compatible(views[i], v)
        {
          assert views[i] in es;
          var j :| 0 <= j < |es| && es[j] == views[i];
          var all := Endpoints(links);
          assert all[j] == es[j] && all[|es|] == Local(l) && all[|es| + 1] == Remote(l);
        }
      }
    }
  }

  /** All that an interface block says but its neighbours. */
  function Bare(e: Endpoint): Endpoint {
    e.(options := e.options.(neighbors := []))
  }

  predicate SaysTheSame(a: Endpoint, b: Endpoint) {
    Bare(a) == Bare(b)
  }

  /** Links may share an interface exactly when both are multi-point and they differ in their neighbours alone. */
  lemma AgreedIff(es: seq<Endpoint>)
    ensures Agreed(es) <==>
      forall i, j :: 0 <= i < j < |es| && es[i].node == es[j].node && es[i].iface == es[j].iface ==>
        SaysTheSame(es[i], es[j]) && es[i].options.kind in {"nbma", "ptmp"}
  {
  }

  /** An interface name can be put into the configuration as it is. */
  lemma InterfaceNameIsPlain(s: string)
    ensures InterfaceName(s) ==>
      1 <= |s| <= 64 && s[0] !in "0123456789.-" && forall c :: c in s ==> c !in "\"'\\{};#/ \t\r\n:"
    ensures InterfaceName("eth0") && InterfaceName("_wg-A.z9") && InterfaceName("a") && InterfaceName("AZz")
    ensures |s| == 64 && (forall c :: c in s ==> c == 'z') ==> InterfaceName(s)
  {
    assert forall i :: 0 <= i < |s| ==> s[i] in s;
    assert "AZz"[0] == 'A' && "AZz"[1] == 'Z' && "AZz"[2] == 'z' && "a"[0] == 'a';
  }

  lemma SharedSayTheSame(views: seq<Endpoint>, v: Endpoint, w: Endpoint)
    requires Agreed(views) && v in views && w in views && SameInterface(v, w)
    ensures SaysTheSame(v, w)
  {
    var i :| 0 <= i < |views| && views[i] == v;
    var j :| 0 <= j < |views| && views[j] == w;
    assert i < j ==> Compatible(views[i], views[j]);
    assert j < i ==> Compatible(views[j], views[i]);
  }

  /**
   * In accepted links, each link of a node is rendered right by the one block of its interface: the block stands in the
   * link's area and in no other, says what the link says, and names the neighbours of all links on the interface, an
   * address being eligible if any of them makes it so.
   */
  lemma BlockIsRightForAllLinks(links: seq<Link>, node: string, family: Family, v: Endpoint, a: Address)
    requires AcceptedLinks(links) && v in Views(links, node)
    ensures forall area :: v.iface in Blocks(InArea(Views(links, node), area), family) <==> area == v.area
    ensures
      var block := Blocks(InArea(Views(links, node), v.area), family)[v.iface];
      && SaysTheSame(block.link, v)
      && (a in block.neighbors <==> a.family == family && Listed(Views(links, node), v.iface, a))
      && (a in block.neighbors ==> (block.neighbors[a] <==> ListedEligible(Views(links, node), v.iface, a)))
  {
    var views := Views(links, node);
    ViewsAgree(links, node);
    ViewsAreEndpoints(links, node);
    forall w | w in views && w.iface == v.iface
      ensures SaysTheSame(w, v) && w in InArea(views, v.area)
    {
      SharedSayTheSame(views, w, v);
      AreaOfNone(views, v.area);
    }
    forall area
      ensures v.iface in Blocks(InArea(views, area), family) <==> area == v.area
    {
      AreaOfNone(views, area);
      BlocksSay(InArea(views, area), family, v.iface, a);
    }
    AreaOfNone(views, v.area);
    BlocksSay(InArea(views, v.area), family, v.iface, a);
    assert Listed(InArea(views, v.area), v.iface, a) <==> Listed(views, v.iface, a);
    assert ListedEligible(InArea(views, v.area), v.iface, a) <==> ListedEligible(views, v.iface, a);
  }
}
