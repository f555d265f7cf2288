/** The resource dependency graph (src/bird-resource-dependencies.ts) and the order in which resources are rendered
    for a node (src/bird-render.ts). */
module Dependencies {
  import opened Wrappers

  type Key = string
  type NodeId = string

  datatype Kind = Define | Function | Filter | Rpki | Static | SourcePolicy | Ospf | Pipe

  datatype Scope = AllNodes | Nodes(ids: set<NodeId>) {
    predicate AppliesTo(n: NodeId) {
      AllNodes? || n in ids
    }

    predicate Contains(consumer: Scope) {
      AllNodes? || (consumer.Nodes? && consumer.ids <= ids)
    }
  }

  datatype Resource = Resource(
    key: Key, kind: Kind, enabled: bool, scope: Scope, phase: nat, index: nat,
    references: seq<string>, provided: set<string>)

  datatype Edge = Edge(consumer: Resource, provider: Resource, symbol: string)

  // ----- Edges

  function Providers(nodes: seq<Resource>, symbol: string): (providers: seq<Resource>)
    ensures forall p :: p in providers <==> p in nodes && symbol in p.provided
  {
    if nodes == [] then []
    else if symbol in nodes[0].provided then [nodes[0]] + Providers(nodes[1..], symbol)
    else Providers(nodes[1..], symbol)
  }

  function FirstContaining(candidates: seq<Resource>, scope: Scope): Option<Resource> {
    if candidates == [] then None
    else if candidates[0].scope.Contains(scope) then Some(candidates[0])
    else FirstContaining(candidates[1..], scope)
  }

  function FirstWithKey(candidates: seq<Resource>, key: Key): Option<Resource> {
    if candidates == [] then None
    else if candidates[0].key == key then Some(candidates[0])
    else FirstWithKey(candidates[1..], key)
  }

  /** The provider of the consumer's scope, else the consumer itself, else the first one. */
  function ResolveProvider(consumer: Resource, candidates: seq<Resource>): Resource
    requires candidates != []
  {
    var scoped, own := FirstContaining(candidates, consumer.scope), FirstWithKey(candidates, consumer.key);
    if scoped.Some? then scoped.value else if own.Some? then own.value else candidates[0]
  }

  lemma {:induction false} FirstIsMember(candidates: seq<Resource>, scope: Scope, key: Key)
    ensures FirstContaining(candidates, scope).Some? ==> FirstContaining(candidates, scope).value in candidates
    ensures FirstWithKey(candidates, key).Some? ==> FirstWithKey(candidates, key).value in candidates
    ensures FirstContaining(candidates, scope).None? ==> forall c :: c in candidates ==> !c.scope.Contains(scope)
    ensures FirstContaining(candidates, scope).Some? ==> FirstContaining(candidates, scope).value.scope.Contains(scope)
  {
    if candidates != [] {
      FirstIsMember(candidates[1..], scope, key);
    }
  }

  /** A reference is resolved to a provider that covers the consumer's nodes whenever there is one. */
  lemma ResolvedCoversIfPossible(consumer: Resource, candidates: seq<Resource>)
    requires candidates != []
    ensures ResolveProvider(consumer, candidates) in candidates
    ensures ResolveProvider(consumer, candidates).scope.Contains(consumer.scope)
       <==> exists c :: c in candidates && c.scope.Contains(consumer.scope)
  {
    FirstIsMember(candidates, consumer.scope, consumer.key);
  }

  /** One edge per provider, labelled with the first symbol that needs it. */
  function EdgesOf(consumer: Resource, nodes: seq<Resource>, references: seq<string>): (edges: seq<Edge>)
    ensures forall e :: e in edges ==> e.consumer == consumer && e.provider in nodes
  {
    if references == [] then []
    else
      var rest := EdgesOf(consumer, nodes, references[..|references| - 1]);
      var symbol := references[|references| - 1];
      var candidates := Providers(nodes, symbol);
      if candidates == [] then rest
      else
        var provider := ResolveProvider(consumer, candidates);
        ResolvedCoversIfPossible(consumer, candidates);
        if exists e :: e in rest && e.provider.key == provider.key then rest
        else rest + [Edge(consumer, provider, symbol)]
  }

  /** Every reference that anything provides has its edge. */
  lemma {:induction false} ReferenceHasEdge(
    consumer: Resource, nodes: seq<Resource>, references: seq<string>, symbol: string)
    requires symbol in references && Providers(nodes, symbol) != []
    requires UniqueKeys(nodes)
    ensures exists e ::
      e in EdgesOf(consumer, nodes, references) && e.provider == ResolveProvider(consumer, Providers(nodes, symbol))
  {
    var rest, last := references[..|references| - 1], references[|references| - 1];
    var edges := EdgesOf(consumer, nodes, references);
    var provider := ResolveProvider(consumer, Providers(nodes, symbol));
    ResolvedCoversIfPossible(consumer, Providers(nodes, symbol));
    assert references == rest + [last];
    if symbol == last {
      if e :| e in EdgesOf(consumer, nodes, rest) && e.provider.key == provider.key {
        SameKeySameResource(nodes, e.provider, provider);
        assert e in edges;
      } else {
        assert Edge(consumer, provider, symbol) in edges;
      }
    } else {
      ReferenceHasEdge(consumer, nodes, rest, symbol);
      var e :| e in EdgesOf(consumer, nodes, rest) && e.provider == provider;
      assert e in edges;
    }
  }

  predicate UniqueKeys(nodes: seq<Resource>) {
    forall i, j :: 0 <= i < j < |nodes| ==> nodes[i].key != nodes[j].key
  }

  lemma SameKeySameResource(nodes: seq<Resource>, left: Resource, right: Resource)
    requires UniqueKeys(nodes) && left in nodes && right in nodes && left.key == right.key
    ensures left == right
  {
    var i :| 0 <= i < |nodes| && nodes[i] == left;
    var j :| 0 <= j < |nodes| && nodes[j] == right;
    assert i == j;
  }

  // ----- Cycles

  /** The nodes of a graph, and for each the providers it points to. */
  datatype Graph = Graph(nodes: set<Key>, next: map<Key, seq<Key>>) {
    predicate Valid() {
      next.Keys == nodes && forall k, p :: k in next && p in next[k] ==> p in nodes
    }

    predicate HasEdge(k: Key, p: Key) {
      k in next && p in next[k]
    }

    /** Consecutive nodes are joined by edges. */
    predicate IsPath(path: seq<Key>) {
      forall i :: 0 <= i < |path| - 1 ==> HasEdge(path[i], path[i + 1])
    }

    predicate IsCycle(path: seq<Key>) {
      |path| >= 2 && path[0] == path[|path| - 1] && IsPath(path)
    }

    ghost predicate Acyclic() {
      forall path :: !IsCycle(path)
    }
  }

  datatype Mark = Visiting | Complete

  /** Edges go from later-finished nodes to earlier ones. */
  ghost predicate Ranked(graph: Graph, rank: map<Key, nat>) {
    forall k, p :: k in rank && graph.HasEdge(k, p) ==> p in rank && rank[p] < rank[k]
  }

  lemma {:induction false} PathDescends(graph: Graph, rank: map<Key, nat>, path: seq<Key>)
    requires Ranked(graph, rank) && graph.IsPath(path) && path != [] && path[0] in rank
    ensures path[|path| - 1] in rank
    ensures |path| >= 2 ==> rank[path[|path| - 1]] < rank[path[0]]
    decreases |path|
  {
    if |path| >= 2 {
      assert graph.HasEdge(path[0], path[1]);
      var rest := path[1..];
      forall i | 0 <= i < |rest| - 1
        ensures graph.HasEdge(rest[i], rest[i + 1])
      {
        assert graph.HasEdge(path[i + 1], path[i + 1 + 1]);
      }
      PathDescends(graph, rank, rest);
    }
  }

  class CycleCheck {
    const graph: Graph
    var states: map<Key, Mark>
    var stack: seq<Key>
    /** When each node was completed. */
    ghost var rank: map<Key, nat>
    ghost var clock: nat

    constructor (graph: Graph)
      ensures this.graph == graph && states == map[] && stack == [] && rank == map[] && clock == 0
    {
      this.graph, states, stack, rank, clock := graph, map[], [], map[], 0;
    }

    /** The stack is the path of the nodes being visited; completed nodes only point to nodes completed before. */
    ghost predicate Valid()
      reads this
    {
      && graph.Valid() && states.Keys <= graph.nodes
      && graph.IsPath(stack)
      && (forall k :: k in stack <==> k in states && states[k].Visiting?)
      && (forall i, j :: 0 <= i < j < |stack| ==> stack[i] != stack[j])
      && (forall k :: k in rank <==> k in states && states[k].Complete?)
      && (forall k :: k in rank ==> rank[k] < clock)
      && Ranked(graph, rank)
    }

    method Enter(node: Key)
      requires Valid() && node in graph.nodes && node !in states
      requires stack != [] ==> graph.HasEdge(stack[|stack| - 1], node)
      modifies this`states, this`stack
      ensures Valid() && stack == old(stack) + [node] && states == old(states)[node := Visiting]
    {
      states := states[node := Visiting];
      stack := stack + [node];
    }

    method Leave(node: Key)
      requires Valid() && stack != [] && stack[|stack| - 1] == node && node in graph.nodes
      requires forall p :: graph.HasEdge(node, p) ==> p in rank
      modifies this`states, this`stack, this`rank, this`clock
      ensures Valid() && stack == old(stack)[..|old(stack)| - 1] && states == old(states)[node := Complete]
      ensures rank == old(rank)[node := old(clock)]
    {
      assert node in stack;
      stack := stack[..|stack| - 1];
      states := states[node := Complete];
      rank, clock := rank[node := clock], clock + 1;
      assert forall k :: k in old(stack) <==> k in stack || k == node;
    }

    /** Visits a new node; answers the first cycle met. */
    method Visit(node: Key) returns (cycle: Option<seq<Key>>)
      requires Valid() && node in graph.nodes && node !in states
      requires stack != [] ==> graph.HasEdge(stack[|stack| - 1], node)
      modifies this
      ensures cycle.Some? ==> graph.IsCycle(cycle.value)
      ensures cycle.None? ==> Valid() && stack == old(stack) && node in rank
      ensures cycle.None? ==> old(states).Keys <= states.Keys && forall k :: k in old(rank) ==> k in rank
      decreases graph.nodes - states.Keys
    {
      hide Ranked, Graph.IsPath, Graph.IsCycle;
      ghost var before := stack;
      Enter(node);
      var providers := graph.next[node];
      for i := 0 to |providers|
        invariant Valid() && stack == before + [node]
        invariant old(states).Keys + {node} <= states.Keys
        invariant forall k :: k in old(rank) ==> k in rank
        invariant forall j :: 0 <= j < i ==> providers[j] in rank
      {
        var provider := providers[i];
        assert graph.HasEdge(node, provider);
        if provider in states && states[provider].Visiting? {
          var start :| 0 <= start < |stack| && stack[start] == provider;
          SliceIsCycle(graph, stack, start, provider);
          return Some(stack[start..] + [provider]);
        }
        if provider !in states {
          cycle := Visit(provider);
          if cycle.Some? {
            return;
          }
        }
      }
      Leave(node);
      assert (before + [node])[..|before|] == before;
      return None;
    }
  }

  lemma SliceIsCycle(graph: Graph, stack: seq<Key>, start: nat, provider: Key)
    requires graph.IsPath(stack) && start < |stack| && stack[start] == provider
    requires graph.HasEdge(stack[|stack| - 1], provider)
    ensures graph.IsCycle(stack[start..] + [provider])
  {
    var path := stack[start..] + [provider];
    forall i | 0 <= i < |path| - 1
      ensures graph.HasEdge(path[i], path[i + 1])
    {
      if i < |path| - 2 {
        assert graph.HasEdge(stack[start + i], stack[start + i + 1]);
      }
    }
  }

  /** Accepts exactly the graphs without a directed cycle; otherwise answers one. */
  method AssertAcyclic(graph: Graph, order: seq<Key>) returns (cycle: Option<seq<Key>>)
    requires graph.Valid() && forall k :: k in order <==> k in graph.nodes
    ensures cycle.None? <==> graph.Acyclic()
    ensures cycle.Some? ==> graph.IsCycle(cycle.value)
  {
    var check := new CycleCheck(graph);
    for i := 0 to |order|
      invariant check.Valid() && check.graph == graph && check.stack == []
      invariant forall j :: 0 <= j < i ==> order[j] in check.rank
    {
      assert order[i] in graph.nodes;
      if order[i] !in check.states {
        cycle := check.Visit(order[i]);
        if cycle.Some? {
          return;
        }
      }
    }
    cycle := None;
    forall path | |path| >= 2 && graph.IsPath(path)
      ensures path[0] != path[|path| - 1]
    {
      assert graph.HasEdge(path[0], path[1]);
      PathDescends(graph, check.rank, path);
    }
  }

  predicate InGraph(nodes: seq<Resource>, key: Key) {
    exists r :: r in nodes && r.key == key && !r.kind.Static?
  }

  /** The edge joins two nodes of the cycle check, which leaves Static protocols out. */
  predicate JoinsGraph(nodes: seq<Resource>, edges: seq<Edge>, k: Key, p: Key) {
    && InGraph(nodes, k) && InGraph(nodes, p)
    && exists e :: e in edges && e.consumer.key == k && e.provider.key == p
  }

  method BuildGraph(nodes: seq<Resource>, edges: seq<Edge>) returns (graph: Graph, order: seq<Key>)
    ensures graph.Valid() && forall k :: k in order <==> k in graph.nodes
    ensures forall k :: k in graph.nodes <==> InGraph(nodes, k)
    ensures forall k, p :: graph.HasEdge(k, p) <==> JoinsGraph(nodes, edges, k, p)
  {
    order := [];
    var next: map<Key, seq<Key>> := map[];
    for i := 0 to |nodes|
      invariant forall k :: k in order <==> InGraph(nodes[..i], k)
      invariant forall k :: k in next <==> k in order
      invariant forall k :: k in next ==> next[k] == []
    {
      assert nodes[..i + 1] == nodes[..i] + [nodes[i]];
      if !nodes[i].kind.Static? {
        order := order + [nodes[i].key];
        next := next[nodes[i].key := []];
      }
    }
    assert nodes[..|nodes|] == nodes;
    for i := 0 to |edges|
      invariant forall k :: k in next <==> InGraph(nodes, k)
      invariant forall k, p :: k in next && p in next[k] <==> JoinsGraph(nodes, edges[..i], k, p)
    {
      assert edges[..i + 1] == edges[..i] + [edges[i]];
      var k, p := edges[i].consumer.key, edges[i].provider.key;
      if k in next && p in next {
        next := next[k := next[k] + [p]];
      }
    }
    assert edges[..|edges|] == edges;
    graph := Graph(next.Keys, next);
  }

  // ----- The closure check

  predicate DeclaredBefore(provider: Resource, consumer: Resource) {
    provider.phase < consumer.phase || (provider.phase == consumer.phase && provider.index < consumer.index)
  }

  predicate EdgeOk(e: Edge) {
    && e.provider.scope.Contains(e.consumer.scope)
    && (e.consumer.enabled ==> e.provider.enabled)
    && DeclaredBefore(e.provider, e.consumer)
  }

  function Outgoing(edges: seq<Edge>, key: Key): (out: seq<Edge>)
    ensures forall e :: e in out <==> e in edges && e.consumer.key == key
  {
    if edges == [] then []
    else if edges[0].consumer.key == key then [edges[0]] + Outgoing(edges[1..], key)
    else Outgoing(edges[1..], key)
  }

  /** `key` can be reached from `root` along edges. */
  ghost predicate Reaches(edges: seq<Edge>, root: Key, key: Key) {
    exists path :: path != [] && path[0] == root && path[|path| - 1] == key && FollowsEdges(edges, path)
  }

  ghost predicate FollowsEdges(edges: seq<Edge>, path: seq<Key>) {
    forall i :: 0 <= i < |path| - 1 ==> Joined(edges, path[i], path[i + 1])
  }

  predicate Joined(edges: seq<Edge>, k: Key, p: Key) {
    exists e :: e in edges && e.consumer.key == k && e.provider.key == p
  }

  lemma ReachesOneMore(edges: seq<Edge>, root: Key, e: Edge)
    requires Reaches(edges, root, e.consumer.key) && e in edges
    ensures Reaches(edges, root, e.provider.key)
  {
    var path :| path != [] && path[0] == root && path[|path| - 1] == e.consumer.key && FollowsEdges(edges, path);
    var longer := path + [e.provider.key];
    assert FollowsEdges(edges, longer) by {
      forall i | 0 <= i < |longer| - 1
        ensures Joined(edges, longer[i], longer[i + 1])
      {
        assert i < |path| - 1 ==> Joined(edges, path[i], path[i + 1]);
      }
    }
  }

  /** Every edge leaving this node is in order and leads to a visited node. */
  ghost predicate Settled(edges: seq<Edge>, visited: set<Key>, key: Key) {
    forall e :: e in edges && e.consumer.key == key ==> EdgeOk(e) && e.provider.key in visited
  }

  lemma {:induction false} ReachableIsVisited(edges: seq<Edge>, visited: set<Key>, path: seq<Key>)
    requires forall k :: k in visited ==> Settled(edges, visited, k)
    requires path != [] && path[0] in visited && FollowsEdges(edges, path)
    ensures path[|path| - 1] in visited
    decreases |path|
  {
    if |path| >= 2 {
      assert Joined(edges, path[0], path[1]);
      TailFollowsEdges(edges, path);
      ReachableIsVisited(edges, visited, path[1..]);
    }
  }

  class ClosureCheck {
    const edges: seq<Edge>
    const root: Key
    ghost const universe: set<Key>
    var visited: set<Key>

    constructor (edges: seq<Edge>, root: Key, ghost universe: set<Key>)
      ensures this.edges == edges && this.root == root && this.universe == universe && visited == {}
    {
      this.edges, this.root, this.universe, visited := edges, root, universe, {};
    }

    /** Visits a node once; answers the first edge out of order. */
    method Visit(current: Key) returns (bad: Option<Edge>)
      requires visited <= universe && current in universe
      requires forall e :: e in edges ==> e.provider.key in universe
      requires Reaches(edges, root, current)
      modifies this
      ensures old(visited) <= visited <= universe
      ensures bad.Some? ==> bad.value in edges && !EdgeOk(bad.value) && Reaches(edges, root, bad.value.consumer.key)
      ensures bad.None? ==> current in visited
      ensures bad.None? ==> forall k :: k in visited && k !in old(visited) ==> Settled(edges, visited, k)
      decreases universe - visited
    {
      if current in visited {
        return None;
      }
      visited := visited + {current};
      var out := Outgoing(edges, current);
      for i := 0 to |out|
        invariant old(visited) + {current} <= visited <= universe
        invariant forall j :: 0 <= j < i ==> EdgeOk(out[j]) && out[j].provider.key in visited
        invariant forall k :: k in visited && k !in old(visited) && k != current ==> Settled(edges, visited, k)
      {
        assert out[i] in out;
        if !EdgeOk(out[i]) {
          return Some(out[i]);
        }
        ReachesOneMore(edges, root, out[i]);
        ghost var before := visited;
        bad := Visit(out[i].provider.key);
        if bad.Some? {
          return;
        }
        assert forall k :: k in before && Settled(edges, before, k) ==> Settled(edges, visited, k);
      }
      assert Settled(edges, visited, current);
      return None;
    }
  }

  /** Everything that can be reached from the root is in order, or the answer is an edge that is not. */
  method ValidateDependencyClosure(root: Resource, nodes: seq<Resource>, edges: seq<Edge>) returns (bad: Option<Edge>)
    requires root in nodes && forall e :: e in edges ==> e.provider in nodes
    ensures bad.None? <==> forall e :: e in edges && Reaches(edges, root.key, e.consumer.key) ==> EdgeOk(e)
    ensures bad.Some? ==> bad.value in edges && !EdgeOk(bad.value)
  {
    ghost var universe := set r | r in nodes :: r.key;
    var check := new ClosureCheck(edges, root.key, universe);
    RootIsReached(edges, root.key);
    bad := check.Visit(root.key);
    if bad.None? {
      forall e | e in edges && Reaches(edges, root.key, e.consumer.key)
        ensures EdgeOk(e)
      {
        var path :| path != [] && path[0] == root.key && path[|path| - 1] == e.consumer.key
          && FollowsEdges(edges, path);
        ReachableIsVisited(edges, check.visited, path);
        assert Settled(edges, check.visited, e.consumer.key);
      }
    }
  }

  // ----- The whole validation

  function AllEdges(nodes: seq<Resource>, consumers: seq<Resource>): (edges: seq<Edge>)
    ensures forall e :: e in edges <==>
      e.consumer in consumers && e in EdgesOf(e.consumer, nodes, e.consumer.references)
  {
    if consumers == [] then []
    else
      var first := consumers[0];
      EdgesOf(first, nodes, first.references) + AllEdges(nodes, consumers[1..])
  }

  lemma TailFollowsEdges(edges: seq<Edge>, path: seq<Key>)
    requires path != [] && FollowsEdges(edges, path)
    ensures FollowsEdges(edges, path[1..])
  {
    var rest := path[1..];
    forall i | 0 <= i < |rest| - 1
      ensures Joined(edges, rest[i], rest[i + 1])
    {
      assert Joined(edges, path[i + 1], path[i + 1 + 1]);
    }
  }

  /** Along edges in order every step leads to an earlier declaration. */
  lemma {:induction false} PathDeclaresBackwards(
    nodes: seq<Resource>, edges: seq<Edge>, path: seq<Key>, first: Resource, last: Resource)
    requires UniqueKeys(nodes) && |path| >= 2 && FollowsEdges(edges, path)
    requires forall e :: e in edges ==> e.consumer in nodes && e.provider in nodes && EdgeOk(e)
    requires first in nodes && first.key == path[0] && last in nodes && last.key == path[|path| - 1]
    ensures DeclaredBefore(last, first)
    decreases |path|
  {
    assert Joined(edges, path[0], path[1]);
    var e :| e in edges && e.consumer.key == path[0] && e.provider.key == path[1];
    SameKeySameResource(nodes, e.consumer, first);
    if |path| > 2 {
      TailFollowsEdges(edges, path);
      PathDeclaresBackwards(nodes, edges, path[1..], e.provider, last);
    } else {
      SameKeySameResource(nodes, e.provider, last);
    }
  }

  /** A cycle is never made of edges in order: the cycle check refuses nothing that the closure check would accept. */
  lemma CycleHasBadEdge(nodes: seq<Resource>, edges: seq<Edge>, cycle: seq<Key>)
    requires UniqueKeys(nodes) && |cycle| >= 2 && cycle[0] == cycle[|cycle| - 1] && FollowsEdges(edges, cycle)
    requires forall e :: e in edges ==> e.consumer in nodes && e.provider in nodes
    ensures exists e :: e in edges && !EdgeOk(e)
  {
    assert Joined(edges, cycle[0], cycle[1]);
    var e :| e in edges && e.consumer.key == cycle[0] && e.provider.key == cycle[1];
    if forall e :: e in edges ==> EdgeOk(e) {
      PathDeclaresBackwards(nodes, edges, cycle, e.consumer, e.consumer);
      assert false;
    }
  }

  datatype GraphError = CycleError(path: seq<Key>) | EdgeError(edge: Edge)

  /** `order` is the order in which the roots are taken, any arrangement of the nodes. */
  method ValidateResourceDependencyGraph(nodes: seq<Resource>, order: seq<Resource>) returns (error: Option<GraphError>)
    requires UniqueKeys(nodes) && forall r :: r in order <==> r in nodes
    ensures error.None? <==> forall e :: e in AllEdges(nodes, nodes) ==> EdgeOk(e)
    ensures error.Some? ==>
      match error.value
      case CycleError(path) => FollowsEdges(AllEdges(nodes, nodes), path) && |path| >= 2 && path[0] == path[|path| - 1]
      case EdgeError(e) => e in AllEdges(nodes, nodes) && !EdgeOk(e) && NoCycle(nodes)
  {
    var edges := AllEdges(nodes, nodes);
    var graph, keys := BuildGraph(nodes, edges);
    var cycle := AssertAcyclic(graph, keys);
    if cycle.Some? {
      GraphPathFollowsEdges(nodes, edges, graph, cycle.value);
      CycleHasBadEdge(nodes, edges, cycle.value);
      return Some(CycleError(cycle.value));
    }
    forall path | |path| >= 2 && JoinedAlong(nodes, edges, path)
      ensures path[0] != path[|path| - 1]
    {
      assert !graph.IsCycle(path);
    }
    var bad := CheckClosures(nodes, order, edges);
    error := if bad.Some? then Some(EdgeError(bad.value)) else None;
  }

  ghost predicate JoinedAlong(nodes: seq<Resource>, edges: seq<Edge>, path: seq<Key>) {
    forall i :: 0 <= i < |path| - 1 ==> JoinsGraph(nodes, edges, path[i], path[i + 1])
  }

  /** The references among resources that are no Static protocols form no cycle. */
  ghost predicate NoCycle(nodes: seq<Resource>) {
    forall path :: |path| >= 2 && JoinedAlong(nodes, AllEdges(nodes, nodes), path) ==> path[0] != path[|path| - 1]
  }

  lemma GraphPathFollowsEdges(nodes: seq<Resource>, edges: seq<Edge>, graph: Graph, path: seq<Key>)
    requires forall k, p :: graph.HasEdge(k, p) <==> JoinsGraph(nodes, edges, k, p)
    requires graph.IsPath(path)
    ensures FollowsEdges(edges, path)
  {
    forall i | 0 <= i < |path| - 1
      ensures Joined(edges, path[i], path[i + 1])
    {
      assert graph.HasEdge(path[i], path[i + 1]);
    }
  }

  lemma RootIsReached(edges: seq<Edge>, root: Key)
    ensures Reaches(edges, root, root)
  {
    var path := [root];
    assert path != [] && path[0] == root && path[|path| - 1] == root && FollowsEdges(edges, path);
  }

  method CheckClosures(nodes: seq<Resource>, order: seq<Resource>, edges: seq<Edge>) returns (bad: Option<Edge>)
    requires forall r :: r in order <==> r in nodes
    requires forall e :: e in edges ==> e.consumer in nodes && e.provider in nodes
    ensures bad.None? <==> forall e :: e in edges ==> EdgeOk(e)
    ensures bad.Some? ==> bad.value in edges && !EdgeOk(bad.value)
  {
    for i := 0 to |order|
      invariant forall e, j :: e in edges && 0 <= j < i && e.consumer == order[j] ==> EdgeOk(e)
    {
      assert order[i] in order;
      bad := ValidateDependencyClosure(order[i], nodes, edges);
      if bad.Some? {
        return;
      }
      RootIsReached(edges, order[i].key);
    }
    return None;
  }

  // ----- Rendering

  /** The resources by phase; the protocols of the last phase in the order they are emitted. */
  datatype Inventory = Inventory(
    defines: seq<Resource>, rpki: seq<Resource>, functions: seq<Resource>, filters: seq<Resource>,
    protocols: seq<Resource>)
  {
    function Nodes(): seq<Resource> {
      defines + rpki + functions + filters + protocols
    }

    /** Phases and indices as the node builders set them; protocols provide no symbol. */
    predicate Placed() {
      && InPhase(defines, 0) && InPhase(rpki, 1) && InPhase(functions, 2) && InPhase(filters, 3)
      && forall r :: r in protocols ==> r.phase == 4 && r.provided == {}
    }

    /** The text of one node: each phase's enabled resources that apply to it, in order. */
    function Rendered(n: NodeId): seq<Resource> {
      Shown(defines, n) + Shown(rpki, n) + Shown(functions, n) + Shown(filters, n) + Shown(protocols, n)
    }
  }

  predicate InPhase(resources: seq<Resource>, phase: nat) {
    forall i :: 0 <= i < |resources| ==> resources[i].phase == phase && resources[i].index == i
  }

  predicate ShownOn(r: Resource, n: NodeId) {
    r.enabled && r.scope.AppliesTo(n)
  }

  function Shown(resources: seq<Resource>, n: NodeId): (shown: seq<Resource>)
    ensures forall r :: r in shown <==> r in resources && ShownOn(r, n)
  {
    if resources == [] then []
    else if ShownOn(resources[0], n) then [resources[0]] + Shown(resources[1..], n)
    else Shown(resources[1..], n)
  }

  lemma {:induction false} ShownOfConcat(left: seq<Resource>, right: seq<Resource>, n: NodeId)
    ensures Shown(left + right, n) == Shown(left, n) + Shown(right, n)
  {
    if left == [] {
      assert left + right == right;
    } else {
      assert (left + right)[1..] == left[1..] + right;
      ShownOfConcat(left[1..], right, n);
    }
  }

  lemma RenderedIsShown(inventory: Inventory, n: NodeId)
    ensures inventory.Rendered(n) == Shown(inventory.Nodes(), n)
    ensures forall r :: r in inventory.Rendered(n) <==> r in inventory.Nodes() && r.enabled && r.scope.AppliesTo(n)
  {
    var i := inventory;
    ShownOfConcat(i.defines + i.rpki + i.functions + i.filters, i.protocols, n);
    ShownOfConcat(i.defines + i.rpki + i.functions, i.filters, n);
    ShownOfConcat(i.defines + i.rpki, i.functions, n);
    ShownOfConcat(i.defines, i.rpki, n);
  }

  /** `first` occurs, and `second` does not occur up to there. */
  predicate Precedes(text: seq<Resource>, first: Resource, second: Resource) {
    exists i :: 0 <= i < |text| && text[i] == first && second !in text[..i + 1]
  }

  /** What is placed before a declared resource is declared before it. */
  lemma PlacedInOrder(inventory: Inventory, x: nat, z: nat)
    requires inventory.Placed() && z < x < |inventory.Nodes()| && inventory.Nodes()[x].provided != {}
    ensures DeclaredBefore(inventory.Nodes()[z], inventory.Nodes()[x])
  {
    var i, nodes := inventory, inventory.Nodes();
    var d, r, f, g := |i.defines|, |i.rpki|, |i.functions|, |i.filters|;
    forall k | 0 <= k < |nodes|
      ensures nodes[k] == if k < d then i.defines[k] else if k < d + r then i.rpki[k - d]
        else if k < d + r + f then i.functions[k - d - r] else if k < d + r + f + g then i.filters[k - d - r - f]
        else i.protocols[k - d - r - f - g]
    {
    }
    ProtocolsComeLast(inventory, x);
  }

  lemma ProtocolsComeLast(inventory: Inventory, x: nat)
    requires inventory.Placed() && x < |inventory.Nodes()|
    ensures |inventory.Nodes()| - |inventory.protocols| <= x ==> inventory.Nodes()[x].provided == {}
  {
    var nodes, protocols := inventory.Nodes(), inventory.protocols;
    if |nodes| - |protocols| <= x {
      assert nodes[x] == protocols[x - (|nodes| - |protocols|)];
    }
  }

  lemma ShownPrefix(nodes: seq<Resource>, x: nat, n: NodeId)
    requires x < |nodes| && ShownOn(nodes[x], n)
    ensures
      var head := Shown(nodes[..x], n);
      |head| < |Shown(nodes, n)| && Shown(nodes, n)[..|head| + 1] == head + [nodes[x]]
  {
    assert nodes == nodes[..x] + [nodes[x]] + nodes[x + 1..];
    ShownOfConcat(nodes[..x] + [nodes[x]], nodes[x + 1..], n);
    ShownOfConcat(nodes[..x], [nodes[x]], n);
  }

  lemma HeadPrecedes(text: seq<Resource>, head: seq<Resource>, first: Resource, second: Resource)
    requires |head| < |text| && text[..|head| + 1] == head + [first]
    requires second !in head && second != first
    ensures Precedes(text, first, second)
  {
    assert text[|head|] == text[..|head| + 1][|head|] == first;
  }

  lemma NotDeclaredEarlier(inventory: Inventory, x: nat, consumer: Resource)
    requires inventory.Placed() && x < |inventory.Nodes()| && inventory.Nodes()[x].provided != {}
    requires DeclaredBefore(inventory.Nodes()[x], consumer)
    ensures consumer !in inventory.Nodes()[..x]
  {
    forall z | 0 <= z < x
      ensures inventory.Nodes()[z] != consumer
    {
      PlacedInOrder(inventory, x, z);
    }
  }

  lemma DeclaredBeforePrecedes(inventory: Inventory, n: NodeId, provider: Resource, consumer: Resource)
    requires inventory.Placed()
    requires provider in inventory.Nodes() && provider.provided != {} && ShownOn(provider, n)
    requires DeclaredBefore(provider, consumer)
    ensures Precedes(inventory.Rendered(n), provider, consumer)
  {
    var nodes := inventory.Nodes();
    var x :| 0 <= x < |nodes| && nodes[x] == provider;
    RenderedIsShown(inventory, n);
    ShownPrefix(nodes, x, n);
    NotDeclaredEarlier(inventory, x, consumer);
    HeadPrecedes(inventory.Rendered(n), Shown(nodes[..x], n), provider, consumer);
  }

  /** On every node that renders the consumer, each provider it depends on, however indirectly, is rendered first. */
  lemma {:induction false} ProvidersAreShown(
    nodes: seq<Resource>, edges: seq<Edge>, path: seq<Key>, first: Resource, last: Resource, n: NodeId)
    requires UniqueKeys(nodes) && |path| >= 2 && FollowsEdges(edges, path)
    requires forall e :: e in edges ==>
      e.consumer in nodes && e.provider in nodes && EdgeOk(e) && e.provider.provided != {}
    requires first in nodes && first.key == path[0] && last in nodes && last.key == path[|path| - 1]
    requires ShownOn(first, n)
    ensures ShownOn(last, n) && last.provided != {}
    decreases |path|
  {
    assert Joined(edges, path[0], path[1]);
    var e :| e in edges && e.consumer.key == path[0] && e.provider.key == path[1];
    SameKeySameResource(nodes, e.consumer, first);
    if |path| > 2 {
      TailFollowsEdges(edges, path);
      ProvidersAreShown(nodes, edges, path[1..], e.provider, last, n);
    } else {
      SameKeySameResource(nodes, e.provider, last);
    }
  }

  lemma {:induction false} ProvidersProvide(consumer: Resource, nodes: seq<Resource>, references: seq<string>)
    ensures forall e :: e in EdgesOf(consumer, nodes, references) ==> e.provider.provided != {}
  {
    if references != [] {
      var symbol := references[|references| - 1];
      ProvidersProvide(consumer, nodes, references[..|references| - 1]);
      if Providers(nodes, symbol) != [] {
        ResolvedCoversIfPossible(consumer, Providers(nodes, symbol));
      }
    }
  }

  /** In an accepted inventory every direct or indirect provider of a rendered consumer is declared earlier in the
      same node's text. */
  lemma AcceptedIsDeclaredBeforeUse(
    inventory: Inventory, n: NodeId, path: seq<Key>, consumer: Resource, provider: Resource)
    requires inventory.Placed() && UniqueKeys(inventory.Nodes())
    requires forall e :: e in AllEdges(inventory.Nodes(), inventory.Nodes()) ==> EdgeOk(e)
    requires consumer in inventory.Nodes() && provider in inventory.Nodes()
    requires |path| >= 2 && path[0] == consumer.key && path[|path| - 1] == provider.key
    requires FollowsEdges(AllEdges(inventory.Nodes(), inventory.Nodes()), path)
    requires consumer in inventory.Rendered(n)
    ensures Precedes(inventory.Rendered(n), provider, consumer)
  {
    var nodes := inventory.Nodes();
    var edges := AllEdges(nodes, nodes);
    RenderedIsShown(inventory, n);
    forall e | e in edges
      ensures e.consumer in nodes && e.provider in nodes && EdgeOk(e) && e.provider.provided != {}
    {
      ProvidersProvide(e.consumer, nodes, e.consumer.references);
    }
    ProvidersAreShown(nodes, edges, path, consumer, provider, n);
    PathDeclaresBackwards(nodes, edges, path, consumer, provider);
    DeclaredBeforePrecedes(inventory, n, provider, consumer);
  }
}
