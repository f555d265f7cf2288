/** Multi-node deployment with a recovery journal (src/deployment-service.ts). */
module Deployment {
  import opened Wrappers

  type NodeId = string

  /** What one node is meant to run: the main file, the included resources and its managed policy rules. */
  datatype Bundle = Bundle(main: string, resources: map<string, string>, rules: set<string>)

  const EMPTY_BUNDLE := Bundle("", map[], {})

  /** An inventory is what it renders to on each node, and everything that is not rendered. */
  datatype Inventory = Inventory(configs: map<NodeId, Bundle>, layout: int)

  /** A bundle together with the old resources the agent must unlink. */
  datatype Config = Config(bundle: Bundle, removed: set<string>) {
    function Paths(): set<string> {
      bundle.resources.Keys + removed
    }
  }

  datatype Target = Target(node: NodeId, config: Config)

  datatype Direction = Forward | Rollback

  datatype Journal = Journal(
    direction: Direction, before: Inventory, after: Inventory,
    forwardTargets: seq<Target>, rollbackTargets: seq<Target>)

  /** A managed node: its active files and rules, and the copies kept for one rollback. */
  datatype Node = Node(
    main: string, resources: map<string, string>, rules: set<string>,
    rollbackMain: string, rollback: map<string, string>)

  const BLANK_NODE := Node("", map[], {}, "", map[])

  function NodeAt(nodes: map<NodeId, Node>, n: NodeId): Node {
    if n in nodes then nodes[n] else BLANK_NODE
  }

  function BundleAt(configs: map<NodeId, Bundle>, n: NodeId): Bundle {
    if n in configs then configs[n] else EMPTY_BUNDLE
  }

  // ----- What the agent does to a node's files (agent/bird.go:821-1076)

  function Restricted(m: map<string, string>, keys: set<string>): map<string, string> {
    map p | p in m && p in keys :: m[p]
  }

  function SaveRollback(node: Node, config: Config): Node {
    node.(rollbackMain := node.main,
          rollback := (node.rollback - config.Paths()) + Restricted(node.resources, config.Paths()))
  }

  function ApplyFiles(node: Node, config: Config): Node {
    SaveRollback(node, config).(
      main := config.bundle.main,
      resources := (node.resources + config.bundle.resources) - config.removed)
  }

  function RollbackFiles(node: Node, config: Config): Node {
    node.(main := node.rollbackMain, resources := node.resources + Restricted(node.rollback, config.Paths()))
  }

  /** The node's configuration is the bundle; files that nothing includes do not matter. */
  predicate FilesRun(node: Node, bundle: Bundle) {
    && node.main == bundle.main
    && forall p :: p in bundle.resources ==> p in node.resources && node.resources[p] == bundle.resources[p]
  }

  predicate InSync(nodes: map<NodeId, Node>, configs: map<NodeId, Bundle>, n: NodeId) {
    && NodeAt(nodes, n).rules == BundleAt(configs, n).rules
    && (n in configs ==> FilesRun(NodeAt(nodes, n), configs[n]))
  }

  /** A node whose resource map is `m` after an apply that only failed to report, or stopped after saving. */
  predicate ApplyStopped(before: Node, config: Config, after: Node) {
    after == SaveRollback(before, config) || after == ApplyFiles(before, config)
  }

  /** Rolling back undoes an apply wherever it stopped: all that was active before is active again. */
  lemma RollbackUndoesApply(before: Node, config: Config, after: Node)
    requires config.bundle.resources.Keys !! config.removed
    requires ApplyStopped(before, config, after)
    ensures
      var restored := RollbackFiles(after, config);
      && restored.main == before.main
      && restored.rules == after.rules
      && (forall p :: p in before.resources ==> p in restored.resources && restored.resources[p] == before.resources[p])
      && restored.resources.Keys <= before.resources.Keys + config.bundle.resources.Keys
  {
    var restored := RollbackFiles(after, config);
    forall p | p in before.resources
      ensures p in restored.resources && restored.resources[p] == before.resources[p]
    {
      if p in config.Paths() {
        assert p in Restricted(after.rollback, config.Paths());
      }
    }
  }

  function ConfigFor(bundle: Bundle, opposite: Bundle): (config: Config)
    ensures config.bundle.resources.Keys !! config.removed
  {
    Config(bundle, opposite.resources.Keys - bundle.resources.Keys)
  }

  /** With the removals computed against the opposite bundle, applying leaves none of its other resources linked. */
  lemma ApplyLeavesOnlyTheBundle(node: Node, bundle: Bundle, opposite: Bundle)
    ensures
      var applied := ApplyFiles(node, ConfigFor(bundle, opposite));
      && FilesRun(applied, bundle)
      && Restricted(applied.resources, opposite.resources.Keys + bundle.resources.Keys) == bundle.resources
      && Restricted(applied.resources, applied.resources.Keys - opposite.resources.Keys - bundle.resources.Keys)
         == Restricted(node.resources, node.resources.Keys - opposite.resources.Keys - bundle.resources.Keys)
  {
  }

  /** A failed apply that stopped before saving anything leaves a stale rollback copy. Rolling back then restores the
      running bundle exactly when the stale copies happen to be that bundle's. */
  lemma RollbackAfterEarlyFailure(node: Node, config: Config, running: Bundle)
    requires FilesRun(node, running)
    ensures FilesRun(RollbackFiles(node, config), running)
       <==> && node.rollbackMain == running.main
            && forall p :: p in node.rollback && p in config.Paths() && p in running.resources ==>
                 node.rollback[p] == running.resources[p]
  {
    var restored := RollbackFiles(node, config);
    forall p | p in node.rollback && p in config.Paths() && p in running.resources
      ensures restored.resources[p] == node.rollback[p]
    {
      assert p in Restricted(node.rollback, config.Paths());
    }
  }

  // ----- Journals

  /** `#targets` and `#markRemovedResources` for one side of a deployment. */
  function TargetsFor(
    configs: map<NodeId, Bundle>, opposite: map<NodeId, Bundle>, ids: seq<NodeId>): (targets: seq<Target>)
    ensures |targets| == |ids|
    ensures forall i :: 0 <= i < |ids| ==>
      targets[i] == Target(ids[i], ConfigFor(BundleAt(configs, ids[i]), BundleAt(opposite, ids[i])))
  {
    seq(|ids|, i requires 0 <= i < |ids| =>
      Target(ids[i], ConfigFor(BundleAt(configs, ids[i]), BundleAt(opposite, ids[i]))))
  }

  function BeginJournal(before: Inventory, after: Inventory, ids: seq<NodeId>): Journal {
    Journal(Forward, before, after, TargetsFor(after.configs, before.configs, ids),
            TargetsFor(before.configs, after.configs, ids))
  }

  function ForwardConfig(active: Journal, n: NodeId): Config {
    ConfigFor(BundleAt(active.after.configs, n), BundleAt(active.before.configs, n))
  }

  function RollbackConfig(active: Journal, n: NodeId): Config {
    ConfigFor(BundleAt(active.before.configs, n), BundleAt(active.after.configs, n))
  }

  function UniqueNodeIds(ids: seq<NodeId>): (result: seq<NodeId>)
    ensures forall n :: n in result <==> n in ids
    ensures forall i, j :: 0 <= i < j < |result| ==> result[i] != result[j]
  {
    if ids == [] then []
    else
      var rest, last := ids[..|ids| - 1], ids[|ids| - 1];
      assert ids == rest + [last];
      if last in rest then UniqueNodeIds(rest) else UniqueNodeIds(rest) + [last]
  }

  /** The caller's list names every node whose bundle changes; without hooks no node's rules change. */
  ghost predicate Covers(before: Inventory, after: Inventory, ids: set<NodeId>, hooks: bool) {
    && (forall n :: n in after.configs && n !in ids ==> n in before.configs && before.configs[n] == after.configs[n])
    && (forall n :: n !in ids || !hooks ==> BundleAt(before.configs, n).rules == BundleAt(after.configs, n).rules)
  }

  /** A target runs the old bundle's files or the new one's, and has the old rules or the new ones. */
  ghost predicate Between(node: Node, journal: Journal, n: NodeId) {
    var before, after := journal.before.configs, journal.after.configs;
    && (n in before ==> FilesRun(node, before[n]) || FilesRun(node, BundleAt(after, n)))
    && (node.rules == BundleAt(before, n).rules || node.rules == BundleAt(after, n).rules)
  }

  function TargetIds(targets: seq<Target>): set<NodeId> {
    set t | t in targets :: t.node
  }

  /** Both target lists name the same nodes and carry the two bundles of each. */
  ghost predicate WellFormed(journal: Journal) {
    var before, after := journal.before.configs, journal.after.configs;
    && (forall t :: t in journal.forwardTargets ==> t.node in after && t.config == ForwardConfig(journal, t.node))
    && (forall t :: t in journal.rollbackTargets ==> t.config == RollbackConfig(journal, t.node))
    && TargetIds(journal.forwardTargets) == TargetIds(journal.rollbackTargets)
  }

  /** What holds while a journal is open: recovery can finish from here, in the journal's direction. */
  ghost predicate Recoverable(inventory: Inventory, journal: Journal, nodes: map<NodeId, Node>) {
    var before, after, ids := journal.before.configs, journal.after.configs, TargetIds(journal.forwardTargets);
    && WellFormed(journal)
    && Covers(journal.before, journal.after, ids, true)
    && (inventory.configs == before || inventory.configs == after)
    && (forall n :: n !in ids ==> InSync(nodes, before, n))
    && (forall n :: n in ids ==> Between(NodeAt(nodes, n), journal, n))
    && (journal.direction.Forward? && inventory.configs == after ==>
         forall n :: n in ids ==> FilesRun(NodeAt(nodes, n), BundleAt(after, n)))
  }

  ghost predicate Synchronised(nodes: map<NodeId, Node>, configs: map<NodeId, Bundle>) {
    forall n :: InSync(nodes, configs, n)
  }

  ghost predicate Consistent(inventory: Inventory, journal: Option<Journal>, nodes: map<NodeId, Node>) {
    match journal
    case None => Synchronised(nodes, inventory.configs)
    case Some(active) => Recoverable(inventory, active, nodes)
  }

  // ----- A deployment under way

  predicate Distinct(ids: seq<NodeId>) {
    forall i, j :: 0 <= i < j < |ids| ==> ids[i] != ids[j]
  }

  /** One node after an apply was sent to it and perhaps its rules were replaced. */
  predicate NodeAttempted(before: Node, active: Journal, n: NodeId, after: Node) {
    && ApplyStopped(before, ForwardConfig(active, n), after.(rules := before.rules))
    && (after.rules == before.rules || after.rules == BundleAt(active.after.configs, n).rules)
  }

  function FirstIds(ids: seq<NodeId>, count: nat): set<NodeId>
    requires count <= |ids|
  {
    set k | 0 <= k < count :: ids[k]
  }

  lemma NoIds(ids: seq<NodeId>)
    ensures FirstIds(ids, 0) == {}
  {
  }

  /** Exactly these nodes were sent the new bundle; no other node changed. */
  ghost predicate Progress(
    start: map<NodeId, Node>, nodes: map<NodeId, Node>, active: Journal, attempted: set<NodeId>)
  {
    forall n ::
      if n in attempted then NodeAttempted(NodeAt(start, n), active, n, NodeAt(nodes, n))
      else NodeAt(nodes, n) == NodeAt(start, n)
  }

  /** At most these nodes changed, and only as an apply changes them. */
  ghost predicate Touched(
    start: map<NodeId, Node>, nodes: map<NodeId, Node>, active: Journal, ids: set<NodeId>)
  {
    forall n ::
      || NodeAt(nodes, n) == NodeAt(start, n)
      || (n in ids && NodeAttempted(NodeAt(start, n), active, n, NodeAt(nodes, n)))
  }

  ghost predicate Applied(
    start: map<NodeId, Node>, nodes: map<NodeId, Node>, active: Journal, ids: set<NodeId>, hooks: bool)
  {
    forall n :: n in ids ==> NodeApplied(NodeAt(start, n), active, n, hooks, NodeAt(nodes, n))
  }

  predicate NodeApplied(before: Node, active: Journal, n: NodeId, hooks: bool, after: Node) {
    var applied := ApplyFiles(before, ForwardConfig(active, n));
    after == if hooks then applied.(rules := BundleAt(active.after.configs, n).rules) else applied
  }

  /** The node's files and rules are those of the old bundle. */
  predicate RunsOld(node: Node, active: Journal, n: NodeId) {
    var before := active.before.configs;
    node.rules == BundleAt(before, n).rules && (n in before ==> FilesRun(node, before[n]))
  }

  lemma AttemptedIsBetween(start: Node, active: Journal, n: NodeId, node: Node)
    requires RunsOld(start, active, n) && NodeAttempted(start, active, n, node)
    ensures Between(node, active, n)
    ensures
      var restored := RollbackFiles(node, ForwardConfig(active, n));
      && Between(restored, active, n)
      && restored.rules == node.rules
      && (n in active.before.configs ==> FilesRun(restored, active.before.configs[n]))
  {
    RollbackUndoesApply(start, ForwardConfig(active, n), node.(rules := start.rules));
  }

  /** The fixed facts of one deployment: who is targeted, and that all was in order at the start. */
  ghost predicate Deploying(active: Journal, ids: seq<NodeId>, hooks: bool, start: map<NodeId, Node>) {
    && Distinct(ids)
    && active == BeginJournal(active.before, active.after, ids)
    && (forall n :: n in ids ==> n in active.after.configs)
    && Covers(active.before, active.after, FirstIds(ids, |ids|), hooks)
    && Synchronised(start, active.before.configs)
  }

  /** The state is in order with the journal open in either direction, or closed if there are no targets. */
  ghost predicate OpenEitherWay(inventory: Inventory, active: Journal, ids: seq<NodeId>, nodes: map<NodeId, Node>) {
    && Recoverable(inventory, active, nodes)
    && Recoverable(inventory, active.(direction := Rollback), nodes)
    && (ids == [] ==> Synchronised(nodes, inventory.configs))
  }

  lemma BetweenIsRecoverableIn(
    active: Journal, ids: seq<NodeId>, hooks: bool, start: map<NodeId, Node>,
    nodes: map<NodeId, Node>, inventory: Inventory, direction: Direction)
    requires Deploying(active, ids, hooks, start) && inventory.configs == active.before.configs
    requires forall n :: n !in FirstIds(ids, |ids|) ==> InSync(nodes, active.before.configs, n)
    requires forall n :: n in FirstIds(ids, |ids|) ==> Between(NodeAt(nodes, n), active, n)
    ensures Recoverable(inventory, active.(direction := direction), nodes)
  {
    BeginJournalIsWellFormed(active.before, active.after, ids);
    var journal := active.(direction := direction);
    assert WellFormed(journal) by {
      assert forall n :: ForwardConfig(journal, n) == ForwardConfig(active, n);
      assert forall n :: RollbackConfig(journal, n) == RollbackConfig(active, n);
    }
    forall n | n in FirstIds(ids, |ids|)
      ensures Between(NodeAt(nodes, n), journal, n)
      ensures active.before.configs == active.after.configs ==>
        FilesRun(NodeAt(nodes, n), BundleAt(active.after.configs, n))
    {
      assert Between(NodeAt(nodes, n), active, n);
    }
  }

  /** Before the commit it is enough that every target is on one side or the other. */
  lemma BetweenIsRecoverable(
    active: Journal, ids: seq<NodeId>, hooks: bool, start: map<NodeId, Node>,
    nodes: map<NodeId, Node>, inventory: Inventory)
    requires Deploying(active, ids, hooks, start) && inventory.configs == active.before.configs
    requires forall n :: n !in FirstIds(ids, |ids|) ==> InSync(nodes, active.before.configs, n)
    requires forall n :: n in FirstIds(ids, |ids|) ==> Between(NodeAt(nodes, n), active, n)
    ensures OpenEitherWay(inventory, active, ids, nodes)
  {
    BetweenIsRecoverableIn(active, ids, hooks, start, nodes, inventory, Forward);
    BetweenIsRecoverableIn(active, ids, hooks, start, nodes, inventory, Rollback);
    if ids == [] {
      assert FirstIds(ids, |ids|) == {};
    }
  }

  lemma TouchedIsRecoverable(
    active: Journal, ids: seq<NodeId>, hooks: bool, start: map<NodeId, Node>,
    nodes: map<NodeId, Node>, inventory: Inventory, touched: set<NodeId>)
    requires Deploying(active, ids, hooks, start) && inventory.configs == active.before.configs
    requires touched <= FirstIds(ids, |ids|) && Touched(start, nodes, active, touched)
    ensures OpenEitherWay(inventory, active, ids, nodes)
  {
    forall n
      ensures n !in FirstIds(ids, |ids|) ==> InSync(nodes, active.before.configs, n)
      ensures Between(NodeAt(nodes, n), active, n)
    {
      assert InSync(start, active.before.configs, n);
      if NodeAt(nodes, n) != NodeAt(start, n) {
        AttemptedIsBetween(NodeAt(start, n), active, n, NodeAt(nodes, n));
      }
    }
    BetweenIsRecoverable(active, ids, hooks, start, nodes, inventory);
  }

  /** Once every target was applied, the new inventory is what all nodes run, and recovery can only confirm it. */
  lemma AppliedIsCommittable(
    active: Journal, ids: seq<NodeId>, hooks: bool, start: map<NodeId, Node>, nodes: map<NodeId, Node>)
    requires Deploying(active, ids, hooks, start)
    requires Progress(start, nodes, active, FirstIds(ids, |ids|))
    requires Applied(start, nodes, active, FirstIds(ids, |ids|), hooks)
    ensures Synchronised(nodes, active.after.configs)
    ensures Recoverable(active.after, active, nodes)
  {
    forall n
      ensures InSync(nodes, active.after.configs, n)
      ensures n !in FirstIds(ids, |ids|) ==> InSync(nodes, active.before.configs, n)
    {
      assert InSync(start, active.before.configs, n);
      ApplyLeavesOnlyTheBundle(NodeAt(start, n), BundleAt(active.after.configs, n), BundleAt(active.before.configs, n));
    }
    BeginJournalIsWellFormed(active.before, active.after, ids);
    forall n | n in FirstIds(ids, |ids|)
      ensures Between(NodeAt(nodes, n), active, n)
    {
      assert InSync(nodes, active.after.configs, n);
    }
  }

  lemma BeginJournalIsWellFormed(before: Inventory, after: Inventory, ids: seq<NodeId>)
    requires forall n :: n in ids ==> n in after.configs
    ensures WellFormed(BeginJournal(before, after, ids))
    ensures TargetIds(BeginJournal(before, after, ids).forwardTargets) == FirstIds(ids, |ids|)
    ensures FirstIds(ids, |ids|) == set n | n in ids
  {
    var active := BeginJournal(before, after, ids);
    forall n
      ensures n in TargetIds(active.forwardTargets) <==> n in ids
      ensures n in TargetIds(active.rollbackTargets) <==> n in ids
    {
      if n in ids {
        var i :| 0 <= i < |ids| && ids[i] == n;
        assert active.forwardTargets[i] in active.forwardTargets;
        assert active.rollbackTargets[i] in active.rollbackTargets;
      }
    }
  }

  datatype Step = Done | Conflict | Error | Crashed

  /** How many steps on nodes, on the journal and on the inventory have failed so far, and how many were cut off. */
  datatype Faults = Faults(nodes: nat, journal: nat, store: nat, crashes: nat) {
    function OnNode(s: Step): Faults {
      if s == Crashed then this.(crashes := crashes + 1) else if s == Error then this.(nodes := nodes + 1) else this
    }

    function OnJournal(s: Step): Faults {
      if s == Crashed then this.(crashes := crashes + 1) else if s == Error then this.(journal := journal + 1) else this
    }

    function OnStore(s: Step): Faults {
      if s == Crashed then this.(crashes := crashes + 1) else if s == Error then this.(store := store + 1) else this
    }

    function Total(): nat {
      nodes + journal + store + crashes
    }
  }

  /** What a roll-back of nodes reports is due to faults on nodes, and it reports every one. */
  predicate Undid(s: Step, before: Faults, after: Faults) {
    && before.nodes <= after.nodes && before.crashes <= after.crashes
    && after.journal == before.journal && after.store == before.store
    && (s == Done ==> after == before)
    && (s == Error ==> before.nodes < after.nodes)
    && (if s == Crashed then before.crashes < after.crashes else before.crashes == after.crashes)
  }

  predicate NoFewer(before: Faults, after: Faults) {
    && before.nodes <= after.nodes && before.journal <= after.journal && before.store <= after.store
    && before.crashes <= after.crashes
  }

  datatype Request = Request(mutate: Inventory -> Option<Inventory>, nodeIds: Inventory -> seq<NodeId>, hooks: bool)

  ghost predicate WellCovered(request: Request) {
    forall inventory: Inventory :: request.mutate(inventory).Some? ==>
      var after := request.mutate(inventory).value;
      Covers(inventory, after, (set n | n in request.nodeIds(after)), request.hooks)
  }

  /** How a deployment, or a recovery, ended: `Unclosed` when it was committed and then failed to close its journal. */
  datatype Outcome = Committed | Unclosed | Retry | Failed | Stopped

  const INVENTORY_COMMIT_RETRIES := 3

  /** The request yields an inventory that has all the nodes it names. */
  predicate Accepts(request: Request, inventory: Inventory) {
    && request.mutate(inventory).Some?
    && var after := request.mutate(inventory).value;
    forall n :: n in request.nodeIds(after) ==> n in after.configs
  }

  /** Nothing went wrong but what made the deployment fail: a conflict with another writer, or else one fault. */
  predicate OneCause(conflict: bool, before: Faults, after: Faults) {
    after.Total() <= before.Total() + if conflict then 0 else 1
  }

  /**
   * How a deployment that found no journal may end. If it was not committed, the stored bundles are as before; with no
   * fault but its cause, everything was undone and no journal is left; and a journal that is left leads back, unless
   * writing the journal failed too.
   */
  ghost predicate Ended(
    o: Outcome, conflict: bool, before: map<NodeId, Bundle>, faultsBefore: Faults,
    stored: map<NodeId, Bundle>, journal: Option<Journal>, faults: Faults)
  {
    match o
    case Committed => journal.None? && faults == faultsBefore
    case Unclosed => journal.Some? && journal.value.direction.Forward? && faults == faultsBefore.OnJournal(Error)
    case Stopped => faultsBefore.crashes < faults.crashes
    case Retry => conflict && stored == before && journal.None? && faults == faultsBefore
    case Failed =>
      && stored == before && faults.crashes == faultsBefore.crashes
      && (OneCause(conflict, faultsBefore, faults) ==> journal.None?)
      && (journal.Some? ==> journal.value.before.configs == before)
      && (journal.Some? && faults.journal == faultsBefore.journal ==> journal.value.direction.Rollback?)
  }

  class DeploymentService {
    var inventory: Inventory
    var revision: nat
    var journal: Option<Journal>
    var nodes: map<NodeId, Node>
    ghost var faults: Faults
    /** The nodes on which the candidate to be applied was staged and passed BIRD's check. */
    ghost var staged: set<NodeId>

    /** With no journal open, every node runs what the stored inventory renders to. */
    ghost predicate Valid()
      reads this
    {
      Consistent(inventory, journal, nodes)
    }

    constructor (inventory: Inventory, nodes: map<NodeId, Node>)
      requires Synchronised(nodes, inventory.configs)
      ensures Valid() && this.inventory == inventory && journal == None
    {
      this.inventory, this.revision, this.journal, this.nodes := inventory, 1, None, nodes;
      this.faults, this.staged := Faults(0, 0, 0, 0), {};
    }

    // ----- Single steps. An error leaves the store as it was; a crash may come before or after the step.

    /** Another writer edits fields that no node renders. */
    method OtherWriter()
      modifies this`inventory, this`revision
      ensures inventory.configs == old(inventory.configs)
      ensures old(revision) <= revision && (revision == old(revision) ==> inventory == old(inventory))
    {
      var interferes: bool := *;
      if interferes {
        var layout: int := *;
        inventory, revision := inventory.(layout := layout), revision + 1;
      }
    }

    method Replace(expected: nat, value: Inventory) returns (s: Step)
      modifies this`inventory, this`revision, this`faults
      ensures faults == old(faults).OnStore(s)
      ensures s == Conflict <==> old(revision) != expected
      ensures old(revision) <= revision
      ensures s == Done ==> inventory == value
      ensures s == Conflict || s == Error ==> inventory == old(inventory) && revision == old(revision)
      ensures s == Done ==> revision == old(revision) + 1
      ensures inventory == old(inventory) || (old(revision) == expected && inventory == value)
    {
      if revision != expected {
        return Conflict;
      }
      s := *;
      s := if s == Conflict then Error else s;
      faults := faults.OnStore(s);
      var written: bool := *;
      if s == Done || (s == Crashed && written) {
        inventory, revision := value, revision + 1;
      }
    }

    method SetJournal(value: Option<Journal>) returns (s: Step)
      modifies this`journal, this`faults
      ensures faults == old(faults).OnJournal(s)
      ensures s == Done ==> journal == value
      ensures s == Error ==> journal == old(journal)
      ensures s != Conflict
      ensures journal == old(journal) || journal == value
    {
      s := *;
      s := if s == Conflict then Error else s;
      faults := faults.OnJournal(s);
      var written: bool := *;
      if s == Done || (s == Crashed && written) {
        journal := value;
      }
    }

    method Stage(n: NodeId) returns (s: Step)
      modifies this`faults, this`staged
      ensures s != Conflict && faults == old(faults).OnNode(s)
      ensures staged == old(staged) + if s == Done then {n} else {}
    {
      s := *;
      s := if s == Conflict then Error else s;
      faults := faults.OnNode(s);
      staged := staged + if s == Done then {n} else {};
    }

    /** A failed apply has saved the rollback copies, or even taken effect without its reply arriving. */
    method ApplyStagedConfig(target: Target) returns (s: Step)
      requires target.node in staged
      modifies this`nodes, this`faults
      ensures faults == old(faults).OnNode(s)
      ensures s != Conflict && OthersKept(old(nodes), nodes, target.node)
      ensures
        var before, after := NodeAt(old(nodes), target.node), NodeAt(nodes, target.node);
        && (s == Done ==> after == ApplyFiles(before, target.config))
        && (s == Error ==> ApplyStopped(before, target.config, after))
        && (after == before || ApplyStopped(before, target.config, after))
    {
      s := *;
      s := if s == Conflict then Error else s;
      faults := faults.OnNode(s);
      var node := NodeAt(nodes, target.node);
      var how: int := *;
      if s == Done || how == 0 {
        node := ApplyFiles(node, target.config);
      } else if s == Error || how == 1 {
        node := SaveRollback(node, target.config);
      }
      nodes := nodes[target.node := node];
    }

    method RollbackNode(target: Target) returns (s: Step)
      modifies this`nodes, this`faults
      ensures faults == old(faults).OnNode(s)
      ensures s != Conflict && OthersKept(old(nodes), nodes, target.node)
      ensures
        var before, after := NodeAt(old(nodes), target.node), NodeAt(nodes, target.node);
        && (s == Done ==> after == RollbackFiles(before, target.config))
        && (after == before || after == RollbackFiles(before, target.config))
    {
      s := *;
      s := if s == Conflict then Error else s;
      faults := faults.OnNode(s);
      var node := NodeAt(nodes, target.node);
      var effective: bool := *;
      if s == Done || effective {
        node := RollbackFiles(node, target.config);
      }
      nodes := nodes[target.node := node];
    }

    method SetRules(n: NodeId, rules: set<string>) returns (s: Step)
      modifies this`nodes, this`faults
      ensures faults == old(faults).OnNode(s)
      ensures s != Conflict && OthersKept(old(nodes), nodes, n) && OnlyRulesChanged(old(nodes), nodes)
      ensures
        var before, after := NodeAt(old(nodes), n), NodeAt(nodes, n);
        && (s == Done ==> after == before.(rules := rules))
        && (after == before || after == before.(rules := rules))
    {
      s := *;
      s := if s == Conflict then Error else s;
      faults := faults.OnNode(s);
      var node := NodeAt(nodes, n);
      var effective: bool := *;
      if s == Done || effective {
        node := node.(rules := rules);
      }
      nodes := nodes[n := node];
    }

    // ----- One deployment

    method ApplyOne(active: Journal, target: Target, hooks: bool) returns (s: Step)
      requires target.config == ForwardConfig(active, target.node) && target.node in staged
      modifies this`nodes, this`faults
      ensures faults == old(faults).OnNode(s)
      ensures s != Conflict && OthersKept(old(nodes), nodes, target.node)
      ensures
        var before, after := NodeAt(old(nodes), target.node), NodeAt(nodes, target.node);
        && (s == Done ==> NodeApplied(before, active, target.node, hooks, after))
        && ((s == Crashed && after == before) || NodeAttempted(before, active, target.node, after))
    {
      s := ApplyStagedConfig(target);
      if s == Done && hooks {
        s := SetRules(target.node, BundleAt(active.after.configs, target.node).rules);
      }
    }

    /** Applies the forward targets in turn and stops at the first failure; `attempted` counts that one too. */
    method ApplyAll(active: Journal, ids: seq<NodeId>, hooks: bool) returns (s: Step, attempted: nat)
      requires Distinct(ids) && active == BeginJournal(active.before, active.after, ids)
      requires forall n :: n in ids ==> n in staged
      modifies this`nodes, this`faults
      ensures faults == old(faults).OnNode(s)
      ensures s != Conflict && attempted <= |ids|
      ensures s != Crashed ==> Progress(old(nodes), nodes, active, FirstIds(ids, attempted))
      ensures s == Done ==> attempted == |ids| && Applied(old(nodes), nodes, active, FirstIds(ids, attempted), hooks)
      ensures Touched(old(nodes), nodes, active, FirstIds(ids, attempted))
    {
      s, attempted := Done, 0;
      ghost var start := nodes;
      hide NodeAttempted, NodeApplied, ApplyStopped, ConfigFor;
      while attempted < |ids|
        invariant attempted <= |ids|
        invariant Progress(start, nodes, active, FirstIds(ids, attempted))
        invariant Applied(start, nodes, active, FirstIds(ids, attempted), hooks)
        invariant s == Done && faults == old(faults)
      {
        var target := active.forwardTargets[attempted];
        assert target.node !in FirstIds(ids, attempted);
        assert FirstIds(ids, attempted + 1) == FirstIds(ids, attempted) + {target.node};
        s := ApplyOne(active, target, hooks);
        attempted := attempted + 1;
        if s != Done {
          return;
        }
      }
    }

    /** Undoes one attempted node; the rules are put back even when the files could not be. */
    method RollBackOne(active: Journal, target: Target, hooks: bool, ghost start: Node) returns (s: Step)
      requires target.config == ForwardConfig(active, target.node)
      requires RunsOld(start, active, target.node)
      requires NodeAttempted(start, active, target.node, NodeAt(nodes, target.node))
      requires !hooks ==>
        BundleAt(active.before.configs, target.node).rules == BundleAt(active.after.configs, target.node).rules
      modifies this`nodes, this`faults
      ensures Undid(s, old(faults), faults)
      ensures s != Conflict && OthersKept(old(nodes), nodes, target.node)
      ensures Between(NodeAt(nodes, target.node), active, target.node)
      ensures s == Done ==> RunsOld(NodeAt(nodes, target.node), active, target.node)
    {
      AttemptedIsBetween(start, active, target.node, NodeAt(nodes, target.node));
      hide NodeAttempted, ApplyStopped, RollbackFiles, ConfigFor;
      s := RollbackNode(target);
      if s != Crashed && hooks {
        var hooked := SetRules(target.node, BundleAt(active.before.configs, target.node).rules);
        s := if hooked == Done then s else hooked;
      }
    }

    /** Undoes the last of the nodes still left. */
    method RollBackLast(
      active: Journal, ids: seq<NodeId>, left: nat, hooks: bool,
      ghost start: map<NodeId, Node>, ghost all: set<NodeId>, ghost failed: set<NodeId>)
      returns (s: Step, ghost failedAfter: set<NodeId>)
      requires Deploying(active, ids, hooks, start) && 0 < left <= |ids| && FirstIds(ids, left) <= all
      requires Unwinding(start, nodes, active, all, FirstIds(ids, left), failed)
      modifies this`nodes, this`faults
      ensures Undid(s, old(faults), faults) && s != Conflict
      ensures Unwinding(start, nodes, active, all, FirstIds(ids, left - 1), failedAfter)
      ensures FirstIds(ids, left - 1) <= all
      ensures |failedAfter| <= |failed| + faults.Total() - old(faults).Total()
    {
      var target := active.forwardTargets[left - 1];
      ghost var before := nodes;
      assert target.node !in FirstIds(ids, left - 1);
      assert FirstIds(ids, left - 1) == FirstIds(ids, left) - {target.node};
      assert target.node == ids[left - 1] && target.node in FirstIds(ids, left);
      assert InSync(start, active.before.configs, target.node);
      s := RollBackOne(active, target, hooks, NodeAt(start, target.node));
      failedAfter := if s == Done then failed else failed + {target.node};
      UnwindingStep(start, before, nodes, active, all, FirstIds(ids, left), target.node, failed, failedAfter);
    }

    /** Undoes the attempted nodes, last first, and goes on past failures: each costs a fault of its own. */
    method RollBackAll(active: Journal, ids: seq<NodeId>, attempted: nat, hooks: bool, ghost start: map<NodeId, Node>)
      returns (s: Step, ghost failed: set<NodeId>)
      requires Deploying(active, ids, hooks, start) && attempted <= |ids|
      requires Progress(start, nodes, active, FirstIds(ids, attempted))
      modifies this`nodes, this`faults
      ensures Undid(s, old(faults), faults) && s != Conflict
      ensures forall n :: n !in FirstIds(ids, |ids|) ==> InSync(nodes, active.before.configs, n)
      ensures forall n :: n in FirstIds(ids, |ids|) ==> Between(NodeAt(nodes, n), active, n)
      ensures |failed| <= faults.Total() - old(faults).Total()
      ensures s != Crashed ==> forall n :: n !in failed ==> InSync(nodes, active.before.configs, n)
    {
      s, failed := Done, {};
      ghost var all := FirstIds(ids, attempted);
      assert all <= FirstIds(ids, |ids|);
      hide NodeAttempted, FilesRun, Between, RunsOld, Deploying, FirstIds;
      var left: nat := attempted;
      while left > 0
        invariant left <= attempted && (s == Done || s == Error) && Undid(s, old(faults), faults)
        invariant FirstIds(ids, left) <= all && |failed| <= faults.Total() - old(faults).Total()
        invariant Unwinding(start, nodes, active, all, FirstIds(ids, left), failed)
      {
        var undone;
        undone, failed := RollBackLast(active, ids, left, hooks, start, all, failed);
        s := if undone == Done then s else undone;
        left := left - 1;
        if s == Crashed {
          UnwindingSides(start, nodes, active, all, FirstIds(ids, left), failed);
          return;
        }
      }
      NoIds(ids);
      UnwindingSides(start, nodes, active, all, {}, failed);
    }

    method StageAll(ids: seq<NodeId>) returns (s: Step)
      modifies this`faults, this`staged
      ensures s != Conflict && faults == old(faults).OnNode(s)
      ensures s == Done ==> forall n :: n in ids ==> n in staged
    {
      s := Done;
      for i := 0 to |ids|
        invariant s == Done && faults == old(faults)
        invariant forall k :: 0 <= k < i ==> ids[k] in staged
      {
        s := Stage(ids[i]);
        if s != Done {
          return;
        }
      }
    }

    /** After a failure: mark the journal, undo the attempted nodes, and close the journal if all went well. */
    method Abandon(active: Journal, ids: seq<NodeId>, attempted: nat, hooks: bool, ghost start: map<NodeId, Node>)
      returns (s: Step)
      requires Deploying(active, ids, hooks, start) && attempted <= |ids|
      requires inventory.configs == active.before.configs
      requires Progress(start, nodes, active, FirstIds(ids, attempted))
      requires journal == if ids != [] then Some(active) else None
      modifies this`nodes, this`journal, this`faults
      ensures Valid() && s != Conflict && NoFewer(old(faults), faults) && faults.store == old(faults).store
      ensures s == Done ==> journal.None? && faults == old(faults)
      ensures s == Error ==> old(faults).nodes < faults.nodes || old(faults).journal < faults.journal
      ensures if s == Crashed then old(faults).crashes < faults.crashes else old(faults).crashes == faults.crashes
      ensures s != Crashed && faults.nodes == old(faults).nodes ==> Synchronised(nodes, active.before.configs)
      ensures s != Crashed && faults.journal == old(faults).journal ==>
        journal in {None, Some(active.(direction := Rollback))}
      ensures journal in {None, Some(active), Some(active.(direction := Rollback))}
    {
      hide Between, FilesRun, InSync, Covers, WellFormed, NodeAttempted;
      TouchedIsRecoverable(active, ids, hooks, start, nodes, inventory, FirstIds(ids, attempted));
      var marked := Done;
      if ids != [] {
        marked := SetJournal(Some(active.(direction := Rollback)));
        if marked == Crashed {
          return Crashed;
        }
      }
      ghost var failed;
      s, failed := RollBackAll(active, ids, attempted, hooks, start);
      BetweenIsRecoverable(active, ids, hooks, start, nodes, inventory);
      if s == Done {
        s := marked;
        if ids != [] && marked == Done {
          s := SetJournal(None);
        }
      }
    }

    /** The compare-and-swap of the inventory and the end of the journal. */
    method Commit(active: Journal, ids: seq<NodeId>, expected: nat, hooks: bool, ghost start: map<NodeId, Node>)
      returns (s: Step, committed: bool)
      requires Deploying(active, ids, hooks, start) && inventory.configs == active.before.configs
      requires Progress(start, nodes, active, FirstIds(ids, |ids|))
      requires Applied(start, nodes, active, FirstIds(ids, |ids|), hooks)
      requires journal == if ids != [] then Some(active) else None
      modifies this`inventory, this`revision, this`journal, this`faults
      ensures NoFewer(old(faults), faults) && faults.nodes == old(faults).nodes
      ensures faults == if committed then old(faults).OnJournal(s) else old(faults).OnStore(s)
      ensures !committed ==> (s == Conflict <==> old(revision) != expected)
      ensures committed ==> s != Conflict
      ensures old(revision) <= revision && (!committed && s != Crashed ==> revision == old(revision))
      ensures committed || s == Crashed ==> Valid()
      ensures committed ==>
        inventory == active.after && (s == Done ==> journal.None?) && (s == Error ==> journal == Some(active))
      ensures !committed ==>
        s != Done && journal == old(journal) && (s != Crashed ==> inventory == old(inventory))
    {
      AppliedIsCommittable(active, ids, hooks, start, nodes);
      TouchedIsRecoverable(active, ids, hooks, start, nodes, inventory, FirstIds(ids, |ids|));
      committed := false;
      s := Replace(expected, active.after);
      if s != Done {
        return;
      }
      committed := true;
      if ids != [] {
        s := SetJournal(None);
      }
    }

    /** One round of a deployment, from reading the inventory to the commit or the roll-back. */
    method Attempt(request: Request) returns (o: Outcome, conflict: bool)
      requires Valid() && WellCovered(request)
      modifies this
      ensures Valid()
      ensures old(journal).Some? || !Accepts(request, old(inventory)) ==>
        o == Failed && inventory == old(inventory) && journal == old(journal) && nodes == old(nodes)
      ensures o == Failed && faults == old(faults) ==> old(journal).Some? || !Accepts(request, old(inventory))
      ensures o == Committed || o == Unclosed ==> request.mutate(old(inventory)) == Some(inventory)
      ensures old(revision) <= revision && (conflict ==> old(revision) < revision)
      ensures old(journal).None? ==>
        Ended(o, conflict, old(inventory).configs, old(faults), inventory.configs, journal, faults)
      ensures old(journal).Some? ==> !conflict && faults == old(faults)
    {
      conflict := false;
      if journal.Some? {
        return Failed, false;
      }
      var current, expected := inventory, revision;
      var candidate := request.mutate(current);
      if candidate.None? {
        return Failed, false;
      }
      var ids := UniqueNodeIds(request.nodeIds(candidate.value));
      if exists n | n in ids :: n !in candidate.value.configs {
        return Failed, false;
      }
      staged := {};
      var checked := StageAll(ids);
      if checked != Done {
        return if checked == Crashed then Stopped else Failed, false;
      }
      BeginJournalIsWellFormed(current, candidate.value, ids);
      assert (set n | n in request.nodeIds(candidate.value)) == FirstIds(ids, |ids|);
      o, conflict := Deploy(BeginJournal(current, candidate.value, ids), ids, expected, request.hooks);
    }

    /** The part of a round that changes anything. */
    method Deploy(active: Journal, ids: seq<NodeId>, expected: nat, hooks: bool) returns (o: Outcome, conflict: bool)
      requires Valid() && journal.None? && active.before == inventory && expected == revision
      requires Deploying(active, ids, hooks, nodes) && forall n :: n in ids ==> n in staged
      modifies this
      ensures Valid()
      ensures o == Committed || o == Unclosed ==> inventory == active.after
      ensures old(revision) <= revision && (conflict ==> old(revision) < revision)
      ensures Ended(o, conflict, active.before.configs, old(faults), inventory.configs, journal, faults)
      ensures o == Failed ==> faults != old(faults)
    {
      ghost var start := nodes;
      hide Between, FilesRun, InSync, Covers, WellFormed, NodeAttempted, NodeApplied, RunsOld, Progress, Applied;
      conflict := false;
      TouchedIsRecoverable(active, ids, hooks, start, nodes, inventory, {});
      if ids != [] {
        var begun := SetJournal(Some(active));
        if begun != Done {
          return if begun == Crashed then Stopped else Failed, false;
        }
      }
      var s, attempted := ApplyAll(active, ids, hooks);
      TouchedIsRecoverable(active, ids, hooks, start, nodes, inventory, FirstIds(ids, attempted));
      if s == Done {
        OtherWriter();
        var outcome, committed := Commit(active, ids, expected, hooks, start);
        s := outcome;
        if committed {
          return if s == Done then Committed else if s == Crashed then Stopped else Unclosed, false;
        }
      }
      if s == Crashed {
        return Stopped, false;
      }
      conflict := s == Conflict;
      var undone := Abandon(active, ids, attempted, hooks, start);
      o := if undone == Crashed then Stopped else if undone == Done && conflict then Retry else Failed;
    }

    /** A deployment: at most three rounds, a new one only after a conflict that was fully undone. */
    method MutateAndApply(request: Request) returns (o: Outcome, conflict: bool, ghost rounds: nat)
      requires Valid() && WellCovered(request)
      modifies this
      ensures Valid() && rounds <= 3 && (o == Retry ==> rounds == 3)
      ensures o == Committed || o == Unclosed ==>
        exists layout :: request.mutate(Inventory(old(inventory).configs, layout)) == Some(inventory)
      ensures o == Failed && faults == old(faults) ==>
        old(journal).Some? || exists layout :: !Accepts(request, Inventory(old(inventory).configs, layout))
      ensures old(revision) <= revision && (conflict ==> old(revision) < revision)
      ensures old(journal).None? ==>
        Ended(o, conflict, old(inventory).configs, old(faults), inventory.configs, journal, faults)
      ensures old(journal).Some? ==>
        o == Failed && journal == old(journal) && nodes == old(nodes) && inventory.configs == old(inventory).configs
    {
      o, conflict, rounds := Failed, false, 0;
      for attempt := 0 to INVENTORY_COMMIT_RETRIES
        invariant Valid() && rounds == attempt
        invariant o == Retry || attempt == 0
        invariant attempt > 0 ==> journal.None? && old(journal).None? && conflict && old(revision) < revision
        invariant attempt == 0 ==> journal == old(journal) && nodes == old(nodes) && !conflict
        invariant inventory.configs == old(inventory).configs && faults == old(faults) && old(revision) <= revision
      {
        OtherWriter();
        ghost var current := inventory;
        o, conflict := Attempt(request);
        rounds := rounds + 1;
        if o != Retry {
          assert current == Inventory(current.configs, current.layout);
          return;
        }
      }
    }

    /** Applies the targets of the journal's direction again. */
    method Replay(active: Journal) returns (s: Step)
      requires Recoverable(inventory, active, nodes) && forall t :: t in SideTargets(active) ==> t.node in staged
      modifies this`nodes, this`faults
      ensures s != Conflict && faults == old(faults).OnNode(s)
      ensures Recoverable(inventory, active, nodes)
      ensures s == Done ==>
        forall t :: t in SideTargets(active) ==> FilesRun(NodeAt(nodes, t.node), BundleAt(SideConfigs(active), t.node))
    {
      var targets := SideTargets(active);
      s := Done;
      for i := 0 to |targets|
        invariant s == Done && faults == old(faults) && Recoverable(inventory, active, nodes)
        invariant forall k :: 0 <= k < i ==>
          FilesRun(NodeAt(nodes, targets[k].node), BundleAt(SideConfigs(active), targets[k].node))
      {
        ghost var before := nodes;
        assert targets[i] in targets;
        s := ApplyStagedConfig(targets[i]);
        ReplayedIsRecoverable(inventory, active, before, nodes, targets[i]);
        if s != Done {
          return;
        }
      }
    }

    /** One node's rules; nothing is sent when neither side has any. */
    method RecoverNodeRules(active: Journal, n: NodeId) returns (s: Step)
      requires Recoverable(inventory, active, nodes) && n in TargetIds(SideTargets(active))
      modifies this`nodes, this`faults
      ensures s != Conflict && faults == old(faults).OnNode(s)
      ensures Recoverable(inventory, active, nodes)
      ensures OthersKept(old(nodes), nodes, n)
      ensures OnlyRulesChanged(old(nodes), nodes)
      ensures s == Done ==> NodeAt(nodes, n).rules == BundleAt(SideConfigs(active), n).rules
      ensures BundleAt(active.before.configs, n).rules == {} && BundleAt(active.after.configs, n).rules == {} ==>
        s == Done && nodes == old(nodes)
    {
      if BundleAt(active.before.configs, n).rules == {} && BundleAt(active.after.configs, n).rules == {} {
        assert Between(NodeAt(nodes, n), active, n);
        return Done;
      }
      ghost var before := nodes;
      s := SetRules(n, BundleAt(SideConfigs(active), n).rules);
      RulesSetIsRecoverable(inventory, active, before, nodes, n);
    }

    method RecoverRules(active: Journal) returns (s: Step)
      requires Recoverable(inventory, active, nodes)
      modifies this`nodes, this`faults
      ensures s != Conflict && faults == old(faults).OnNode(s)
      ensures Recoverable(inventory, active, nodes)
      ensures OnlyRulesChanged(old(nodes), nodes)
      ensures s == Done ==>
        forall t :: t in SideTargets(active) ==>
          NodeAt(nodes, t.node).rules == BundleAt(SideConfigs(active), t.node).rules
    {
      var targets := SideTargets(active);
      s := Done;
      for i := 0 to |targets|
        invariant s == Done && faults == old(faults) && Recoverable(inventory, active, nodes)
        invariant OnlyRulesChanged(old(nodes), nodes)
        invariant forall k :: 0 <= k < i ==>
          NodeAt(nodes, targets[k].node).rules == BundleAt(SideConfigs(active), targets[k].node).rules
      {
        assert targets[i] in targets;
        ghost var before := nodes;
        s := RecoverNodeRules(active, targets[i].node);
        forall n
          ensures NodeAt(nodes, n).(rules := {}) == NodeAt(old(nodes), n).(rules := {})
        {
          assert NodeAt(nodes, n).(rules := {}) == NodeAt(before, n).(rules := {});
        }
        if s != Done {
          return;
        }
      }
    }

    /** Brings all targets to the journal's side; the files are there already when it was committed. */
    method Resume(active: Journal, replay: bool) returns (s: Step)
      requires Recoverable(inventory, active, nodes)
      requires !replay ==> active.direction.Forward? && inventory == active.after
      modifies this`nodes, this`faults, this`staged
      ensures s != Conflict && faults == old(faults).OnNode(s)
      ensures Recoverable(inventory, active, nodes)
      ensures s == Done ==> Synchronised(nodes, SideConfigs(active))
      ensures s == Done ==>
        forall stored: Inventory :: stored.configs == SideConfigs(active) ==> Recoverable(stored, active, nodes)
    {
      if replay {
        var ids := seq(|SideTargets(active)|, i requires 0 <= i < |SideTargets(active)| => SideTargets(active)[i].node);
        staged := {};
        s := StageAll(ids);
        if s != Done {
          return;
        }
        forall t | t in SideTargets(active)
          ensures t.node in staged
        {
          var i :| 0 <= i < |SideTargets(active)| && SideTargets(active)[i] == t;
          assert ids[i] == t.node;
        }
        s := Replay(active);
        if s != Done {
          return;
        }
      } else {
        CommittedNodesRun(inventory, active, nodes);
      }
      s := RecoverRules(active);
      if s == Done {
        SideIsSynchronised(inventory, active, nodes);
      }
    }

    /** Replays an interrupted deployment to the end its journal names. */
    method Recover() returns (o: Outcome)
      requires Valid()
      modifies this
      ensures Valid()
      ensures o == Committed ==> journal.None?
      ensures o == Committed && old(journal).Some? ==>
        inventory == if old(journal).value.direction.Forward? then old(journal).value.after
                                      else old(journal).value.before
      ensures journal == old(journal) || journal.None?
      ensures o in {Committed, Failed, Stopped}
      ensures o == Committed ==> faults == old(faults)
      ensures o == Stopped ==> old(faults).crashes < faults.crashes
      ensures o == Failed ==> faults.crashes == old(faults).crashes
      ensures old(journal).Some? && Unrelated(old(inventory), old(journal).value) ==>
        o == Failed && inventory == old(inventory) && journal == old(journal) && nodes == old(nodes)
      ensures o == Failed && faults == old(faults) ==>
        old(journal).Some? && (revision != old(revision) || Unrelated(old(inventory), old(journal).value))
    {
      hide Between, FilesRun, InSync, Covers, WellFormed, TargetIds;
      if journal.None? {
        return Committed;
      }
      var active := journal.value;
      var actual, expected := inventory, revision;
      var desired := if active.direction.Forward? then active.after else active.before;
      var opposite := if active.direction.Forward? then active.before else active.after;
      if actual != desired && actual != opposite {
        return Failed;
      }
      var resumed := Resume(active, active.direction.Rollback? || actual != desired);
      if resumed != Done {
        return if resumed == Crashed then Stopped else Failed;
      }
      if actual != desired {
        OtherWriter();
        var replaced := Replace(expected, desired);
        if replaced != Done {
          return if replaced == Crashed then Stopped else Failed;
        }
      }
      var cleared := SetJournal(None);
      o := if cleared == Done then Committed else if cleared == Crashed then Stopped else Failed;
    }

    /** Any history of deployments and recoveries (`None`), each free to fail or stop at any step. */
    method Run(requests: seq<Option<Request>>) returns (outcomes: seq<Outcome>)
      requires Valid()
      requires forall r :: r in requests && r.Some? ==> WellCovered(r.value)
      modifies this
      ensures Valid() && |outcomes| == |requests|
      ensures journal.None? ==> Synchronised(nodes, inventory.configs)
      ensures requests != [] && outcomes[|requests| - 1] == Committed ==> journal.None?
    {
      outcomes := [];
      for i := 0 to |requests|
        invariant Valid() && |outcomes| == i
        invariant i > 0 && outcomes[i - 1] == Committed ==> journal.None?
      {
        var o;
        assert requests[i] in requests;
        if requests[i].Some? {
          var conflict;
          ghost var rounds;
          o, conflict, rounds := MutateAndApply(requests[i].value);
        } else {
          OtherWriter();
          o := Recover();
        }
        outcomes := outcomes + [o];
      }
    }
  }

  /** The stored inventory is neither the one before nor the one after the journal's deployment. */
  predicate Unrelated(inventory: Inventory, active: Journal) {
    inventory != active.before && inventory != active.after
  }

  /** The targets and bundles of the side the journal's direction leads to. */
  function SideTargets(active: Journal): seq<Target> {
    if active.direction.Forward? then active.forwardTargets else active.rollbackTargets
  }

  function SideConfigs(active: Journal): map<NodeId, Bundle> {
    if active.direction.Forward? then active.after.configs else active.before.configs
  }

  lemma OneTargetChanged(
    inventory: Inventory, active: Journal, before: map<NodeId, Node>, nodes: map<NodeId, Node>, n: NodeId)
    requires Recoverable(inventory, active, before) && n in TargetIds(active.forwardTargets)
    requires OthersKept(before, nodes, n)
    requires Between(NodeAt(nodes, n), active, n)
    requires active.direction.Forward? && FilesRun(NodeAt(before, n), BundleAt(active.after.configs, n)) ==>
      FilesRun(NodeAt(nodes, n), BundleAt(active.after.configs, n))
    ensures Recoverable(inventory, active, nodes)
  {
    var ids := TargetIds(active.forwardTargets);
    forall m
      ensures m !in ids ==> InSync(nodes, active.before.configs, m)
      ensures m in ids ==> Between(NodeAt(nodes, m), active, m)
      ensures m in ids && active.direction.Forward? ==>
        FilesRun(NodeAt(before, m), BundleAt(active.after.configs, m)) ==>
        FilesRun(NodeAt(nodes, m), BundleAt(active.after.configs, m))
    {
      assert m != n ==> NodeAt(nodes, m) == NodeAt(before, m);
      assert m !in ids ==> InSync(before, active.before.configs, m);
      assert m in ids ==> Between(NodeAt(before, m), active, m);
    }
  }

  /** One more apply of a side's own configuration: the node stays between the sides, and never loses this one. */
  lemma ReplayedNode(active: Journal, n: NodeId, config: Config, before: Node, after: Node)
    requires Between(before, active, n)
    requires config == if active.direction.Forward? then ForwardConfig(active, n) else RollbackConfig(active, n)
    requires after == before || ApplyStopped(before, config, after)
    ensures Between(after, active, n)
    ensures after == ApplyFiles(before, config) ==> FilesRun(after, BundleAt(SideConfigs(active), n))
    ensures FilesRun(before, BundleAt(SideConfigs(active), n)) ==> FilesRun(after, BundleAt(SideConfigs(active), n))
  {
    var oldBundle, newBundle := BundleAt(active.before.configs, n), BundleAt(active.after.configs, n);
    if active.direction.Forward? {
      ApplyLeavesOnlyTheBundle(before, newBundle, oldBundle);
    } else {
      ApplyLeavesOnlyTheBundle(before, oldBundle, newBundle);
    }
  }

  lemma ReplayedIsRecoverable(
    inventory: Inventory, active: Journal, before: map<NodeId, Node>, nodes: map<NodeId, Node>, target: Target)
    requires Recoverable(inventory, active, before) && target in SideTargets(active)
    requires OthersKept(before, nodes, target.node)
    requires NodeAt(nodes, target.node) == NodeAt(before, target.node)
          || ApplyStopped(NodeAt(before, target.node), target.config, NodeAt(nodes, target.node))
    ensures Recoverable(inventory, active, nodes)
    ensures NodeAt(nodes, target.node) == ApplyFiles(NodeAt(before, target.node), target.config) ==>
      FilesRun(NodeAt(nodes, target.node), BundleAt(SideConfigs(active), target.node))
    ensures forall n :: FilesRun(NodeAt(before, n), BundleAt(SideConfigs(active), n)) ==>
      FilesRun(NodeAt(nodes, n), BundleAt(SideConfigs(active), n))
  {
    var n := target.node;
    assert n in TargetIds(SideTargets(active));
    ReplayedNode(active, n, target.config, NodeAt(before, n), NodeAt(nodes, n));
    OneTargetChanged(inventory, active, before, nodes, n);
  }

  lemma RulesSetIsRecoverable(
    inventory: Inventory, active: Journal, before: map<NodeId, Node>, nodes: map<NodeId, Node>, n: NodeId)
    requires Recoverable(inventory, active, before) && n in TargetIds(SideTargets(active))
    requires OthersKept(before, nodes, n)
    requires NodeAt(nodes, n) == NodeAt(before, n)
          || NodeAt(nodes, n) == NodeAt(before, n).(rules := BundleAt(SideConfigs(active), n).rules)
    ensures Recoverable(inventory, active, nodes)
  {
    assert Between(NodeAt(before, n), active, n);
    OneTargetChanged(inventory, active, before, nodes, n);
  }

  /** A forward journal over the new inventory needs no replay: every target already runs the new files. */
  lemma CommittedNodesRun(inventory: Inventory, active: Journal, nodes: map<NodeId, Node>)
    requires Recoverable(inventory, active, nodes) && active.direction.Forward? && inventory == active.after
    ensures forall t :: t in SideTargets(active) ==>
      FilesRun(NodeAt(nodes, t.node), BundleAt(SideConfigs(active), t.node))
  {
    forall t | t in SideTargets(active)
      ensures FilesRun(NodeAt(nodes, t.node), BundleAt(SideConfigs(active), t.node))
    {
      assert t.node in TargetIds(active.forwardTargets);
    }
  }

  /** With files and rules of all targets on the journal's side, every node is, and the swap is safe at any moment. */
  lemma SideIsSynchronised(inventory: Inventory, active: Journal, nodes: map<NodeId, Node>)
    requires Recoverable(inventory, active, nodes)
    requires forall t :: t in SideTargets(active) ==>
      && FilesRun(NodeAt(nodes, t.node), BundleAt(SideConfigs(active), t.node))
      && NodeAt(nodes, t.node).rules == BundleAt(SideConfigs(active), t.node).rules
    ensures Synchronised(nodes, SideConfigs(active))
    ensures forall stored: Inventory :: stored.configs == SideConfigs(active) ==> Recoverable(stored, active, nodes)
  {
    forall n
      ensures InSync(nodes, SideConfigs(active), n)
    {
      if n in TargetIds(SideTargets(active)) {
        var t :| t in SideTargets(active) && t.node == n;
      } else {
        assert InSync(nodes, active.before.configs, n);
      }
    }
    forall n | n in TargetIds(active.forwardTargets)
      ensures FilesRun(NodeAt(nodes, n), BundleAt(SideConfigs(active), n))
    {
      assert n in TargetIds(SideTargets(active));
    }
  }

  /**
   * A roll-back under way: `left` still waits, the rest of `all` was visited, and `failed` of these could not be
   * undone.
   */
  ghost predicate Unwinding(
    start: map<NodeId, Node>, nodes: map<NodeId, Node>, active: Journal,
    all: set<NodeId>, left: set<NodeId>, failed: set<NodeId>)
  {
    forall n ::
      if n in left then NodeAttempted(NodeAt(start, n), active, n, NodeAt(nodes, n))
      else if n in all then
        Between(NodeAt(nodes, n), active, n) && (n !in failed ==> RunsOld(NodeAt(nodes, n), active, n))
      else NodeAt(nodes, n) == NodeAt(start, n)
  }

  lemma UnwindingStep(
    start: map<NodeId, Node>, before: map<NodeId, Node>, nodes: map<NodeId, Node>, active: Journal,
    all: set<NodeId>, left: set<NodeId>, n: NodeId, failed: set<NodeId>, failedAfter: set<NodeId>)
    requires n in left && left <= all
    requires Unwinding(start, before, active, all, left, failed)
    requires OthersKept(before, nodes, n) && Between(NodeAt(nodes, n), active, n)
    requires failed <= failedAfter && (n !in failedAfter ==> RunsOld(NodeAt(nodes, n), active, n))
    ensures Unwinding(start, nodes, active, all, left - {n}, failedAfter)
  {
  }

  lemma UnwindingSides(
    start: map<NodeId, Node>, nodes: map<NodeId, Node>, active: Journal,
    all: set<NodeId>, left: set<NodeId>, failed: set<NodeId>)
    requires left <= all && Synchronised(start, active.before.configs)
    requires Unwinding(start, nodes, active, all, left, failed)
    ensures forall n :: Between(NodeAt(nodes, n), active, n)
    ensures forall n :: n !in all ==> InSync(nodes, active.before.configs, n)
    ensures left == {} ==> forall n :: n !in failed ==> InSync(nodes, active.before.configs, n)
  {
    forall n
      ensures Between(NodeAt(nodes, n), active, n)
      ensures n !in all || (left == {} && n !in failed) ==> InSync(nodes, active.before.configs, n)
    {
      assert InSync(start, active.before.configs, n);
      if n in left {
        AttemptedIsBetween(NodeAt(start, n), active, n, NodeAt(nodes, n));
      }
    }
  }

  ghost predicate OnlyRulesChanged(before: map<NodeId, Node>, after: map<NodeId, Node>) {
    forall n :: NodeAt(after, n).(rules := {}) == NodeAt(before, n).(rules := {})
  }

  ghost predicate OthersKept(before: map<NodeId, Node>, after: map<NodeId, Node>, n: NodeId) {
    forall m :: m != n ==> NodeAt(after, m) == NodeAt(before, m)
  }
}
