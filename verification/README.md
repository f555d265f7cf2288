# Birdbox: verified model of the control plane and the node agent

Birdbox pushes BIRD configuration and Linux policy rules from a controller to remote nodes. This project models the
parts of it that have to stay right when something fails half way, and the small compilers and scanners that decide
what reaches a node. `dafny verify dfyconfig.toml` checks everything.

| module | what it models |
|---|---|
| `IpRules` | accepted policy-rule tuples, the kernel's text listing of rules, and reading it back |
| `RuleJournal` | the agent's rule journal: update, roll-back, restart and reboot, each step free to fail or be cut off |
| `NodeFiles` | staging, applying and undoing configuration links on a node, and the collection of old versions |
| `Deployment` | one deployment to many nodes with a recovery journal, and its recovery |
| `AgentBroker` | task queues, waiting polls, time-outs, preemption and disconnects |
| `SourcePolicy`, `SourcePolicyAllocator` | source-policy egress: acceptance, compilation to rules, allocation of slots, tables and priorities |
| `Dependencies` | the resource dependency graph and the order in which a node's text is rendered |
| `IncludeLexer` | rewriting the active include directives of a BIRD main configuration |
| `RoutePaging` | paging of a route listing on the agent and its reading on the controller |
| `BlockScanner` | brace, quote and comment scanning, and indentation of accepted fragments |
| `Redaction`, `ConfigMask` | hiding secrets in JSON trees and configuration texts, and restoring them |
| `AuthStore` | the administrator's password and sessions under concurrent requests |
| `OspfInterfaces` | sharing of interfaces between OSPF links and the interface blocks rendered for them |
| `Ipv4`, `Ipv4Text`, `Decimal`, `Text`, `Wrappers` | CIDR arithmetic (section 3.1 of RFC 4632), text forms, options and results |

Stateful parts are classes with the program's fields and loops; their methods are proved against functions on values,
and the laws are lemmas about those functions. A step that can fail (a command, a file operation, a store access) is a
method with a nondeterministic outcome; a crash may come before or after a step took effect. Ghost counters of such
faults let a contract say that an operation fails for no other reason, and what one fault alone leaves behind.

What the environment is assumed to do:

- A file is saved atomically, and a save that reports failure left the file unchanged. Without this the rule journal
  is not safe: `RestorableAfterLooseSaves` says exactly when, `ReportedFailureAfterRenameStrandsRules` gives a run.
- Nothing else edits the kernel's rules between one listing and the deletions that follow it. `ip rule del` removes
  the first rule that agrees with the selectors it names.
- A failed compare-and-swap of the inventory changed nothing, and other writers of the inventory change only fields
  that no node renders.
- A failed apply on a node has at least kept its rollback copies; `RollbackAfterEarlyFailure` says exactly what a
  roll-back does otherwise. The caller of a deployment names every node whose bundle it changes.
- Hashes are injective; ids and tokens are fresh; clocks are parameters.
- A `string` is a sequence of bytes where the program works on bytes and of UTF-16 units where it works on strings.

Where a law that suggests itself does not hold of the code, the model keeps the code and says when it holds: an
unaligned priority base chosen by hand is overlooked by the automatic search (`ProbedRangeIsFree`,
`UnalignedBaseIsOverlooked`); array records without distinct identities share a secret when restored, and a tree is
restored exactly when it regains every secret (`TwinsShareSecret`, `RestoredIffRegained`); undoing an apply does not
restore a resource that was a regular file (`UndoAfterApply`).

## Model

| member | source | states |
|---|---|---|
| IpRules.ParseIpRule | agent/network.go:21-62 | an accepted tuple has priority, table and kind in range, a canonical block, and the main table exactly for destinations |
| IpRules.SavedFormIsAccepted | agent/network_state.go:61-79 | the check of the state file accepts every rule the parser can produce, unchanged |
| IpRules.KindIsChecked | agent/network.go:31-35 | a request that names a kind is read exactly when the kind is that of its selector |
| IpRules.ParseTextIpRule | agent/network_text.go:10-51 | the token loop of one listed line reads what the specification reads, or fails with it |
| IpRules.ParseTextIpRules | agent/network_text.go:10-51 | the whole listing is read in order, blank lines skipped, or not at all |
| IpRules.SelectorsAreRead | agent/network_text.go:24-49 | each managed selector is read under each of its names |
| Decimal.SignedDecimals | agent/network_text.go:14-22 | a decimal number is read with or without a sign, and refused when it does not fit 64 bits |
| IpRules.ExtraSelectorsAreNeverManaged | agent/network_state.go:138-145 | a listed rule with any selector outside the tuple is never read as managed |
| IpRules.ReadingAgreesWithKernel | agent/network_state.go:138-186 | for every kernel rule, listing and reading back decides management as the kernel's own data does |
| IpRules.RoundTrip | agent/network_state.go:138-186 | every accepted rule survives the kernel's listing (`/32` without mask, `all`, `main`) and comes back as the same tuple |
| IpRules.ListingIsInjective | agent/network.go:64-77 | two different managed rules never share a listing |
| IpRules.ListingReadsBack | agent/network_state.go:124-136 | a listing that parses names the kernel's rules in order, with their priorities and management |
| RuleJournal.UniqueIpRules | agent/network_state.go:47-59 | keeps the first occurrence of every rule, and each once |
| RuleJournal.DeleteFirstTakesHead | agent/network_state.go:209-217 | a deletion issued in listing order removes exactly the listed entry, though it names only some selectors |
| RuleJournal.RuleAgent.Conflicts | agent/network_state.go:193-208 | refuses exactly when some entry at a managed priority is not one of the managed rules |
| RuleJournal.RuleAgent.DeleteListed | agent/network_state.go:209-217 | stopped anywhere, leaves other priorities alone; completed, leaves nothing at the managed ones |
| RuleJournal.RuleAgent.AddAll | agent/network_state.go:218-222 | stopped anywhere, has added only desired rules; completed, exactly these, once each |
| RuleJournal.RuleAgent.Reconcile | agent/network_state.go:188-227 | however it ends, other priorities are unchanged and managed ones hold only managed rules; success means exactly the desired rules; a conflict means no change |
| RuleJournal.ReconciledIsSound | agent/network_state.go:188-227 | a reconcile cut off anywhere keeps every rule it may have left behind within the journal |
| RuleJournal.GuardedKeepsForeign | agent/network_state.go:193-208 | an operation that refuses before it changes anything leaves every unmanaged rule, and all else at its priority, as it was |
| RuleJournal.ForeignChain | agent/network_state.go:193-208 | what two operations in a row leave alone, the pair leaves alone: an unmanaged rule survives the first and so stops the second |
| RuleJournal.RuleAgent.RollBack | agent/network_state.go:240-257 | the journal closes only over a kernel that holds the previous rules, and only a fault keeps it from closing |
| RuleJournal.RuleAgent.Install | agent/network_state.go:239-250 | the new rules are saved only over a kernel that holds exactly them |
| RuleJournal.RuleAgent.InstallOrRollBack | agent/network_state.go:239-257 | after a single fault the previous rules are back and the journal is closed |
| RuleJournal.RuleAgent.Apply | agent/network_state.go:229-260 | an unmanaged rule at a named or journaled priority refuses the update, and nothing in the kernel changes; otherwise only a fault makes it fail, and a single fault is undone: nothing was changed yet, or the previous rules are again exactly what those priorities hold and the journal is empty; cut off at any step, nothing changed at a priority that neither the request nor the journal names, the file holds the old or the new rules, and the journal covers all left-overs; success means the new rules, saved and installed, with every named and journaled priority taken over and the removed rules gone |
| RuleJournal.RemovedAreGone | agent/network_state.go:239-254 | once exactly the new rules are installed over all named priorities, no rule that was to be removed and is not wanted again is left |
| RuleJournal.RuleAgent.Restore | agent/network_state.go:262-278 | an unmanaged rule at a journaled priority refuses the restore, and nothing changes; otherwise only a fault makes it fail; nothing changes away from the journaled priorities; success takes all of them over, leaves exactly the saved rules there and an empty journal; without a file nothing changes |
| RuleJournal.RuleAgent.Run | agent/network_state.go:188-278 | over any history of updates, restarts and reboots: the invariant, and the journal names only requested or initially journaled rules; without a reboot the kernel is unchanged at every other priority, and wherever a rule stood that was neither requested nor journaled, its whole priority is unchanged; saved rules were asked for; after a final success the kernel holds exactly the saved rules |
| RuleJournal.ReconcileCanSucceed | agent/network_state.go:188-227 | without an unmanaged rule at the managed priorities a reconcile can always end with exactly the desired rules |
| RuleJournal.RestorableAfterLooseSaves | agent/network_state.go:248-256 | were saves not atomic: after an update whose save was reported as failed and which was rolled back, a restore can succeed, except exactly when the file was left with the new rules alone and a previous rule outside them shares a priority with one of them |
| RuleJournal.ReportedFailureAfterRenameStrandsRules | agent/network_state.go:248-256 | such a run: one rule replaced by another of its priority, the commit written but reported as failed, the roll-back done but not saved; then no restore can succeed |
| NodeFiles.GarbageIsUnreferenced | agent/bird.go:613-665 | no active, candidate or rollback link leads to a version that is collected |
| NodeFiles.GarbageIff | agent/bird.go:613-665 | a version is collected exactly when no active, candidate or rollback link of its kind leads to it |
| NodeFiles.CollectionIsSafe | agent/bird.go:625-665 | removing any part of the garbage leaves every managed path reading the same |
| NodeFiles.NodeAgent.Collect | agent/bird.go:645-665 | removes all garbage but the files that cannot be removed, and changes no managed path |
| NodeFiles.NodeAgent.RestoreSnapshot | agent/bird.go:694-702 | touches only captured paths, goes on past failures, and on success each is as captured |
| NodeFiles.NodeAgent.StageResource | agent/bird.go:524-551 | the version is written and the candidate link leads to it; nothing else managed changes |
| NodeFiles.NodeAgent.StageMain | agent/bird.go:553-579 | the same for the main text |
| NodeFiles.NodeAgent.Stage | agent/bird.go:780-810 | whatever fails, no active or rollback path changes or reads differently; success leaves a candidate for the main text and every resource; garbage is collected in any case |
| NodeFiles.NodeAgent.SwitchResource | agent/bird.go:908-940 | a resource with a candidate is kept for a roll-back and then pointed at it |
| NodeFiles.NodeAgent.SwitchAll | agent/bird.go:908-940 | all listed resources with a candidate are switched, no other is touched |
| NodeFiles.NodeAgent.UnlinkAll | agent/bird.go:941-967 | exactly the removed resources are kept for a roll-back and unlinked |
| NodeFiles.NodeAgent.NamesOf | agent/bird.go:586-611 | the resources worked on are those of the bundle, or every one with a candidate when the bundle names none |
| NodeFiles.NodeAgent.PutBack | agent/bird.go:694-702 | a snapshot put back completely leaves every active path as it was |
| NodeFiles.NodeAgent.Apply | agent/bird.go:821-994 | a failure leaves every active path as it was, unless a file operation failed besides the cause, and BIRD running what it ran before or, after a refusal, what was put back; the candidate survives a failure before the check and is dropped after it; success means BIRD has loaded the active paths, each is its candidate, exactly the removed ones are unlinked and the old state is kept for one roll-back |
| NodeFiles.NodeAgent.Undo | agent/bird.go:996-1076 | without a rollback copy nothing changes; a later failure leaves every active path as it was, unless a file operation failed besides the cause or the generated file itself could not be put back; success puts back that file and every resource kept as a link, and BIRD has loaded them |
| NodeFiles.BundleIsRead | agent/bird.go:780-994 | after staging and applying, BIRD reads the bundle's main text and resources and none of the removed ones |
| NodeFiles.UndoAfterApply | agent/bird.go:996-1076 | undoing an apply restores the generated file and exactly the moved resources that were links, removed ones included; what it leaves of all others is stated too |
| NodeFiles.UndoReads | agent/bird.go:996-1076 | after an apply and its undo BIRD reads the earlier main text, and the earlier text of every moved resource that was a link |
| NodeFiles.NodeAgent.StageAndApply | agent/bird.go:780-994 | staged and applied without failure, BIRD reads the bundle |
| NodeFiles.NodeAgent.Run | agent/bird.go:780-1076 | over any sequence of staging, applying and undoing, cut off anywhere, no managed link dangles and no other file is lost |
| Deployment.RollbackUndoesApply | agent/bird.go:821-1076 | wherever an apply stopped after keeping its copies, rolling back makes active again all that was |
| Deployment.ApplyLeavesOnlyTheBundle | src/deployment-service.ts:295-303 | with removals computed against the opposite bundle, an apply leaves linked exactly the new resources of the two |
| Deployment.RollbackAfterEarlyFailure | agent/bird.go:858-880 | after a failure before any copy was kept, a roll-back restores the running bundle exactly when the stale copies are that bundle's |
| Deployment.BeginJournalIsWellFormed | src/deployment-service.ts:82-107 | the two target lists of a journal name the same nodes and carry each node's two bundles |
| Deployment.AttemptedIsBetween | src/deployment-service.ts:195-204 | an attempted node is on the old or the new side, and rolling it back restores the old files |
| Deployment.TouchedIsRecoverable | src/deployment-service.ts:195-204 | at any point of the apply phase recovery can finish in either direction |
| Deployment.AppliedIsCommittable | src/deployment-service.ts:195-207 | once all targets were applied, all nodes run the new inventory and recovery can only confirm it |
| Deployment.SideIsSynchronised | src/deployment-service.ts:137-151 | when all targets of a side were replayed with their rules, all nodes run that side's inventory |
| Deployment.DeploymentService.ApplyAll | src/deployment-service.ts:195-204 | exactly the nodes up to the first failure were attempted, each as an apply leaves it |
| Deployment.DeploymentService.RollBackOne | src/deployment-service.ts:233-255 | after a clean undo the node runs the old bundle with the old rules; otherwise a step on the node failed, and it is still on one side or the other |
| Deployment.DeploymentService.RollBackAll | src/deployment-service.ts:233-255 | every node runs the old inventory except as many as there were faults: a failure on one node does not keep the others from being undone |
| Deployment.DeploymentService.Commit | src/deployment-service.ts:206-212 | a commit stores the new inventory while all nodes run it, a conflict or a fault stores nothing; an open journal then still leads to it |
| Deployment.DeploymentService.StageAll | src/deployment-service.ts:186-191 | goes on only when every node has staged its candidate; nothing is applied on a node that has not |
| Deployment.DeploymentService.Attempt | src/deployment-service.ts:178-268 | a journal that is open or a request that yields no inventory changes nothing; the rest ends as a deployment may end |
| Deployment.DeploymentService.Abandon | src/deployment-service.ts:223-262 | without a further fault the attempted nodes are put back and the journal is closed; whatever fails, a journal that is left leads back unless writing it failed |
| Deployment.DeploymentService.MutateAndApply | src/deployment-service.ts:158-280 | success means the mutated inventory is stored, runs everywhere and no journal is left; a failure before the commit stores nothing and, with no fault but its cause, leaves no journal and every node on the old inventory; a journal it leaves leads back to that, unless writing the journal failed too; a failure after the commit leaves the new inventory stored and a journal that leads to it |
| Deployment.DeploymentService.Replay | src/deployment-service.ts:138-148 | a replay cut off anywhere stays recoverable; a complete one leaves every target on the journal's side |
| Deployment.DeploymentService.RecoverRules | src/deployment-service.ts:149-150 | the same for the managed policy rules, which alone change |
| Deployment.DeploymentService.Resume | src/deployment-service.ts:137-150 | brings every node to the side the journal leads to, replaying files only where they may be missing |
| Deployment.DeploymentService.Recover | src/deployment-service.ts:125-156 | success ends with the inventory exactly before or after, as the journal's direction says, no journal, and all nodes on that side; only a fault, another writer or an unrelated inventory makes it fail |
| Deployment.DeploymentService.Run | src/deployment-service.ts:125-280 | over any mix of deployments, recoveries, failures, conflicts and crashes: with no journal open every node runs the stored inventory |
| AgentBroker.StableSortIsPermutation | src/agent-broker.ts:403-408 | sorting by priority loses and invents no task |
| AgentBroker.KeepOfSorted | src/agent-broker.ts:403-408 | sorting a sorted queue changes nothing |
| AgentBroker.SortedAtHead | src/agent-broker.ts:403-408 | a task put in front of a sorted queue and sorted stands before all others of its priority, behind all of higher priority |
| AgentBroker.SortedAtEnd | src/agent-broker.ts:466-469 | a task appended to a sorted queue and sorted stands after all others of its priority, before all of lower priority |
| AgentBroker.Broker.PruneQueue | src/agent-broker.ts:336-349 | settles exactly the expired tasks of the queue and keeps the others in order |
| AgentBroker.Broker.DropBackgroundTasks | src/agent-broker.ts:351-367 | settles the first `count` background tasks of the queue and nothing else |
| AgentBroker.Broker.TakeTask | src/agent-broker.ts:318-326 | hands out the first task that has not expired |
| AgentBroker.Broker.Poll | src/agent-broker.ts:369-401 | answers at once with the head of the queue, as this poll and no other is then recorded, or registers last; a poll that is refused or aborted changes nothing |
| AgentBroker.Broker.PollEnds | src/agent-broker.ts:379-400 | a poll is answered at most once, also when its time-out races with a task |
| AgentBroker.Broker.Requeue | src/agent-broker.ts:403-408 | an undelivered task that is still pending goes to the head of its priority; any other changes nothing |
| AgentBroker.Broker.Preempt | src/agent-broker.ts:442-444 | preemption settles the first background queries of the node, as many as told, and nothing else |
| AgentBroker.Broker.MakeRoom | src/agent-broker.ts:432-450 | afterwards exactly the expired tasks of the node's queue are gone and, if the node was still full and the new task is no query, as many of its queries as are needed; then there is room, or the refusal is justified by the pending tasks; other nodes are untouched |
| AgentBroker.PreemptionIsTight | src/agent-broker.ts:442-444 | making room leaves a full node at most one task short of full |
| AgentBroker.OnlyQueriesGiveWay | src/agent-broker.ts:57-77 | preemption without limit takes exactly the eight read-only queries; no task that changes a node is ever preempted |
| AgentBroker.Broker.Place | src/agent-broker.ts:453-470 | the longest-waiting poll gets the task, else it is queued at the end of its priority |
| AgentBroker.Refusal | src/agent-broker.ts:410-432 | the checks pass exactly for a known method with parameters of a size the agent can take and a time-out between 250 ms and ten minutes, and for a query only when the agent is connected |
| AgentBroker.Broker.Dispatch | src/agent-broker.ts:410-472 | a task is refused by the first check it fails, and then nothing changes, or else only for a limit its node has reached; an accepted task is new, pending, and queued or handed to the longest-waiting poll; the other pending tasks are those that making room leaves |
| AgentBroker.Broker.TimerFires | src/agent-broker.ts:454-462 | a fired timer settles its task, which was not settled before |
| AgentBroker.Broker.Result | src/agent-broker.ts:474-481 | a result settles its own node's pending task once and is otherwise ignored |
| AgentBroker.Broker.Disconnect | src/agent-broker.ts:123-134 | all tasks and polls of the node are settled, no others |
| AgentBroker.Broker.Step | src/agent-broker.ts:318-481 | each event has its effect and keeps the invariant |
| AgentBroker.Broker.Run | src/agent-broker.ts:318-481 | over any history: accepted tasks are pending or settled, never both; settlements are never changed; a pending task is queued, or some poll was answered with it; a poll is answered or still registered for its node; queues stay sorted; at most 32 pending and 8 background tasks per node |
| SourcePolicy.ContainsIsRange | src/bird-source-policy.ts:58-66 | membership by prefix bits is membership in the numeric range |
| SourcePolicy.OverlapIsSharedAddress | src/bird-source-policy.ts:68-70 | two blocks overlap exactly when some address lies in both |
| SourcePolicy.CheckNode | src/bird-inventory.ts:411-453 | accepts exactly the node policies with no clashing sources, shared tables, shared priority windows or out-of-range rules |
| SourcePolicy.SingleIsAdmitted | src/bird-inventory.ts:411-453 | any single group within the ranges is accepted, at both ends of every range |
| SourcePolicy.PairIsWellFormed | src/bird-source-policy.ts:82-137 | two groups that differ in id, address, slot and table make a policy, at both ends of the priorities |
| SourcePolicy.CheckPriorities | src/bird-inventory.ts:448-453 | claiming priorities one by one refuses exactly when two policies' windows meet |
| SourcePolicy.TablesAreApart | src/bird-inventory.ts:443-447 | in an accepted node no two groups share a table, and none has a reserved one |
| SourcePolicy.GroupIsUnique | src/bird-inventory.ts:428-439 | in an accepted node no address belongs to two groups |
| SourcePolicy.ScopedGroups | src/bird-source-policy.ts:285-299 | a node is given exactly the groups of which it is not the gateway itself |
| SourcePolicy.HitExplained | src/bird-source-policy.ts:224-299 | any rule of a node that matches a packet is the gateway exception of its destination or the rule of the source's only group, for a group of which the node is not the gateway |
| SourcePolicy.CompiledRulesRoute | src/bird-source-policy.ts:224-299 | for every packet on every node, first match gives main for an egress address, else the table of the group that holds the source, else no managed rule; groups of which the node is the gateway do not count |
| SourcePolicy.SourcePrioritiesAreDistinct | src/bird-source-policy.ts:224-234 | source rules have pairwise distinct priorities, all above the gateway range |
| SourcePolicy.ManagedRulesAreValid | src/bird-source-policy.ts:264-299 | the agent accepts every compiled rule |
| SourcePolicyAllocator.AllocatePriorityBase | src/bird-source-policy.ts:151-160 | the search loop answers what the wrap-around probe answers |
| SourcePolicyAllocator.ChooseBase | src/bird-source-policy.ts:198-200 | an existing base is kept, else the requested one, else the first free window |
| SourcePolicyAllocator.ProbeIsComplete | src/bird-source-policy.ts:151-160 | the probe fails exactly when every aligned window starts an existing range |
| SourcePolicyAllocator.AlignedBasesAreDisjoint | src/bird-source-policy.ts:151-160 | among aligned ranges a new base means a disjoint range within the allowed priorities |
| SourcePolicyAllocator.ProbedRangeIsFree | src/bird-source-policy.ts:151-160 | from every start the range found is free of all existing ones, exactly when every window that starts no existing range is free of all of them |
| SourcePolicyAllocator.OnlyUnalignedReachesIn | src/bird-source-policy.ts:151-160 | a window that starts no existing range is free exactly when no unaligned range reaches into it |
| SourcePolicyAllocator.UnalignedBaseIsOverlooked | src/bird-source-policy.ts:151-160 | a base set by hand at 10500 and the search from the first window give overlapping ranges |
| SourcePolicyAllocator.AllocateKernelTable | src/bird-source-policy.ts:144-149 | the lowest automatic table that is neither reserved nor used, or none is left |
| SourcePolicyAllocator.NextFreeSlot | src/bird-source-policy.ts:139-142 | the lowest slot not in use, or none is left |
| SourcePolicyAllocator.OldGroupIsContinued | src/bird-source-policy.ts:173-182 | a request continues the last old group with its id, or if its id names none the last one with its address, or it is new |
| SourcePolicyAllocator.ContinuesOneOrNone | src/bird-source-policy.ts:173-182 | a request continues exactly one old group or is new |
| SourcePolicyAllocator.RequestsByIdArePlain | src/bird-source-policy.ts:173-197 | requests by distinct ids of old groups meet the conditions of the allocation law |
| SourcePolicyAllocator.PrepareGroups | src/bird-source-policy.ts:173-197 | a request that continues an old group, by id or else by address, keeps its slot and, unless it names a table, its table; new ones get slots and tables distinct from each other, from kept ones and, for tables, from other resources; it fails only when the automatic tables run out |
| Dependencies.ResolvedCoversIfPossible | src/bird-resource-dependencies.ts:178-182 | a reference is resolved to a provider covering the consumer's nodes exactly when there is one |
| Dependencies.ReferenceHasEdge | src/bird-resource-dependencies.ts:184-203 | every reference that anything provides has the edge to its resolved provider |
| Dependencies.BuildGraph | src/bird-resource-dependencies.ts:209-215 | the cycle check sees exactly the edges between resources that are no Static protocols |
| Dependencies.CycleCheck.Visit | src/bird-resource-dependencies.ts:216-233 | a visit completes the node or answers a slice of the stack that is a real cycle |
| Dependencies.AssertAcyclic | src/bird-resource-dependencies.ts:209-237 | terminates and accepts exactly the graphs without a directed cycle, self-loops included |
| Dependencies.ClosureCheck.Visit | src/bird-resource-dependencies.ts:243-267 | after a visit everything reachable is in order and visited, or the answer is a reachable bad edge |
| Dependencies.ValidateDependencyClosure | src/bird-resource-dependencies.ts:243-267 | accepts exactly when every edge reachable from the root satisfies scope, enabled state and order |
| Dependencies.CycleHasBadEdge | src/bird-resource-dependencies.ts:239-241 | every cycle has an edge out of order, so the cycle check refuses nothing the closure check would accept |
| Dependencies.ValidateResourceDependencyGraph | src/bird-resource-dependencies.ts:269-278 | the whole check accepts exactly when every edge is in order; otherwise it answers a cycle, or an edge out of order when there is no cycle |
| Dependencies.RenderedIsShown | src/bird-render.ts:690-704 | a node's text holds exactly the enabled resources that apply to the node |
| Dependencies.AcceptedIsDeclaredBeforeUse | src/bird-render.ts:758-839 | in every node's text, every direct or indirect provider of a rendered consumer is rendered, and earlier |
| IncludeLexer.RewrittenLexes | agent/bird.go:170-231 | the rewritten text has the tokens of the original, only the replaced paths differ |
| IncludeLexer.NoNewDirective | agent/bird.go:201-230 | rewriting later text never turns an earlier word into an include directive |
| IncludeLexer.RewrittenIncludes | agent/bird.go:164-245 | with a plain replacement, reading the result again gives the list of active includes with the target replaced |
| IncludeLexer.RewriteBack | agent/bird.go:235-245 | rewriting back gives the original text, so nothing outside the replaced paths is touched |
| IncludeLexer.NothingToRewrite | agent/bird.go:232-234 | a text without the target is returned unchanged |
| IncludeLexer.IncludeIsRead | agent/bird.go:195-231 | the keyword, blanks and a quoted path are read as one include of that path |
| IncludeLexer.KeywordIs | agent/bird.go:195-203 | the keyword is exactly the word `include`, not part of a longer word |
| IncludeLexer.ScanToken | agent/bird.go:170-231 | the scanning loops advance by exactly one token of the specification |
| IncludeLexer.FindSpans | agent/bird.go:165-231 | the spans collected are those of the active includes that name the target |
| IncludeLexer.SpliceIsRewrite | agent/bird.go:235-245 | splicing the replacement at the spans is the token-wise rewrite |
| IncludeLexer.ReplaceActiveBirdInclude | agent/bird.go:164-245 | answers the rewritten text, and true exactly when an active include names the target |
| RoutePaging.ParseRouteDetails | src/bird-runtime-parser.ts:117-172 | refuses limits and offsets out of range; of a plain listing it answers the asked routes, the table and whether more follow |
| RoutePaging.RouteIs | src/bird-runtime-parser.ts:150-168 | a route is its header line and, in order, the detail lines up to the next header |
| RoutePaging.TableIs | src/bird-runtime-parser.ts:145-149 | the table is the last one the listing names |
| RoutePaging.ReadingAgrees | src/bird-runtime-parser.ts:134-171 | after any prefix of a listing the parser holds the asked slice of its routes |
| RoutePaging.PageBirdRoutes | agent/bird.go:1193-1222 | the paging loop sends what the specification sends; out-of-range requests send everything |
| RoutePaging.PagedReading | agent/bird.go:1193-1222 | after any prefix the agent's output, read by the parser, holds the asked slice |
| RoutePaging.PageReadsLikeAll | src/bird-runtime-parser.ts:117-172 | paged output read with the same offset and limit gives the routes, details and truncated flag of the full output, and the table when it is named first |
| RoutePaging.PagesReadLikeAllIff | agent/bird.go:1193-1222 | without reply codes, page and full listing read alike for every limit and offset, exactly when there is no header of the other family or it is the only header |
| RoutePaging.ForeignHeaderHidesRoute | agent/bird.go:1204-1217 | such a page: a header of the other family before the only route hides it |
| RoutePaging.CodedHeadersAreNotPaged | src/bird-runtime-parser.ts:146-166 | why paging needs `birdc` to run without reply codes, as the agent runs it (agent/bird.go:371-373): with them before the headers every page would be read as the first |
| RoutePaging.PagesConcatenate | agent/bird.go:1193-1222 | consecutive pages put together are the whole route list |
| RoutePaging.ReadPage | agent/bird.go:1247-1262 | one request answers exactly the asked slice of all routes and whether more follow |
| BlockScanner.InsertionKeepsScan | src/bird-render.ts:68-72 | blanks after newlines never change the scanner's state, in code, quotes, escapes or comments |
| BlockScanner.IndentInserts | src/bird-render.ts:68-72 | splitting, prefixing and joining lines inserts blanks after newlines and nothing else |
| BlockScanner.IndentedLines | src/bird-render.ts:68-72 | each line of the indented block is the line of the source behind the blanks asked for |
| BlockScanner.IndentedIsNeutral | src/bird-source.ts:5-42 | an accepted fragment, indented, brings the scanner back to code at the same depth |
| BlockScanner.WrapperClosesAtItsBrace | src/bird-policy-resources.ts:177-211 | an accepted fragment in a block is closed exactly at that block's brace, whatever follows |
| BlockScanner.ScanTurn | src/bird-source.ts:12-39 | one turn of the cursor loop, with its jumps over comments and escapes, is as many steps of the character scanner |
| BlockScanner.LineEndsConverted | src/bird-source.ts:5-11 | a line end of two characters becomes one, and the rest of the line stays |
| BlockScanner.LoneReturnStays | src/bird-source.ts:5-11 | a carriage return that ends no line stays |
| BlockScanner.NormalizeBirdBlockSource | src/bird-source.ts:5-42 | accepts exactly the bounded sources that close what they open, with the error of the first check that fails |
| BlockScanner.FindDeclarationEnd | src/bird-policy-resources.ts:177-211 | answers the end of the block that opens at the position, or which kind of end is missing |
| BlockScanner.SkipBirdTrivia | src/bird-policy-resources.ts:154-175 | skips exactly the leading blanks and comments, in which the scanner stays in code, or reports one left open |
| BlockScanner.InspectBody | src/bird-policy-resources.ts:225-227 | accepted exactly when the body ends and only trivia follows, with the error of the part that fails; then everything opened from its brace on is closed |
| BlockScanner.WrapAndFind | src/bird-render.ts:193-196 | what one scanner accepts, the other finds closed by the wrapper's brace in any file |
| Redaction.RestoreRedacted | src/inventory-redaction.ts:25-71 | with distinct scalar identities and no credential shown in configuration texts, restoring what was redacted gives the original tree |
| Redaction.RestoredIffRegained | src/inventory-redaction.ts:25-71 | for any old tree: restoring what was redacted gives the original tree exactly when each secret is found in the old item or field it is matched with, and no configuration text shows a credential |
| Redaction.ToldApartFinds | src/inventory-redaction.ts:49-63 | records whose ids differ, or whose areas do, or without ids whose node ids do, are each matched with themselves |
| Redaction.OthersByPosition | src/inventory-redaction.ts:49-63 | a record without id and node id is matched by its position |
| Redaction.RestoreRearranged | src/inventory-redaction.ts:49-63 | in any order, known records get their own secrets back and new ones get no other record's |
| Redaction.RestoreNothing | src/inventory-redaction.ts:43-71 | restoring from nothing changes nothing |
| Redaction.TwinsShareSecret | src/inventory-redaction.ts:49-63 | two records with one identity both come back with the first one's secret |
| Redaction.HiddenTexts | src/inventory-redaction.ts:6-29 | exactly the texts under a secret key, in either case, and the credentials of configuration texts are hidden |
| Redaction.RedactIdempotent | src/inventory-redaction.ts:18-36 | redacting twice is redacting once |
| Redaction.RedactionHidesOnlySecrets | src/inventory-redaction.ts:25-36 | two trees redact alike exactly when they differ only in non-empty secrets and hidden credentials |
| ConfigMask.MaskTwice | src/inventory-redaction.ts:18-23 | a masked text shows as many credentials as before, each of them the placeholder, and masking it again changes nothing |
| ConfigMask.MaskChanges | src/inventory-redaction.ts:18-23 | masking leaves a text alone exactly when every credential it shows is the placeholder |
| ConfigMask.CredentialIsHidden | src/inventory-redaction.ts:18-23 | one of the four keywords in either case, white space and a quoted text: the text is hidden and nothing else, but not behind a letter or digit |
| ConfigMask.StaysOpen | src/inventory-redaction.ts:20-21 | a quotation left open stays open when the credentials after it are masked, whatever is escaped |
| ConfigMask.StaysNoCredential | src/inventory-redaction.ts:20-21 | masking later text never makes a credential of an earlier keyword |
| AuthStore.SoundIsValid | src/auth.ts:259-290 | every state the store writes passes the check on reading |
| AuthStore.OlderRecordsVerify | src/auth.ts:180-191 | a stored record is checked by its own parameters, one without any by the current ones; it is of the current kind exactly with the current ones |
| AuthStore.ReadableIff | src/auth.ts:221-290 | a stored state is read exactly within its bounds and without repeated ids or tokens |
| AuthStore.SessionTextIsClean | src/auth.ts:193-199 | stored addresses and user agents have no control characters, single blanks only and none in front, and are as short as asked |
| AuthStore.CleanTextIsKept | src/auth.ts:193-199 | a text that is so already is stored as it is |
| AuthStore.CommitIsSound | src/auth.ts:390-478 | a prepared setup, login or password change committed at any later time keeps every stored session opened under the stored password |
| AuthStore.WhenCommitted | src/auth.ts:390-478 | a prepared setup takes effect exactly on an empty store, a password change exactly for a signed-in caller against the record seen, a login unless the record changed or 64 sessions are live; what each refusal says |
| AuthStore.LoginSound | src/auth.ts:421-436 | a login that re-hashes the password keeps the plaintext under which the other sessions were opened |
| AuthStore.RemovalIsSound | src/auth.ts:480-546 | signing out and revoking only take sessions away |
| AuthStore.WhenRevoked | src/auth.ts:480-546 | signing out and revoking take effect exactly for a signed-in caller, revoking one session exactly for the id of a live one |
| AuthStore.TokenFindsItsSession | src/auth.ts:296-300 | a live session is found by its token |
| AuthStore.ChangeEndsOtherSessions | src/auth.ts:446-478 | after a password change only the new token signs in, at any later time |
| AuthStore.WhoSignsInAfterLogin | src/auth.ts:429-440 | a login ends no live session: afterwards exactly the earlier tokens sign in, and the new one |
| AuthStore.WhoSignsInAfterLogout | src/auth.ts:480-494 | signing out ends exactly the caller's session |
| AuthStore.WhoSignsInAfterRevoke | src/auth.ts:512-529 | revoking ends exactly the session it names |
| AuthStore.WhoSignsInAfterRevokingOthers | src/auth.ts:531-546 | revoking the others leaves exactly the caller signed in |
| AuthStore.LogoutEndsOneSession | src/auth.ts:480-494 | signing out ends the token's session for good and keeps every other live one |
| AuthStore.Store.BeginLogin | src/auth.ts:414-428 | goes on exactly with the stored password, remembers the record it saw, and prepares a new record only when that is not of the current kind |
| AuthStore.Store.BeginChange | src/auth.ts:446-463 | goes on exactly for a signed-in caller with the right current password and an acceptable new one |
| AuthStore.Store.Commit | src/auth.ts:390-478 | setup only when unconfigured, login and change only against the record seen; at most 64 sessions |
| AuthStore.Store.Logout | src/auth.ts:480-494 | the transaction's effect on the stored state |
| AuthStore.Store.RevokeSession | src/auth.ts:512-529 | the same for one session, refused without a signed-in caller or a live target |
| AuthStore.Store.RevokeOtherSessions | src/auth.ts:531-546 | the same for all but the caller's |
| AuthStore.Store.Run | src/auth.ts:390-546 | in every interleaving each stored session was opened under the stored password, at most 64 are stored, and the state passes its check |
| AuthStore.Store.Login | src/auth.ts:414-444 | a login that succeeds among other requests stored its session under the password then stored; one that does not has stored none |
| OspfInterfaces.CheckEndpoint | src/ospf.ts:511-530 | one endpoint against the first user of its interface: accepted exactly when all pairs still agree |
| OspfInterfaces.CheckLink | src/ospf.ts:501-505 | one link's own checks accept exactly the links that fit, and the error names the first check that fails |
| OspfInterfaces.CheckLinks | src/ospf.ts:497-532 | accepts exactly the links of which any two on an interface agree, with agreeing costs per node pair, though each is compared with the first user only |
| OspfInterfaces.AgreedIff | src/ospf.ts:511-530 | links may share an interface exactly when both ends are multi-point and say the same but for their neighbours |
| OspfInterfaces.InterfaceNameIsPlain | src/ospf.ts:503-504 | an accepted interface name holds nothing that could end or quote it in the configuration |
| OspfInterfaces.RenderBlocks | src/bird-render.ts:529-549 | the grouping loops build one block per interface from its first link |
| OspfInterfaces.GroupByArea | src/bird-render.ts:432-440 | the node's links by area, in order, with areas that have no link |
| OspfInterfaces.BlocksSay | src/bird-render.ts:529-549 | a block's neighbours are the family-filtered union over its interface's links, eligible if any says so |
| OspfInterfaces.ViewsAgree | src/ospf.ts:84-87 | agreement in the domain carries over to what each node renders |
| OspfInterfaces.BlockIsRightForAllLinks | src/bird-render.ts:529-604 | in accepted links, the single block of an interface stands in the right area only and says what each of its links says (NBMA parameters as in appendix C.5 of RFC 2328) |

## Left out

- Listing rules through the JSON output of `ip`: only the text listing is modelled; both feed the same decision.
- Legacy (non-include) mode of staging, applying and rolling back, permissions, file modes and temporary files.
- The reload of BIRD itself, its checks and `birdc`: one step that succeeds or fails and may have loaded the files.
- Crashes inside a node's agent during a deployment: `NodeFiles` models them on the node; `Deployment` sees a node that
  did not change, kept its copies, or applied.
- Deployment hooks other than those for policy rules, reports, events and back-off delays.
- Redaction.RestoreRedacted: the order of the keys of an object is not modelled.
- AgentBroker.Broker.Disconnect: settles tasks before it empties the queue, the program after; nothing runs in between.
- Credentials, heartbeats and batch upgrades of agents; task parameters other than their size.
- NodeFiles.NodeAgent.Undo: when the generated file itself cannot be put back, the program reports failure without
  restoring the snapshot; then only that no other path changed is promised.
- RoutePaging.PageReadsLikeAll: the law is about listings in which agent and parser see the same headers. The agent asks
  for one table at a time and runs `birdc` without reply codes (agent/bird.go:371-373), so it sees no others;
  `PagesReadLikeAllIff`, `ForeignHeaderHidesRoute` and `CodedHeadersAreNotPaged` say why the law needs that.
- OspfInterfaces.RenderBlocks: the order of neighbours within a block, and the text of each directive, are not modelled.
- The choice of resources that refer to each other (`sourceReferences` and the node builders): resources carry their
  references and provided symbols.
- Regular-expression scraping of protocol status, neighbours and counters: lines come tagged.
- `stripBirdComments`, `normalizeDefineValue` and the header patterns of policy declarations.
- Field-by-field option validation of sessions, RPKI, Static and OSPF resources.
- The import of the older authentication file beyond its password, and text formats of ids and hashes.
- HTTP routes, the web interface, SSH, generated shell scripts, MySQL, logging, dashboards and IRR expansion.
