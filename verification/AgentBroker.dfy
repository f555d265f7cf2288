/** The broker between the controller and polling agents (src/agent-broker.ts). */
module AgentBroker {
  import opened Text
  import opened Wrappers

  type NodeId = string
  type TaskId = nat
  type PollId = nat

  /** The method table of src/agent-protocol.ts; `Unknown` is any name outside it. */
  datatype Method =
    | SystemInfo | SystemInterfaces | IpRules | IpRulesInspect | BirdOspf | BirdAccess | BirdInspect | BirdValidate
    | BirdStage | BirdApply | BirdRollback | BirdProtocol | BirdRoutes | BirdProtocolState | LegacyExec | SelfUpgrade
    | Unknown(name: string)
  {
    /** Read-only queries, which give way to everything else. */
    predicate Background() {
      SystemInfo? || SystemInterfaces? || IpRulesInspect? || BirdInspect? || BirdProtocol? || BirdRoutes? || BirdOspf?
      || BirdAccess?
    }
  }

  /** The methods that only read. */
  const QUERIES := {
    SystemInfo, SystemInterfaces, IpRulesInspect, BirdInspect, BirdProtocol, BirdRoutes, BirdOspf, BirdAccess}

  const MAX_TASKS_PER_NODE := 32
  const MAX_BACKGROUND_TASKS_PER_NODE := 8
  const MAX_TASK_PARAMETER_BYTES := 16 * 1024 * 1024
  const LARGE_PAYLOAD_BYTES := 1_900_000

  datatype Task = Task(id: TaskId, node: NodeId, kind: Method, deadline: int) {
    predicate Background() {
      kind.Background()
    }
  }

  datatype DispatchResult = Accepted(id: TaskId) | Rejected(code: string)

  datatype PollResult = Immediate(task: Task) | Waiting(poll: PollId) | Nothing

  // ----- Queues: stable order by the two priorities

  function Keep(queue: seq<Task>, background: bool): (kept: seq<Task>)
    ensures forall t :: t in kept <==> t in queue && t.Background() == background
    ensures |kept| <= |queue|
  {
    if queue == [] then []
    else if queue[0].Background() == background then [queue[0]] + Keep(queue[1..], background)
    else Keep(queue[1..], background)
  }

  /** `sort` by priority: it is stable and there are only two priorities. */
  function StableSort(queue: seq<Task>): (sorted: seq<Task>)
    ensures Sorted(sorted)
    ensures forall t :: t in sorted <==> t in queue
  {
    Keep(queue, false) + Keep(queue, true)
  }

  /** No background task stands before another kind of task. */
  predicate Sorted(queue: seq<Task>) {
    forall i, j :: 0 <= i < j < |queue| ==> queue[i].Background() ==> queue[j].Background()
  }

  lemma {:induction false} StableSortIsPermutation(queue: seq<Task>)
    ensures multiset(StableSort(queue)) == multiset(queue)
  {
    if queue != [] {
      StableSortIsPermutation(queue[1..]);
      assert queue == [queue[0]] + queue[1..];
    }
  }

  /** Sorting an already sorted queue changes nothing. */
  lemma {:induction false} KeepOfSorted(queue: seq<Task>)
    requires Sorted(queue)
    ensures Keep(queue, false) + Keep(queue, true) == queue
  {
    hide Sorted;
    if queue != [] {
      var rest := queue[1..];
      TailIsSorted(queue);
      KeepOfSorted(rest);
      var ordinary, background := Keep(rest, false), Keep(rest, true);
      assert queue == [queue[0]] + rest;
      if queue[0].Background() {
        BackgroundOnly(queue);
        assert ordinary + background == background;
      } else {
        Associates([queue[0]], ordinary, background);
      }
    }
  }

  lemma {:induction false} KeepOfConcat(left: seq<Task>, right: seq<Task>, background: bool)
    ensures Keep(left + right, background) == Keep(left, background) + Keep(right, background)
  {
    if left == [] {
      assert left + right == right;
    } else {
      assert (left + right)[1..] == left[1..] + right;
      KeepOfConcat(left[1..], right, background);
      if left[0].Background() == background {
        Associates([left[0]], Keep(left[1..], background), Keep(right, background));
      }
    }
  }

  /** The task before all others of its priority. */
  function AtHead(queue: seq<Task>, task: Task): seq<Task> {
    if task.Background() then Keep(queue, false) + [task] + Keep(queue, true) else [task] + queue
  }

  /** The task after all others of its priority. */
  function AtEnd(queue: seq<Task>, task: Task): seq<Task> {
    if task.Background() then queue + [task] else Keep(queue, false) + [task] + Keep(queue, true)
  }

  lemma KeepOfOne(task: Task)
    ensures Keep([task], task.Background()) == [task] && Keep([task], !task.Background()) == []
  {
    assert [task][1..] == [];
  }

  /** Sorting a task put in front of a sorted queue leaves it at the head of its priority. */
  lemma SortedAtHead(queue: seq<Task>, task: Task)
    requires Sorted(queue)
    ensures StableSort([task] + queue) == AtHead(queue, task)
  {
    hide Keep, Sorted;
    KeepOfOne(task);
    KeepOfConcat([task], queue, false);
    KeepOfConcat([task], queue, true);
    KeepOfSorted(queue);
    var ordinary, background := Keep(queue, false), Keep(queue, true);
    assert [] + ordinary == ordinary && [] + background == background;
    Associates(ordinary, [task], background);
    Associates([task], ordinary, background);
  }

  /** Sorting a task appended to a sorted queue leaves it at the end of its priority. */
  lemma SortedAtEnd(queue: seq<Task>, task: Task)
    requires Sorted(queue)
    ensures StableSort(queue + [task]) == AtEnd(queue, task)
  {
    hide Keep, Sorted;
    KeepOfOne(task);
    KeepOfConcat(queue, [task], false);
    KeepOfConcat(queue, [task], true);
    KeepOfSorted(queue);
    var ordinary, background := Keep(queue, false), Keep(queue, true);
    assert ordinary + [] == ordinary && background + [] == background;
    Associates(ordinary, background, [task]);
  }

  lemma TailIsSorted(queue: seq<Task>)
    requires Sorted(queue) && queue != []
    ensures Sorted(queue[1..])
  {
    var rest := queue[1..];
    forall i, j | 0 <= i < j < |rest|
      ensures rest[i].Background() ==> rest[j].Background()
    {
      assert rest[i] == queue[i + 1] && rest[j] == queue[j + 1];
    }
  }

  lemma BackgroundOnly(queue: seq<Task>)
    requires Sorted(queue) && queue != [] && queue[0].Background()
    ensures Keep(queue, false) == [] && Keep(queue[1..], false) == []
  {
    forall t | t in queue
      ensures t.Background()
    {
      var j :| 0 <= j < |queue| && queue[j] == t;
      assert j > 0 ==> queue[0].Background() ==> queue[j].Background();
    }
  }

  function Unexpired(queue: seq<Task>, now: int): (kept: seq<Task>)
    ensures forall t :: t in kept <==> t in queue && t.deadline > now
    ensures Sorted(queue) ==> Sorted(kept)
  {
    if queue == [] then []
    else
      var rest := Unexpired(queue[1..], now);
      if queue[0].deadline > now then [queue[0]] + rest else rest
  }

  function Expired(queue: seq<Task>, now: int): set<TaskId> {
    set t | t in queue && t.deadline <= now :: t.id
  }

  /** What is left after the first `count` background tasks were taken out. */
  function Preempted(queue: seq<Task>, count: nat): (kept: seq<Task>)
    ensures forall t :: t in kept ==> t in queue
    ensures forall t :: t in queue && !t.Background() ==> t in kept
    ensures Sorted(queue) ==> Sorted(kept)
  {
    if queue == [] then []
    else if count > 0 && queue[0].Background() then Preempted(queue[1..], count - 1)
    else [queue[0]] + Preempted(queue[1..], count)
  }

  /** The tasks so taken out. */
  function Victims(queue: seq<Task>, count: nat): (victims: seq<Task>)
    ensures forall t :: t in victims ==> t in queue && t.Background()
    ensures |victims| <= count
    ensures forall t :: t in queue ==> t in victims || t in Preempted(queue, count)
  {
    if queue == [] then []
    else if count > 0 && queue[0].Background() then [queue[0]] + Victims(queue[1..], count - 1)
    else Victims(queue[1..], count)
  }

  // ----- Pending tasks of one node

  function QueueOf(queues: map<NodeId, seq<Task>>, n: NodeId): seq<Task> {
    if n in queues then queues[n] else []
  }

  function PollsOf(waiters: map<NodeId, seq<PollId>>, n: NodeId): seq<PollId> {
    if n in waiters then waiters[n] else []
  }

  function PendingFor(pending: map<TaskId, Task>, n: NodeId): set<TaskId> {
    set id | id in pending && pending[id].node == n
  }

  function BackgroundFor(pending: map<TaskId, Task>, n: NodeId): set<TaskId> {
    set id | id in pending && pending[id].node == n && pending[id].Background()
  }

  lemma SubsetSize<T>(small: set<T>, large: set<T>)
    requires small <= large
    ensures |small| <= |large|
  {
    assert |large| == |small| + |large - small| by {
      assert large == small + (large - small);
    }
  }

  predicate WithinAt(pending: map<TaskId, Task>, n: NodeId) {
    |PendingFor(pending, n)| <= 32 && |BackgroundFor(pending, n)| <= 8
  }

  ghost predicate Within(pending: map<TaskId, Task>) {
    forall n :: WithinAt(pending, n)
  }

  lemma FewerIsWithin(pending: map<TaskId, Task>, gone: set<TaskId>)
    requires Within(pending)
    ensures Within(pending - gone)
  {
    forall n: NodeId
      ensures WithinAt(pending - gone, n)
    {
      assert WithinAt(pending, n);
      SubsetSize(PendingFor(pending - gone, n), PendingFor(pending, n));
      SubsetSize(BackgroundFor(pending - gone, n), BackgroundFor(pending, n));
    }
  }

  lemma OneMorePending(pending: map<TaskId, Task>, task: Task, n: NodeId)
    requires task.id !in pending
    ensures
      var after := pending[task.id := task];
      && PendingFor(after, n) == PendingFor(pending, n) + (if n == task.node then {task.id} else {})
      && BackgroundFor(after, n)
         == BackgroundFor(pending, n) + (if n == task.node && task.Background() then {task.id} else {})
      && task.id !in PendingFor(pending, n) && task.id !in BackgroundFor(pending, n)
  {
  }

  lemma OneMoreIsWithin(pending: map<TaskId, Task>, task: Task)
    requires Within(pending) && task.id !in pending
    requires |PendingFor(pending, task.node)| < MAX_TASKS_PER_NODE
    requires task.Background() ==> |BackgroundFor(pending, task.node)| < MAX_BACKGROUND_TASKS_PER_NODE
    ensures Within(pending[task.id := task])
  {
    var after := pending[task.id := task];
    forall n: NodeId
      ensures WithinAt(after, n)
    {
      assert WithinAt(pending, n);
      OneMorePending(pending, task, n);
    }
  }

  // ----- What every operation keeps

  /** Each accepted task is either pending, with its timer armed, or settled, and never both. */
  ghost predicate Conserved(
    pending: map<TaskId, Task>, timers: set<TaskId>, accepted: set<TaskId>, settled: map<TaskId, string>, next: TaskId)
  {
    && pending.Keys !! settled.Keys
    && pending.Keys + settled.Keys == accepted
    && timers == pending.Keys
    && (forall id :: id in accepted ==> id < next)
    && (forall id :: id in pending ==> pending[id].id == id)
  }

  /** The poll the task was last handed to was answered with this very task. */
  predicate WasHanded(task: Task, handed: map<TaskId, PollId>, answered: map<PollId, Option<Task>>) {
    task.id in handed && handed[task.id] in answered && answered[handed[task.id]] == Some(task)
  }

  /** Every pending task waits in its node's queue or was handed to a poll, those aside that are being moved. */
  ghost predicate Located(
    pending: map<TaskId, Task>, queues: map<NodeId, seq<Task>>,
    handed: map<TaskId, PollId>, answered: map<PollId, Option<Task>>, moving: set<TaskId>)
  {
    forall id :: id in pending && id !in moving ==>
      WasHanded(pending[id], handed, answered) || pending[id] in QueueOf(queues, pending[id].node)
  }

  lemma LocatedNew(
    pending: map<TaskId, Task>, queues: map<NodeId, seq<Task>>,
    handed: map<TaskId, PollId>, answered: map<PollId, Option<Task>>, task: Task)
    requires Located(pending, queues, handed, answered, {})
    ensures Located(pending[task.id := task], queues, handed, answered, {task.id})
  {
  }

  lemma LocatedHanded(
    pending: map<TaskId, Task>, queues: map<NodeId, seq<Task>>,
    handed: map<TaskId, PollId>, answered: map<PollId, Option<Task>>, task: Task, poll: PollId)
    requires Located(pending, queues, handed, answered, {task.id}) && poll !in answered
    requires (forall id :: id in pending ==> pending[id].id == id) && (task.id in pending ==> pending[task.id] == task)
    ensures Located(pending, queues, handed[task.id := poll], answered[poll := Some(task)], {})
  {
  }

  lemma LocatedQueued(
    pending: map<TaskId, Task>, queues: map<NodeId, seq<Task>>,
    handed: map<TaskId, PollId>, answered: map<PollId, Option<Task>>, moving: set<TaskId>, task: Task)
    requires Located(pending, queues, handed, answered, moving) && moving <= {task.id}
    requires task.id in pending ==> pending[task.id] == task && task in QueueOf(queues, task.node)
    requires forall id :: id in pending ==> pending[id].id == id
    ensures Located(pending, queues, handed, answered, {}) && Located(pending, queues, handed - {task.id}, answered, {})
  {
  }

  lemma QueuedMore(queues: map<NodeId, seq<Task>>, pending: map<TaskId, Task>, accepted: set<TaskId>, task: Task)
    requires Queued(queues, pending, accepted) && task.id !in accepted
    ensures Queued(queues, pending[task.id := task], accepted + {task.id})
  {
    forall n
      ensures QueuedAt(QueueOf(queues, n), n, pending[task.id := task], accepted + {task.id})
    {
      assert QueuedAt(QueueOf(queues, n), n, pending, accepted);
    }
  }

  ghost predicate QueuedAt(queue: seq<Task>, n: NodeId, pending: map<TaskId, Task>, accepted: set<TaskId>) {
    && Sorted(queue)
    && forall t :: t in queue ==> t.node == n && t.id in accepted && (t.id in pending ==> pending[t.id] == t)
  }

  lemma EnteredAtHead(queue: seq<Task>, pending: map<TaskId, Task>, accepted: set<TaskId>, task: Task)
    requires QueuedAt(queue, task.node, pending, accepted) && task.id in accepted
    requires task.id in pending ==> pending[task.id] == task
    ensures
      var entered := StableSort([task] + queue);
      && QueuedAt(entered, task.node, pending, accepted)
      && entered == AtHead(queue, task) && task in entered && forall t :: t in queue ==> t in entered
  {
    SortedAtHead(queue, task);
  }

  lemma EnteredAtEnd(queue: seq<Task>, pending: map<TaskId, Task>, accepted: set<TaskId>, task: Task)
    requires QueuedAt(queue, task.node, pending, accepted) && task.id in accepted
    requires task.id in pending ==> pending[task.id] == task
    ensures
      var entered := StableSort(queue + [task]);
      && QueuedAt(entered, task.node, pending, accepted)
      && entered == AtEnd(queue, task) && task in entered && forall t :: t in queue ==> t in entered
  {
    SortedAtEnd(queue, task);
  }

  ghost predicate Queued(queues: map<NodeId, seq<Task>>, pending: map<TaskId, Task>, accepted: set<TaskId>) {
    forall n :: QueuedAt(QueueOf(queues, n), n, pending, accepted)
  }

  /** One node's registered polls were opened by it, are unanswered, and are registered once each. */
  ghost predicate PollsAt(
    polls: seq<PollId>, n: NodeId, owner: map<PollId, NodeId>, answered: map<PollId, Option<Task>>) {
    && (forall p :: p in polls ==> p in owner && owner[p] == n && p !in answered)
    && Distinct(polls)
  }

  predicate Distinct(polls: seq<PollId>) {
    forall i, j :: 0 <= i < j < |polls| ==> polls[i] != polls[j]
  }

  lemma DistinctTail(polls: seq<PollId>, i: nat)
    requires Distinct(polls) && i < |polls|
    ensures Distinct(polls[i + 1..]) && polls[i] !in polls[i + 1..]
  {
  }

  ghost predicate Polling(
    waiters: map<NodeId, seq<PollId>>, owner: map<PollId, NodeId>, answered: map<PollId, Option<Task>>, next: PollId)
  {
    && (forall n :: PollsAt(PollsOf(waiters, n), n, owner, answered))
    && answered.Keys <= owner.Keys
    && (forall p :: p in owner && p !in answered ==> owner[p] in waiters && p in waiters[owner[p]])
    && (forall p :: p in owner ==> p < next)
  }

  lemma PollingOpened(
    waiters: map<NodeId, seq<PollId>>, owner: map<PollId, NodeId>, answered: map<PollId, Option<Task>>, next: PollId,
    n: NodeId, answer: Option<Task>)
    requires Polling(waiters, owner, answered, next)
    ensures next !in owner && next !in answered
    ensures Polling(waiters, owner[next := n], answered[next := answer], next + 1)
    ensures Polling(waiters[n := PollsOf(waiters, n) + [next]], owner[next := n], answered, next + 1)
  {
    var more := waiters[n := PollsOf(waiters, n) + [next]];
    forall m
      ensures PollsAt(PollsOf(waiters, m), m, owner[next := n], answered[next := answer])
      ensures PollsAt(PollsOf(more, m), m, owner[next := n], answered)
    {
      assert PollsAt(PollsOf(waiters, m), m, owner, answered);
    }
  }

  /** The settlements after every still pending task among `ids` was dropped with this code. */
  function Dropped(
    settled: map<TaskId, string>, pending: map<TaskId, Task>, ids: set<TaskId>, code: string): map<TaskId, string>
  {
    settled + map id | id in ids && id in pending :: code
  }

  lemma DroppedOneMore(
    settled: map<TaskId, string>, pending: map<TaskId, Task>, ids: set<TaskId>, id: TaskId, code: string)
    ensures Dropped(settled, pending, ids + {id}, code)
         == if id in pending - ids then Dropped(settled, pending, ids, code)[id := code]
            else Dropped(settled, pending, ids, code)
  {
  }

  lemma NothingDropped(settled: map<TaskId, string>, pending: map<TaskId, Task>, code: string)
    ensures Dropped(settled, pending, {}, code) == settled
  {
  }

  lemma DroppedExtends(settled: map<TaskId, string>, pending: map<TaskId, Task>, ids: set<TaskId>, code: string)
    requires pending.Keys !! settled.Keys
    ensures Extends(settled, Dropped(settled, pending, ids, code))
  {
  }

  /** Nothing settled is ever settled again, nor forgotten. */
  ghost predicate Extends<K, V>(before: map<K, V>, after: map<K, V>) {
    forall k :: k in before ==> k in after && after[k] == before[k]
  }

  class Broker {
    var queues: map<NodeId, seq<Task>>
    var waiters: map<NodeId, seq<PollId>>
    var pending: map<TaskId, Task>
    var timers: set<TaskId>
    var nextTask: TaskId
    var nextPoll: PollId
    /** Every task whose promise was handed to a caller. */
    ghost var accepted: set<TaskId>
    /** The code each of those promises was settled with. */
    ghost var settled: map<TaskId, string>
    /** The poll each task was given to, until it is reported undelivered. */
    ghost var handed: map<TaskId, PollId>
    /** The task an operation is just moving; none between operations. */
    ghost var moving: set<TaskId>
    /** The node each poll was opened for. */
    ghost var owner: map<PollId, NodeId>
    /** What each finished poll was answered. */
    ghost var answered: map<PollId, Option<Task>>

    ghost predicate Valid()
      reads this
    {
      InOrder() && moving == {}
    }

    ghost predicate InOrder()
      reads this
    {
      && Conserved(pending, timers, accepted, settled, nextTask)
      && Located(pending, queues, handed, answered, moving)
      && Queued(queues, pending, accepted)
      && Within(pending)
      && Polling(waiters, owner, answered, nextPoll)
    }

    constructor ()
      ensures Valid() && accepted == {} && answered == map[]
    {
      queues, waiters, pending, timers, nextTask, nextPoll := map[], map[], map[], {}, 0, 0;
      accepted, settled, handed, moving, owner, answered := {}, map[], map[], {}, map[], map[];
      new;
      assert forall n :: PendingFor(pending, n) == {} && BackgroundFor(pending, n) == {};
    }

    /** Takes the task out of `#pending`, disarms its timer and settles its promise. */
    method Settle(id: TaskId, code: string)
      requires Valid() && id in pending
      modifies this`pending, this`timers, this`settled
      ensures Valid()
      ensures pending == old(pending) - {id} && id !in old(settled) && settled == old(settled)[id := code]
    {
      hide Within, Polling, Sorted, WasHanded;
      FewerIsWithin(pending, {id});
      pending := pending - {id};
      timers := timers - {id};
      settled := settled[id := code];
    }

    /** One more task of a batch that started from `pending0` and `settled0` and has dropped `gone` so far. */
    method ResolveDroppedTask(
      id: TaskId, code: string,
      ghost pending0: map<TaskId, Task>, ghost settled0: map<TaskId, string>, ghost gone: set<TaskId>)
      requires Valid()
      requires pending == pending0 - gone && settled == Dropped(settled0, pending0, gone, code)
      modifies this`pending, this`timers, this`settled
      ensures Valid()
      ensures pending == pending0 - (gone + {id}) && settled == Dropped(settled0, pending0, gone + {id}, code)
    {
      DroppedOneMore(settled0, pending0, gone, id, code);
      if id in pending {
        Settle(id, code);
      }
    }

    /** Replaces a node's queue, deleting the entry when nothing is left. */
    method PutQueue(n: NodeId, queue: seq<Task>)
      requires InOrder()
      requires QueuedAt(queue, n, pending, accepted)
      requires forall t :: t in QueueOf(queues, n) && t.id in pending && t.id !in moving ==> t in queue
      modifies this`queues
      ensures InOrder()
      ensures QueueOf(queues, n) == queue
      ensures forall m :: m != n ==> QueueOf(queues, m) == QueueOf(old(queues), m)
    {
      if queue == [] {
        queues := queues - {n};
      } else {
        queues := queues[n := queue];
      }
      forall m
        ensures QueuedAt(QueueOf(queues, m), m, pending, accepted)
      {
        assert QueuedAt(QueueOf(old(queues), m), m, pending, accepted);
      }
    }

    /** Drops the expired tasks of one queue. */
    method PruneQueue(n: NodeId, now: int)
      requires Valid()
      modifies this`queues, this`pending, this`timers, this`settled
      ensures Valid()
      ensures QueueOf(queues, n) == Unexpired(QueueOf(old(queues), n), now)
      ensures forall m :: m != n ==> QueueOf(queues, m) == QueueOf(old(queues), m)
      ensures
        var expired := Expired(QueueOf(old(queues), n), now);
        pending == old(pending) - expired && settled == Dropped(old(settled), old(pending), expired, "TASK_EXPIRED")
    {
      var queue := QueueOf(queues, n);
      assert QueuedAt(queue, n, pending, accepted);
      var retained := DropExpired(queue, now);
      PutQueue(n, retained);
    }

    method DropExpired(queue: seq<Task>, now: int) returns (retained: seq<Task>)
      requires Valid()
      modifies this`pending, this`timers, this`settled
      ensures Valid() && retained == Unexpired(queue, now)
      ensures pending == old(pending) - Expired(queue, now)
      ensures settled == Dropped(old(settled), old(pending), Expired(queue, now), "TASK_EXPIRED")
    {
      hide Unexpired, Expired, Dropped, Conserved, Located, Queued, Within, Polling;
      retained := [];
      assert queue[..0] == [] && queue[..|queue|] == queue;
      ghost var gone: set<TaskId> := {};
      NothingExpires(now);
      NothingDropped(settled, pending, "TASK_EXPIRED");
      for i := 0 to |queue|
        invariant Valid()
        invariant retained == Unexpired(queue[..i], now) && gone == Expired(queue[..i], now)
        invariant pending == old(pending) - gone && settled == Dropped(old(settled), old(pending), gone, "TASK_EXPIRED")
      {
        UnexpiredStep(queue, i, now);
        if queue[i].deadline <= now {
          ResolveDroppedTask(queue[i].id, "TASK_EXPIRED", old(pending), old(settled), gone);
          gone := gone + {queue[i].id};
        } else {
          retained := retained + [queue[i]];
        }
      }
    }

    /** Takes up to `count` background tasks out of one queue, first ones first. */
    method DropBackgroundTasks(n: NodeId, count: nat) returns (dropped: nat)
      requires Valid()
      modifies this`queues, this`pending, this`timers, this`settled
      ensures Valid()
      ensures QueueOf(queues, n) == Preempted(QueueOf(old(queues), n), count)
      ensures forall m :: m != n ==> QueueOf(queues, m) == QueueOf(old(queues), m)
      ensures dropped == |Victims(QueueOf(old(queues), n), count)|
      ensures
        var victims := Ids(Victims(QueueOf(old(queues), n), count));
        pending == old(pending) - victims && settled == Dropped(old(settled), old(pending), victims, "TASK_PREEMPTED")
    {
      var queue := QueueOf(queues, n);
      assert QueuedAt(queue, n, pending, accepted);
      var retained;
      retained, dropped := DropVictims(queue, count);
      PutQueue(n, retained);
    }

    method DropVictims(queue: seq<Task>, count: nat) returns (retained: seq<Task>, dropped: nat)
      requires Valid()
      modifies this`pending, this`timers, this`settled
      ensures Valid() && retained == Preempted(queue, count) && dropped == |Victims(queue, count)|
      ensures pending == old(pending) - Ids(Victims(queue, count))
      ensures settled == Dropped(old(settled), old(pending), Ids(Victims(queue, count)), "TASK_PREEMPTED")
    {
      NothingTaken(count);
      hide Preempted, Victims, Ids, Dropped, Conserved, Located, Queued, Within, Polling;
      retained, dropped := [], 0;
      ghost var victims: seq<Task> := [];
      assert queue[..0] == [] && queue[..|queue|] == queue;
      NothingDropped(settled, pending, "TASK_PREEMPTED");
      for i := 0 to |queue|
        invariant Valid()
        invariant retained == Preempted(queue[..i], count) && victims == Victims(queue[..i], count)
        invariant dropped == |victims|
        invariant pending == old(pending) - Ids(victims)
        invariant settled == Dropped(old(settled), old(pending), Ids(victims), "TASK_PREEMPTED")
      {
        PreemptAt(queue, i, count);
        if dropped < count && queue[i].Background() {
          ResolveDroppedTask(queue[i].id, "TASK_PREEMPTED", old(pending), old(settled), Ids(victims));
          IdsOfMore(victims, queue[i]);
          dropped, victims := dropped + 1, victims + [queue[i]];
        } else {
          retained := retained + [queue[i]];
        }
      }
    }

    /** Takes the head of the queue, expired tasks aside. */
    method TakeTask(n: NodeId, now: int) returns (task: Option<Task>)
      requires Valid()
      modifies this`queues, this`pending, this`timers, this`settled, this`moving
      ensures InOrder() && moving == if task.Some? then {task.value.id} else {}
      ensures
        var expired, live := Expired(QueueOf(old(queues), n), now), Unexpired(QueueOf(old(queues), n), now);
        && pending == old(pending) - expired
        && settled == Dropped(old(settled), old(pending), expired, "TASK_EXPIRED")
        && (live == [] ==> task == None && QueueOf(queues, n) == [])
        && (live != [] ==> task == Some(live[0]) && QueueOf(queues, n) == live[1..])
      ensures forall m :: m != n ==> QueueOf(queues, m) == QueueOf(old(queues), m)
    {
      PruneQueue(n, now);
      var queue := QueueOf(queues, n);
      if queue == [] {
        return None;
      }
      task := Some(queue[0]);
      moving := {queue[0].id};
      TailIsQueued(queue, n, pending, accepted);
      PutQueue(n, queue[1..]);
    }

    /** A new poll, registered to wait unless it is answered at once. */
    method OpenPoll(n: NodeId, answer: Option<Task>) returns (poll: PollId)
      requires InOrder() && moving == if answer.Some? then {answer.value.id} else {}
      requires answer.Some? && answer.value.id in pending ==> pending[answer.value.id] == answer.value
      modifies this`nextPoll, this`waiters, this`owner, this`answered, this`handed, this`moving
      ensures Valid() && poll == old(nextPoll) && poll !in old(answered)
      ensures
        if answer.Some? then answered == old(answered)[poll := answer] && waiters == old(waiters)
        else answered == old(answered) && waiters == old(waiters)[n := PollsOf(old(waiters), n) + [poll]]
    {
      hide Located, Queued, Within, Polling;
      poll := nextPoll;
      PollingOpened(waiters, owner, answered, nextPoll, n, answer);
      nextPoll := nextPoll + 1;
      owner := owner[poll := n];
      if answer.Some? {
        LocatedHanded(pending, queues, handed, answered, answer.value, poll);
        answered := answered[poll := answer];
        handed := handed[answer.value.id := poll];
        moving := {};
      } else {
        waiters := waiters[n := PollsOf(waiters, n) + [poll]];
      }
    }

    /** A poll takes a task at once or is registered to wait. */
    method Poll(n: NodeId, authenticated: bool, aborted: bool, now: int) returns (r: PollResult)
      requires Valid()
      modifies this
      ensures Valid() && accepted == old(accepted) && Extends(old(settled), settled) && Extends(old(answered), answered)
      ensures !authenticated || aborted ==> r == Nothing && pending == old(pending) && queues == old(queues)
      ensures authenticated && !aborted ==>
        var live := Unexpired(QueueOf(old(queues), n), now);
        if live != [] then
          && r == Immediate(live[0]) && QueueOf(queues, n) == live[1..]
          && answered == old(answered)[old(nextPoll) := Some(live[0])] && waiters == old(waiters)
        else
          && r == Waiting(old(nextPoll)) && answered == old(answered)
          && waiters == old(waiters)[n := PollsOf(old(waiters), n) + [old(nextPoll)]]
    {
      if !authenticated || aborted {
        return Nothing;
      }
      DroppedExtends(settled, pending, Expired(QueueOf(queues, n), now), "TASK_EXPIRED");
      var task := TakeTask(n, now);
      var poll := OpenPoll(n, task);
      r := if task.Some? then Immediate(task.value) else Waiting(poll);
    }

    /** Takes a poll off its node's list and answers it. */
    method Answer(n: NodeId, polls: seq<PollId>, poll: PollId, answer: Option<Task>)
      requires InOrder()
      requires poll in PollsOf(waiters, n) && poll !in polls
      requires forall p :: p in polls || p == poll <==> p in PollsOf(waiters, n)
      requires Distinct(polls)
      modifies this`waiters, this`answered
      ensures InOrder()
      ensures poll !in old(answered) && answered == old(answered)[poll := answer]
      ensures PollsOf(waiters, n) == polls
      ensures forall m :: m != n ==> PollsOf(waiters, m) == PollsOf(old(waiters), m)
    {
      assert PollsAt(PollsOf(waiters, n), n, owner, answered);
      answered := answered[poll := answer];
      waiters := if polls == [] then waiters - {n} else waiters[n := polls];
      forall m
        ensures PollsAt(PollsOf(waiters, m), m, owner, answered)
      {
        assert PollsAt(PollsOf(old(waiters), m), m, owner, old(answered));
      }
    }

    /** The poll's time-out or its closed connection; a poll answered meanwhile is left alone. */
    method PollEnds(n: NodeId, poll: PollId)
      requires Valid()
      modifies this`waiters, this`answered
      ensures Valid()
      ensures poll !in PollsOf(waiters, n)
      ensures answered == if poll in PollsOf(old(waiters), n) then old(answered)[poll := None] else old(answered)
      ensures Extends(old(answered), answered)
    {
      var polls := PollsOf(waiters, n);
      assert PollsAt(polls, n, owner, answered);
      if poll in polls {
        var index :| 0 <= index < |polls| && polls[index] == poll;
        var rest := polls[..index] + polls[index + 1..];
        Answer(n, rest, poll, None);
      }
    }

    /** A task whose delivery failed goes back to the head of its priority. */
    method Requeue(task: Task)
      requires Valid()
      requires task.id in pending ==> pending[task.id] == task
      modifies this`queues, this`handed
      ensures Valid()
      ensures if task.id in pending then
          && QueueOf(queues, task.node) == AtHead(QueueOf(old(queues), task.node), task)
          && task in QueueOf(queues, task.node)
          && handed == old(handed) - {task.id}
        else queues == old(queues) && handed == old(handed)
    {
      hide Located, Within, Polling, AtHead, StableSort, Sorted, Keep;
      if task.id !in pending {
        return;
      }
      var queue := QueueOf(queues, task.node);
      assert QueuedAt(queue, task.node, pending, accepted);
      assert forall id :: id in pending ==> pending[id].id == id;
      EnteredAtHead(queue, pending, accepted, task);
      hide Conserved, Queued, QueuedAt;
      PutQueue(task.node, StableSort([task] + queue));
      LocatedQueued(pending, queues, handed, answered, moving, task);
      handed := handed - {task.id};
    }

    /** Prunes the queue and, for a task that is no mere query, preempts queries of a full node. */
    method MakeRoom(n: NodeId, kind: Method, now: int) returns (code: Option<string>)
      requires Valid()
      modifies this`queues, this`pending, this`timers, this`settled
      ensures Valid() && Extends(old(settled), settled)
      ensures pending == Roomed(QueueOf(old(queues), n), old(pending), n, kind, now)
      ensures QueueOf(queues, n) == RoomedQueue(QueueOf(old(queues), n), old(pending), n, kind, now)
      ensures forall m :: m != n ==> QueueOf(queues, m) == QueueOf(old(queues), m)
      ensures
        var full := Full(Pruned(QueueOf(old(queues), n), old(pending), now), n);
        forall id :: id in old(pending) && id !in pending ==>
          id in settled && LostBy(old(pending)[id], settled[id], n, kind, full, now)
      ensures code.None? ==> !Full(pending, n)
      ensures code.None? && kind.Background() ==> |BackgroundFor(pending, n)| < MAX_BACKGROUND_TASKS_PER_NODE
      ensures code.Some? ==> NoRoom(code.value, kind, n, pending)
    {
      hide Conserved, Located, Queued, Within, Polling, PendingFor, BackgroundFor;
      hide Expired, Unexpired, Victims, Preempted, Ids;
      Prune(n, now);
      NoneTaken(QueueOf(queues, n), pending);
      if kind.Background() && |BackgroundFor(pending, n)| >= MAX_BACKGROUND_TASKS_PER_NODE {
        return Some("TASK_DEDUPED");
      }
      if |PendingFor(pending, n)| >= MAX_TASKS_PER_NODE && !kind.Background() {
        Preempt(n, |PendingFor(pending, n)| - MAX_TASKS_PER_NODE + 1);
      }
      code := if |PendingFor(pending, n)| >= MAX_TASKS_PER_NODE then Some("TASK_QUEUE_FULL") else None;
    }

    /** Pruning settles nothing but expired tasks of the node. */
    method Prune(n: NodeId, now: int)
      requires Valid()
      modifies this`queues, this`pending, this`timers, this`settled
      ensures Valid() && Extends(old(settled), settled)
      ensures pending == Pruned(QueueOf(old(queues), n), old(pending), now)
      ensures QueueOf(queues, n) == Unexpired(QueueOf(old(queues), n), now)
      ensures forall m :: m != n ==> QueueOf(queues, m) == QueueOf(old(queues), m)
      ensures forall id :: id in old(pending) && id !in pending ==>
        && id in settled && settled[id] == "TASK_EXPIRED"
        && old(pending)[id].node == n && old(pending)[id].deadline <= now
    {
      var queue := QueueOf(queues, n);
      assert QueuedAt(queue, n, pending, accepted);
      DroppedExtends(settled, pending, Expired(queue, now), "TASK_EXPIRED");
      PruneQueue(n, now);
    }

    /** Preemption settles nothing but queries of the node, and no more than it is told to. */
    method Preempt(n: NodeId, count: nat)
      requires Valid()
      modifies this`queues, this`pending, this`timers, this`settled
      ensures Valid() && Extends(old(settled), settled)
      ensures pending == old(pending) - Ids(Victims(QueueOf(old(queues), n), count))
      ensures QueueOf(queues, n) == Preempted(QueueOf(old(queues), n), count)
      ensures forall m :: m != n ==> QueueOf(queues, m) == QueueOf(old(queues), m)
      ensures forall id :: id in old(pending) && id !in pending ==>
        && id in settled && settled[id] == "TASK_PREEMPTED"
        && old(pending)[id].node == n && old(pending)[id].Background()
    {
      var queue := QueueOf(queues, n);
      assert QueuedAt(queue, n, pending, accepted);
      DroppedExtends(settled, pending, Ids(Victims(queue, count)), "TASK_PREEMPTED");
      var dropped := DropBackgroundTasks(n, count);
    }

    /** A new promise with its timer; the task still has to be placed. */
    method Register(n: NodeId, kind: Method, deadline: int) returns (task: Task)
      requires Valid()
      requires !Full(pending, n)
      requires kind.Background() ==> |BackgroundFor(pending, n)| < MAX_BACKGROUND_TASKS_PER_NODE
      modifies this`nextTask, this`pending, this`timers, this`accepted, this`moving
      ensures InOrder() && moving == {task.id}
      ensures task == Task(old(nextTask), n, kind, deadline)
      ensures task.id !in old(accepted) && accepted == old(accepted) + {task.id}
      ensures pending == old(pending)[task.id := task]
    {
      hide Polling, Within, PendingFor, BackgroundFor, Located, Queued;
      task := Task(nextTask, n, kind, deadline);
      assert task.id !in accepted;
      nextTask := nextTask + 1;
      OneMoreIsWithin(pending, task);
      LocatedNew(pending, queues, handed, answered, task);
      QueuedMore(queues, pending, accepted, task);
      pending := pending[task.id := task];
      timers := timers + {task.id};
      accepted := accepted + {task.id};
      moving := {task.id};
    }

    /** Passes a new task to the longest-waiting poll, or else queues it. */
    method Place(task: Task)
      requires InOrder() && moving == {task.id} && task.id in pending && pending[task.id] == task
      modifies this`queues, this`waiters, this`handed, this`answered, this`moving
      ensures Valid()
      ensures
        var n, polls := task.node, PollsOf(old(waiters), task.node);
        if polls == [] then
          && QueueOf(queues, n) == AtEnd(QueueOf(old(queues), n), task) && task in QueueOf(queues, n)
          && answered == old(answered)
        else
          && queues == old(queues)
          && polls[0] !in old(answered) && answered == old(answered)[polls[0] := Some(task)]
          && PollsOf(waiters, n) == polls[1..]
    {
      var n, queue, polls := task.node, QueueOf(queues, task.node), PollsOf(waiters, task.node);
      if polls != [] {
        assert PollsAt(polls, n, owner, answered);
        DistinctTail(polls, 0);
        hide Located, Queued, Within, Polling;
        LocatedHanded(pending, queues, handed, answered, task, polls[0]);
        Answer(n, polls[1..], polls[0], Some(task));
        handed := handed[task.id := polls[0]];
      } else {
        assert QueuedAt(queue, n, pending, accepted);
        EnteredAtEnd(queue, pending, accepted, task);
        hide Located, Queued, QueuedAt, Within, Polling, AtEnd, StableSort, Sorted;
        PutQueue(n, StableSort(queue + [task]));
        LocatedQueued(pending, queues, handed, answered, moving, task);
      }
      moving := {};
    }

    /** Offers a task. A refusal leaves no promise behind; an accepted task is pending until it is settled. */
    method Dispatch(n: NodeId, kind: Method, offer: Offer, now: int) returns (r: DispatchResult)
      requires Valid()
      modifies this
      ensures Valid() && Extends(old(settled), settled) && Extends(old(answered), answered)
      ensures Refusal(kind, offer).Some? ==>
        && r == Rejected(Refusal(kind, offer).value) && accepted == old(accepted)
        && pending == old(pending) && queues == old(queues)
      ensures r.Rejected? ==> accepted == old(accepted) && answered == old(answered)
      ensures r.Rejected? && Refusal(kind, offer).None? ==> NoRoom(r.code, kind, n, pending)
      ensures r.Accepted? ==>
        && r.id !in old(accepted) && accepted == old(accepted) + {r.id}
        && r.id in pending && pending[r.id] == Task(r.id, n, kind, now + offer.timeoutMs)
        && (PollsOf(old(waiters), n) != [] ==>
             PollsOf(old(waiters), n)[0] in answered
             && answered[PollsOf(old(waiters), n)[0]] == Some(pending[r.id]))
        && (PollsOf(old(waiters), n) == [] ==> pending[r.id] in QueueOf(queues, n) && answered == old(answered))
      ensures Refusal(kind, offer).None? ==>
        var room := Roomed(QueueOf(old(queues), n), old(pending), n, kind, now);
        pending == if r.Accepted? then room[r.id := Task(r.id, n, kind, now + offer.timeoutMs)] else room
      ensures
        var full := Full(Pruned(QueueOf(old(queues), n), old(pending), now), n);
        forall id :: id in old(pending) && id !in pending ==>
          id in settled && LostBy(old(pending)[id], settled[id], n, kind, full, now)
    {
      hide Conserved, Located, Queued, Within, Polling, LostBy, NoRoom, PendingFor, BackgroundFor, AtEnd, Refusal;
      hide Roomed, RoomedQueue, Full, Pruned;
      if Refusal(kind, offer).Some? {
        return Rejected(Refusal(kind, offer).value);
      }
      var code := MakeRoom(n, kind, now);
      if code.Some? {
        return Rejected(code.value);
      }
      var task := Register(n, kind, now + offer.timeoutMs);
      Place(task);
      r := Accepted(task.id);
    }

    /** A task's timer fires. Only armed timers do: settling a task disarms its own. */
    method TimerFires(id: TaskId)
      requires Valid() && id in timers
      modifies this`pending, this`timers, this`settled
      ensures Valid() && pending == old(pending) - {id}
      ensures id !in old(settled) && settled == old(settled)[id := "AGENT_TIMEOUT"]
    {
      Settle(id, "AGENT_TIMEOUT");
    }

    /** An agent reports a result; reports for other nodes' tasks, or for settled ones, change nothing. */
    method Result(n: NodeId, id: TaskId, authenticated: bool, code: string)
      requires Valid()
      modifies this`pending, this`timers, this`settled
      ensures Valid()
      ensures if authenticated && id in old(pending) && old(pending)[id].node == n
        then pending == old(pending) - {id} && id !in old(settled) && settled == old(settled)[id := code]
        else pending == old(pending) && settled == old(settled)
    {
      if authenticated && id in pending && pending[id].node == n {
        Settle(id, code);
      }
    }

    /** The node's credential changed: its polls are answered with nothing and its tasks are settled. */
    method Disconnect(n: NodeId)
      requires Valid()
      modifies this`queues, this`waiters, this`pending, this`timers, this`settled, this`answered
      ensures Valid() && Extends(old(answered), answered)
      ensures QueueOf(queues, n) == [] && PollsOf(waiters, n) == [] && PendingFor(pending, n) == {}
      ensures pending == old(pending) - PendingFor(old(pending), n)
      ensures settled == Dropped(old(settled), old(pending), PendingFor(old(pending), n), "AGENT_CREDENTIAL_CHANGED")
      ensures forall p :: p in PollsOf(old(waiters), n) ==> p in answered && answered[p] == None
    {
      AnswerAll(n);
      SettleAll(n);
      assert QueuedAt(QueueOf(queues, n), n, pending, accepted);
      assert PendingFor(pending, n) == {};
      PutQueue(n, []);
    }

    method SettleAll(n: NodeId)
      requires Valid()
      modifies this`pending, this`timers, this`settled
      ensures Valid()
      ensures pending == old(pending) - PendingFor(old(pending), n)
      ensures settled == Dropped(old(settled), old(pending), PendingFor(old(pending), n), "AGENT_CREDENTIAL_CHANGED")
    {
      var left: set<TaskId> := PendingFor(pending, n);
      ghost var gone: set<TaskId> := {};
      NothingDropped(settled, pending, "AGENT_CREDENTIAL_CHANGED");
      while left != {}
        invariant Valid()
        invariant left + gone == PendingFor(old(pending), n)
        invariant pending == old(pending) - gone
        invariant settled == Dropped(old(settled), old(pending), gone, "AGENT_CREDENTIAL_CHANGED")
      {
        var id :| id in left;
        ResolveDroppedTask(id, "AGENT_CREDENTIAL_CHANGED", old(pending), old(settled), gone);
        left, gone := left - {id}, gone + {id};
      }
      assert gone == PendingFor(old(pending), n);
    }

    method AnswerAll(n: NodeId)
      requires Valid()
      modifies this`waiters, this`answered
      ensures Valid() && Extends(old(answered), answered)
      ensures PollsOf(waiters, n) == []
      ensures forall p :: p in PollsOf(old(waiters), n) ==> p in answered && answered[p] == None
    {
      var polls := PollsOf(waiters, n);
      assert PollsAt(polls, n, owner, answered);
      assert polls[0..] == polls;
      for i := 0 to |polls|
        invariant Valid() && PollsOf(waiters, n) == polls[i..]
        invariant Extends(old(answered), answered)
        invariant forall k :: 0 <= k < i ==> polls[k] in answered && answered[polls[k]] == None
      {
        DistinctTail(polls, i);
        assert polls[i] == polls[i..][0];
        Answer(n, polls[i + 1..], polls[i], None);
      }
    }

    /** One event. Undelivered tasks are ones the broker handed out, and only armed timers fire. */
    method Step(e: Event)
      requires Valid()
      modifies this
      ensures Valid() && old(accepted) <= accepted
      ensures Extends(old(settled), settled) && Extends(old(answered), answered)
      ensures
        match e
        case OnDispatch(_, _, _, _) => true
        case OnPoll(_, _, _, _) => accepted == old(accepted)
        case OnPollEnd(n, poll) => poll !in PollsOf(waiters, n)
        case OnUndelivered(task) =>
          task.id in old(pending) && old(pending)[task.id] == task ==> task in QueueOf(queues, task.node)
        case OnResult(n, id, authenticated, _) =>
          authenticated && id in old(pending) && old(pending)[id].node == n ==> id !in pending
        case OnTimer(id) => id !in timers
        case OnDisconnect(n) => PendingFor(pending, n) == {} && PollsOf(waiters, n) == []
    {
      hide Located, Queued, Within, Polling, Roomed, Refusal, LostBy, NoRoom, Unexpired, AtHead, AtEnd;
      match e
      case OnDispatch(n, kind, offer, now) => var _ := Dispatch(n, kind, offer, now);
      case OnPoll(n, authenticated, aborted, now) => var _ := Poll(n, authenticated, aborted, now);
      case OnPollEnd(n, poll) => PollEnds(n, poll);
      case OnUndelivered(task) => if task.id in pending && pending[task.id] == task { Requeue(task); }
      case OnResult(n, id, authenticated, code) => Result(n, id, authenticated, code);
      case OnTimer(id) => if id in timers { TimerFires(id); }
      case OnDisconnect(n) =>
        DroppedExtends(settled, pending, PendingFor(pending, n), "AGENT_CREDENTIAL_CHANGED");
        Disconnect(n);
    }

    /**
     * Over any history, every accepted task is either settled, with a code that never changes, or pending; and a
     * pending one waits in its queue or is what some poll was answered with. No poll is lost: each is answered or
     * still registered for its node.
     */
    method Run(events: seq<Event>)
      requires Valid()
      modifies this
      ensures Valid() && old(accepted) <= accepted
      ensures Extends(old(settled), settled) && Extends(old(answered), answered)
      ensures forall id :: id in accepted ==> (id in pending <==> id !in settled)
      ensures forall n :: WithinAt(pending, n)
      ensures forall id :: id in pending && pending[id] !in QueueOf(queues, pending[id].node) ==>
        exists p :: p in answered && answered[p] == Some(pending[id])
      ensures forall p :: p in owner && p !in answered ==> owner[p] in waiters && p in waiters[owner[p]]
    {
      hide Queued;
      for i := 0 to |events|
        invariant Valid() && old(accepted) <= accepted
        invariant Extends(old(settled), settled) && Extends(old(answered), answered)
      {
        Step(events[i]);
      }
    }
  }

  datatype Event =
    | OnDispatch(n: NodeId, kind: Method, offer: Offer, now: int)
    | OnPoll(n: NodeId, authenticated: bool, aborted: bool, now: int)
    | OnPollEnd(n: NodeId, poll: PollId)
    | OnUndelivered(task: Task)
    | OnResult(n: NodeId, id: TaskId, authenticated: bool, code: string)
    | OnTimer(id: TaskId)
    | OnDisconnect(n: NodeId)

  /** The caller's side of a dispatch: parameter size, agent state and time-out. */
  datatype Offer = Offer(
    connected: bool, serializable: bool, bytes: nat, lacksLargePayload: bool, timeoutMs: int)

  const REFUSALS := {
    "METHOD_NOT_ALLOWED", "AGENT_OFFLINE", "INVALID_TASK", "TASK_TOO_LARGE", "AGENT_UPGRADE_REQUIRED",
      "INVALID_TIMEOUT"}

  /** The checks made before anything changes, in order. */
  function Refusal(kind: Method, offer: Offer): (code: Option<string>)
    ensures code.None? <==>
      && !kind.Unknown? && offer.serializable && offer.bytes <= 16_777_216 && 250 <= offer.timeoutMs <= 600_000
      && (offer.lacksLargePayload ==> offer.bytes <= 1_900_000)
      && (offer.connected || kind !in QUERIES)
    ensures code == Some("METHOD_NOT_ALLOWED") <==> kind.Unknown?
    ensures code == Some("AGENT_OFFLINE") <==> kind in QUERIES && !offer.connected
    ensures code == Some("INVALID_TASK") ==> !offer.serializable
    ensures code == Some("TASK_TOO_LARGE") ==> offer.bytes > 16_777_216
    ensures code == Some("AGENT_UPGRADE_REQUIRED") ==> offer.lacksLargePayload && 1_900_000 < offer.bytes <= 16_777_216
    ensures code == Some("INVALID_TIMEOUT") ==> offer.timeoutMs < 250 || offer.timeoutMs > 600_000
    ensures code.Some? ==> code.value in REFUSALS
  {
    if kind.Unknown? then Some("METHOD_NOT_ALLOWED")
    else if kind.Background() && !offer.connected then Some("AGENT_OFFLINE")
    else if !offer.serializable then Some("INVALID_TASK")
    else if offer.bytes > MAX_TASK_PARAMETER_BYTES then Some("TASK_TOO_LARGE")
    else if offer.bytes > LARGE_PAYLOAD_BYTES && offer.lacksLargePayload then Some("AGENT_UPGRADE_REQUIRED")
    else if offer.timeoutMs < 250 || offer.timeoutMs > 10 * 60 * 1000 then Some("INVALID_TIMEOUT")
    else None
  }

  /** The only two reasons to refuse a task that passed those checks. */
  predicate NoRoom(code: string, kind: Method, n: NodeId, pending: map<TaskId, Task>) {
    || (code == "TASK_DEDUPED" && kind.Background() && |BackgroundFor(pending, n)| >= MAX_BACKGROUND_TASKS_PER_NODE)
    || (code == "TASK_QUEUE_FULL" && |PendingFor(pending, n)| >= MAX_TASKS_PER_NODE)
  }

  /** The node has as many pending tasks as it may have. */
  predicate Full(pending: map<TaskId, Task>, n: NodeId) {
    |PendingFor(pending, n)| >= MAX_TASKS_PER_NODE
  }

  /** What is pending once the queue's expired tasks are settled. */
  function Pruned(queue: seq<Task>, pending: map<TaskId, Task>, now: int): map<TaskId, Task> {
    pending - Expired(queue, now)
  }

  /** How many tasks have to go for one of this kind: queries never make others go. */
  function Excess(pending: map<TaskId, Task>, n: NodeId, kind: Method): nat {
    if Full(pending, n) && !kind.Background() then |PendingFor(pending, n)| - MAX_TASKS_PER_NODE + 1 else 0
  }

  /** What is pending once room was made: of the tasks that have not expired, just so many queries are gone. */
  function Roomed(
    queue: seq<Task>, pending: map<TaskId, Task>, n: NodeId, kind: Method, now: int): map<TaskId, Task>
  {
    var pruned := Pruned(queue, pending, now);
    pruned - Ids(Victims(Unexpired(queue, now), Excess(pruned, n, kind)))
  }

  function RoomedQueue(
    queue: seq<Task>, pending: map<TaskId, Task>, n: NodeId, kind: Method, now: int): seq<Task>
  {
    Preempted(Unexpired(queue, now), Excess(Pruned(queue, pending, now), n, kind))
  }

  /** Why making room on a node may settle a pending task: it had expired, or it was a mere query on a full node. */
  predicate LostBy(task: Task, code: string, n: NodeId, kind: Method, full: bool, now: int) {
    && task.node == n
    && (|| (code == "TASK_EXPIRED" && task.deadline <= now)
        || (code == "TASK_PREEMPTED" && task.Background() && !kind.Background() && full))
  }

  lemma {:induction false} NothingPreempted(queue: seq<Task>)
    ensures Preempted(queue, 0) == queue && Victims(queue, 0) == []
  {
    if queue != [] {
      NothingPreempted(queue[1..]);
    }
  }

  lemma NothingTaken(count: nat)
    ensures Preempted([], count) == [] && Victims([], count) == [] && Ids([]) == {}
  {
  }

  /** Preemption without limit leaves all but the read-only queries. */
  lemma {:induction false} OnlyQueriesGiveWay(queue: seq<Task>, count: nat)
    requires count >= |queue|
    ensures forall t :: t in Preempted(queue, count) <==>
      t in queue && t.kind !in QUERIES
  {
    if queue != [] {
      assert queue == [queue[0]] + queue[1..];
      OnlyQueriesGiveWay(queue[1..], if queue[0].Background() then count - 1 else count);
    }
  }

  lemma NoneTaken(queue: seq<Task>, pending: map<TaskId, Task>)
    ensures Preempted(queue, 0) == queue && pending - Ids(Victims(queue, 0)) == pending
  {
    NothingPreempted(queue);
  }

  lemma {:induction false} FewIds(tasks: seq<Task>)
    ensures |Ids(tasks)| <= |tasks|
  {
    if tasks != [] {
      var init := tasks[..|tasks| - 1];
      FewIds(init);
      IdsOfMore(init, tasks[|tasks| - 1]);
      assert init + [tasks[|tasks| - 1]] == tasks;
    }
  }

  /** Preemption takes no more than it must: a full node keeps all but one of the tasks it may have. */
  lemma PreemptionIsTight(queue: seq<Task>, pending: map<TaskId, Task>, n: NodeId, kind: Method, now: int)
    requires Full(Pruned(queue, pending, now), n)
    ensures |PendingFor(Roomed(queue, pending, n, kind, now), n)| >= MAX_TASKS_PER_NODE - 1
  {
    var pruned := Pruned(queue, pending, now);
    var victims := Victims(Unexpired(queue, now), Excess(pruned, n, kind));
    FewIds(victims);
    SubsetSize(PendingFor(pruned, n), PendingFor(pruned - Ids(victims), n) + Ids(victims));
  }

  lemma PreemptAt(queue: seq<Task>, i: nat, count: nat)
    requires i < |queue|
    ensures
      if |Victims(queue[..i], count)| < count && queue[i].Background() then
        && Preempted(queue[..i + 1], count) == Preempted(queue[..i], count)
        && Victims(queue[..i + 1], count) == Victims(queue[..i], count) + [queue[i]]
      else
        && Preempted(queue[..i + 1], count) == Preempted(queue[..i], count) + [queue[i]]
        && Victims(queue[..i + 1], count) == Victims(queue[..i], count)
  {
    assert queue[..i + 1] == queue[..i] + [queue[i]];
    PreemptStep(queue[..i], queue[i], count);
  }

  lemma TailIsQueued(queue: seq<Task>, n: NodeId, pending: map<TaskId, Task>, accepted: set<TaskId>)
    requires queue != [] && QueuedAt(queue, n, pending, accepted)
    ensures QueuedAt(queue[1..], n, pending, accepted)
  {
    var tail := queue[1..];
    forall i, j | 0 <= i < j < |tail|
      ensures tail[i].Background() ==> tail[j].Background()
    {
      assert tail[i] == queue[i + 1] && tail[j] == queue[j + 1];
    }
  }

  lemma {:induction false} PreemptStep(queue: seq<Task>, task: Task, count: nat)
    ensures
      if |Victims(queue, count)| < count && task.Background() then
        && Preempted(queue + [task], count) == Preempted(queue, count)
        && Victims(queue + [task], count) == Victims(queue, count) + [task]
      else
        && Preempted(queue + [task], count) == Preempted(queue, count) + [task]
        && Victims(queue + [task], count) == Victims(queue, count)
  {
    if queue != [] {
      var rest, taken := queue[1..], count > 0 && queue[0].Background();
      assert (queue + [task])[1..] == rest + [task];
      PreemptStep(rest, task, if taken then count - 1 else count);
      if taken {
        Associates([queue[0]], Victims(rest, count - 1), [task]);
      } else {
        Associates([queue[0]], Preempted(rest, count), [task]);
      }
    }
  }

  function Ids(tasks: seq<Task>): set<TaskId> {
    set t | t in tasks :: t.id
  }

  lemma IdsOfMore(tasks: seq<Task>, task: Task)
    ensures Ids(tasks + [task]) == Ids(tasks) + {task.id}
  {
  }

  lemma {:induction false} UnexpiredOfConcat(left: seq<Task>, right: seq<Task>, now: int)
    ensures Unexpired(left + right, now) == Unexpired(left, now) + Unexpired(right, now)
  {
    if left == [] {
      assert left + right == right;
    } else {
      assert (left + right)[1..] == left[1..] + right;
      UnexpiredOfConcat(left[1..], right, now);
      Associates([left[0]], Unexpired(left[1..], now), Unexpired(right, now));
    }
  }

  lemma NothingExpires(now: int)
    ensures Unexpired([], now) == [] && Expired([], now) == {}
  {
  }

  lemma UnexpiredStep(queue: seq<Task>, i: nat, now: int)
    requires i < |queue|
    ensures Unexpired(queue[..i + 1], now)
         == if queue[i].deadline > now then Unexpired(queue[..i], now) + [queue[i]] else Unexpired(queue[..i], now)
    ensures Expired(queue[..i + 1], now)
         == if queue[i].deadline > now then Expired(queue[..i], now) else Expired(queue[..i], now) + {queue[i].id}
  {
    assert queue[..i + 1] == queue[..i] + [queue[i]];
    UnexpiredOfConcat(queue[..i], [queue[i]], now);
  }
}
