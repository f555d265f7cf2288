/** Allocation of rule slots, kernel tables and priority windows for a source policy
    (`nextFree`, `allocate*` and `prepareSourcePolicyEgress` of src/bird-source-policy.ts). */
module SourcePolicyAllocator {
  import opened Wrappers
  import opened Ipv4
  import opened SourcePolicy

  const AUTO_TABLE_MIN := 200
  const AUTO_TABLE_MAX := 10000
  const WINDOWS: nat := (PRIORITY_MAX - PRIORITY_MIN + 1) / PRIORITY_WIDTH

  // ----- Priority windows

  function Candidate(window: nat): int {
    PRIORITY_MIN + window * PRIORITY_WIDTH
  }

  function WindowAt(start: nat, offset: nat): (window: nat)
    ensures window < WINDOWS
    ensures start < WINDOWS && offset < WINDOWS ==>
      window == if start + offset < WINDOWS then start + offset else start + offset - WINDOWS
  {
    (start + offset) % WINDOWS
  }

  /** Tries the windows in order from `start`, wrapping around. */
  function Probe(start: nat, used: set<int>, offset: nat): Option<int>
    decreases WINDOWS - offset
  {
    if offset >= WINDOWS then None
    else
      var candidate := Candidate(WindowAt(start, offset));
      if candidate !in used then Some(candidate) else Probe(start, used, offset + 1)
  }

  /** `hash` stands for the stable number of the resource's name. */
  method AllocatePriorityBase(hash: nat, used: set<int>) returns (base: Option<int>)
    ensures base == Probe(hash % WINDOWS, used, 0)
  {
    var start := hash % WINDOWS;
    for offset := 0 to WINDOWS
      invariant Probe(start, used, 0) == Probe(start, used, offset)
    {
      var candidate := Candidate(WindowAt(start, offset));
      if candidate !in used {
        return Some(candidate);
      }
    }
    return None;
  }

  /** A stored policy keeps its base; a new one takes the caller's, or else the first free window. */
  method ChooseBase(
    previous: Option<int>, requested: Option<int>, hash: nat, used: set<int>) returns (base: Option<int>)
    ensures previous.Some? ==> base == previous
    ensures previous.None? && requested.Some? ==> base == requested
    ensures previous.None? && requested.None? ==> base == Probe(hash % WINDOWS, used, 0)
  {
    if previous.Some? {
      return previous;
    }
    if requested.Some? {
      return requested;
    }
    base := AllocatePriorityBase(hash, used);
  }

  predicate Aligned(base: int) {
    exists w: nat :: w < WINDOWS && base == Candidate(w)
  }

  predicate WindowsDisjoint(left: int, right: int) {
    left + PRIORITY_WIDTH <= right || right + PRIORITY_WIDTH <= left
  }

  lemma {:induction false} ProbeFrom(start: nat, used: set<int>, offset: nat)
    requires offset <= WINDOWS
    ensures
      match Probe(start, used, offset)
      case Some(base) => Aligned(base) && base !in used
      case None => forall k: nat :: offset <= k < WINDOWS ==> Candidate(WindowAt(start, k)) in used
    decreases WINDOWS - offset
  {
    if offset < WINDOWS && Candidate(WindowAt(start, offset)) in used {
      ProbeFrom(start, used, offset + 1);
    }
  }

  /** Wrapping around reaches every window: the search fails only when all of them start an existing range. */
  lemma ProbeIsComplete(start: nat, used: set<int>)
    requires start < WINDOWS
    ensures Probe(start, used, 0).None? <==> forall w: nat :: w < WINDOWS ==> Candidate(w) in used
    ensures Probe(start, used, 0).Some? ==> Aligned(Probe(start, used, 0).value) && Probe(start, used, 0).value !in used
  {
    ProbeFrom(start, used, 0);
    if Probe(start, used, 0).None? {
      forall w: nat | w < WINDOWS
        ensures Candidate(w) in used
      {
        var k: nat := if w >= start then w - start else w + WINDOWS - start;
        assert WindowAt(start, k) == w;
      }
    }
  }

  /** Among aligned ranges a new base means a disjoint range, and it fits below the default rules. */
  lemma AlignedBasesAreDisjoint(base: int, used: set<int>)
    requires Aligned(base) && base !in used
    ensures 10000 <= base && base + 1023 <= 32765
    ensures forall other :: other in used && Aligned(other) ==> WindowsDisjoint(base, other)
  {
    var w: nat :| w < WINDOWS && base == Candidate(w);
    forall other | other in used && Aligned(other)
      ensures WindowsDisjoint(base, other)
    {
      var v: nat :| v < WINDOWS && other == Candidate(v);
    }
  }

  predicate FreeOf(base: int, used: set<int>) {
    forall other :: other in used ==> WindowsDisjoint(base, other)
  }

  predicate FindsFree(start: nat, used: set<int>) {
    Probe(start, used, 0).Some? ==> FreeOf(Probe(start, used, 0).value, used)
  }

  lemma FreeWindowIsFound(w: nat, used: set<int>)
    requires w < WINDOWS && Candidate(w) !in used
    ensures Probe(w, used, 0) == Some(Candidate(w))
  {
    assert WindowAt(w, 0) == w;
  }

  /** Whatever the name, the range found is free of all others: exactly when each window not taken is free of them. */
  lemma ProbedRangeIsFree(used: set<int>)
    ensures
      (forall start: nat :: start < WINDOWS ==> FindsFree(start, used))
      <==> forall w: nat :: w < WINDOWS && Candidate(w) !in used ==> FreeOf(Candidate(w), used)
  {
    forall w: nat | w < WINDOWS && Candidate(w) !in used
      ensures FindsFree(w, used) <==> FreeOf(Candidate(w), used)
    {
      FreeWindowIsFound(w, used);
    }
    forall start: nat | start < WINDOWS && Probe(start, used, 0).Some?
      ensures exists w: nat :: w < WINDOWS && Candidate(w) !in used && Probe(start, used, 0).value == Candidate(w)
    {
      ProbeIsComplete(start, used);
    }
  }

  /** Only a base that is not aligned can reach into a window not taken. */
  lemma OnlyUnalignedReachesIn(w: nat, used: set<int>)
    requires w < WINDOWS && Candidate(w) !in used
    ensures FreeOf(Candidate(w), used)
      <==> forall other :: other in used && !Aligned(other) ==> WindowsDisjoint(Candidate(w), other)
  {
    assert Aligned(Candidate(w));
    AlignedBasesAreDisjoint(Candidate(w), used);
  }

  /** One base chosen by hand at 10500 makes the search from the first window answer a range that overlaps it. */
  lemma UnalignedBaseIsOverlooked()
    ensures Probe(0, {10500}, 0) == Some(10000) && !WindowsDisjoint(10000, 10500)
  {
    assert Candidate(0) == 10000;
  }

  // ----- Kernel tables and slots

  method AllocateKernelTable(used: set<int>) returns (table: Option<int>)
    ensures table.Some? ==>
      && 200 <= table.value <= 10000 && table.value !in {253, 254, 255} && table.value !in used
      && forall t :: 200 <= t < table.value ==> t in RESERVED_TABLES || t in used
    ensures table.None? ==> forall t :: 200 <= t <= 10000 ==> t in RESERVED_TABLES || t in used
  {
    for t := AUTO_TABLE_MIN to AUTO_TABLE_MAX + 1
      invariant forall u :: AUTO_TABLE_MIN <= u < t ==> u in RESERVED_TABLES || u in used
    {
      if t !in RESERVED_TABLES && t !in used {
        return Some(t);
      }
    }
    return None;
  }

  method NextFreeSlot(used: set<nat>) returns (slot: Option<nat>)
    ensures slot.Some? ==>
      slot.value < 16 && slot.value !in used && forall s: nat :: s < slot.value ==> s in used
    ensures slot.None? ==> forall s: nat :: s < 16 ==> s in used
  {
    for s := 0 to MAX_GROUPS
      invariant forall u: nat :: u < s ==> u in used
    {
      if s !in used {
        return Some(s);
      }
    }
    return None;
  }

  /** A requested group; a field the caller left out is `None`. */
  datatype Requested = Requested(id: Option<string>, egress: Address, table: Option<int>, slot: Option<nat>)

  datatype Assigned = Assigned(slot: nat, table: int)

  function FindById(groups: seq<Group>, id: string): Option<Group> {
    if groups == [] then None
    else if groups[|groups| - 1].id == id then Some(groups[|groups| - 1])
    else FindById(groups[..|groups| - 1], id)
  }

  function FindByAddress(groups: seq<Group>, egress: Address): Option<Group> {
    if groups == [] then None
    else if groups[|groups| - 1].egress == egress then Some(groups[|groups| - 1])
    else FindByAddress(groups[..|groups| - 1], egress)
  }

  /** The old group a request continues: by id first, then by address. */
  function OldGroup(previous: seq<Group>, request: Requested): Option<Group> {
    var byId := if request.id.Some? then FindById(previous, request.id.value) else None;
    if byId.Some? then byId else FindByAddress(previous, request.egress)
  }

  /** The request names this group, or it names none and has its address; the last such group counts. */
  predicate Continues(previous: seq<Group>, request: Requested, j: nat) {
    && j < |previous|
    && if exists k :: 0 <= k < |previous| && request.id == Some(previous[k].id) then
         request.id == Some(previous[j].id) && forall k :: j < k < |previous| ==> request.id != Some(previous[k].id)
       else
         request.egress == previous[j].egress && forall k :: j < k < |previous| ==> request.egress != previous[k].egress
  }

  lemma {:induction false} LastById(groups: seq<Group>, id: string, j: nat)
    requires j < |groups| && groups[j].id == id && forall k :: j < k < |groups| ==> groups[k].id != id
    ensures FindById(groups, id) == Some(groups[j])
  {
    if j < |groups| - 1 {
      LastById(groups[..|groups| - 1], id, j);
    }
  }

  lemma {:induction false} LastByAddress(groups: seq<Group>, egress: Address, j: nat)
    requires j < |groups| && groups[j].egress == egress && forall k :: j < k < |groups| ==> groups[k].egress != egress
    ensures FindByAddress(groups, egress) == Some(groups[j])
  {
    if j < |groups| - 1 {
      LastByAddress(groups[..|groups| - 1], egress, j);
    }
  }

  lemma {:induction false} NoneById(groups: seq<Group>, id: string)
    requires forall k :: 0 <= k < |groups| ==> groups[k].id != id
    ensures FindById(groups, id) == None
  {
    if groups != [] {
      NoneById(groups[..|groups| - 1], id);
    }
  }

  lemma {:induction false} NoneByAddress(groups: seq<Group>, egress: Address)
    requires forall k :: 0 <= k < |groups| ==> groups[k].egress != egress
    ensures FindByAddress(groups, egress) == None
  {
    if groups != [] {
      NoneByAddress(groups[..|groups| - 1], egress);
    }
  }

  /** Every request continues one old group or is new. */
  lemma ContinuesOneOrNone(previous: seq<Group>, request: Requested)
    ensures IsNew(previous, request) <==> forall j :: 0 <= j < |previous| ==> !Continues(previous, request, j)
    ensures forall i, j :: Continues(previous, request, i) && Continues(previous, request, j) ==> i == j
  {
    if k :| 0 <= k < |previous| && request.id == Some(previous[k].id) {
      var j := LastNamed(previous, request, |previous|);
      assert Continues(previous, request, j);
    } else if !IsNew(previous, request) {
      var j := LastAt(previous, request, |previous|);
      assert Continues(previous, request, j);
    }
  }

  lemma {:induction false} LastNamed(previous: seq<Group>, request: Requested, n: nat) returns (j: nat)
    requires n <= |previous| && exists k :: 0 <= k < n && request.id == Some(previous[k].id)
    ensures j < n && request.id == Some(previous[j].id)
    ensures forall k :: j < k < n ==> request.id != Some(previous[k].id)
  {
    j := n - 1;
    if request.id != Some(previous[j].id) {
      j := LastNamed(previous, request, n - 1);
    }
  }

  lemma {:induction false} LastAt(previous: seq<Group>, request: Requested, n: nat) returns (j: nat)
    requires n <= |previous| && exists k :: 0 <= k < n && request.egress == previous[k].egress
    ensures j < n && request.egress == previous[j].egress
    ensures forall k :: j < k < n ==> request.egress != previous[k].egress
  {
    j := n - 1;
    if request.egress != previous[j].egress {
      j := LastAt(previous, request, n - 1);
    }
  }

  /** The old group of a request is the one it continues, and there is none when it continues none. */
  lemma OldGroupIsContinued(previous: seq<Group>, request: Requested, j: nat)
    ensures Continues(previous, request, j) ==> OldGroup(previous, request) == Some(previous[j])
    ensures IsNew(previous, request) ==> OldGroup(previous, request) == None
  {
    var named := exists k :: 0 <= k < |previous| && request.id == Some(previous[k].id);
    if !named && request.id.Some? {
      NoneById(previous, request.id.value);
    }
    if Continues(previous, request, j) {
      if named {
        LastById(previous, request.id.value, j);
      } else {
        LastByAddress(previous, request.egress, j);
      }
    }
    if forall k :: 0 <= k < |previous| ==> request.egress != previous[k].egress {
      NoneByAddress(previous, request.egress);
    }
  }

  predicate IsNew(previous: seq<Group>, request: Requested) {
    forall k :: 0 <= k < |previous| ==> request.id != Some(previous[k].id) && request.egress != previous[k].egress
  }

  /** A continued group keeps its slot, and its table unless the caller names another; a new one gets what it names. */
  predicate Keeps(previous: seq<Group>, request: Requested, given: Assigned) {
    && (forall j :: 0 <= j < |previous| && Continues(previous, request, j) ==>
         given.slot == previous[j].slot && (request.table.None? ==> given.table == previous[j].table))
    && (IsNew(previous, request) && request.slot.Some? ==> given.slot == request.slot.value)
    && (request.table.Some? ==> given.table == request.table.value)
  }

  lemma OldGroupKeeps(previous: seq<Group>, request: Requested, given: Assigned)
    requires OldGroup(previous, request).Some? ==>
      && given.slot == OldGroup(previous, request).value.slot
      && (request.table.None? ==> given.table == OldGroup(previous, request).value.table)
    requires OldGroup(previous, request).None? && request.slot.Some? ==> given.slot == request.slot.value
    requires request.table.Some? ==> given.table == request.table.value
    ensures Keeps(previous, request, given)
  {
    OldGroupIsContinued(previous, request, 0);
    forall j | 0 <= j < |previous| && Continues(previous, request, j)
      ensures OldGroup(previous, request) == Some(previous[j])
    {
      OldGroupIsContinued(previous, request, j);
    }
  }

  lemma {:induction false} FoundIsMember(previous: seq<Group>, request: Requested)
    ensures OldGroup(previous, request).Some? ==> OldGroup(previous, request).value in previous
  {
    if previous != [] {
      FoundIsMember(previous[..|previous| - 1], request);
      assert previous[|previous| - 1] in previous;
    }
  }

  function KeptTables(previous: seq<Group>, requests: seq<Requested>): set<int> {
    set r | r in requests && OldGroup(previous, r).Some? :: OldGroup(previous, r).value.table
  }

  function KeptSlots(previous: seq<Group>, requests: seq<Requested>): set<nat> {
    set r | r in requests && OldGroup(previous, r).Some? :: OldGroup(previous, r).value.slot
  }

  /** The caller names no table or slot, and no two requests continue the same old group. */
  predicate Plain(previous: seq<Group>, requests: seq<Requested>) {
    && |requests| <= MAX_GROUPS
    && (forall r :: r in requests ==> r.table.None? && r.slot.None?)
    && (forall i, j :: 0 <= i < j < |requests| && OldGroup(previous, requests[i]).Some? ==>
         OldGroup(previous, requests[i]) != OldGroup(previous, requests[j]))
  }

  /** Requests by the distinct ids of old groups, in any number up to the limit, are plain. */
  lemma RequestsByIdArePlain(previous: seq<Group>, requests: seq<Requested>)
    requires forall i, j :: 0 <= i < j < |previous| ==> previous[i].id != previous[j].id
    requires |requests| <= 16 && forall i, j :: 0 <= i < j < |requests| ==> requests[i].id != requests[j].id
    requires forall r :: r in requests ==>
      r.table.None? && r.slot.None? && exists g :: g in previous && r.id == Some(g.id)
    ensures Plain(previous, requests)
  {
    forall i | 0 <= i < |requests|
      ensures OldGroup(previous, requests[i]).Some? && requests[i].id == Some(OldGroup(previous, requests[i]).value.id)
    {
      var g :| g in previous && requests[i].id == Some(g.id);
      var k :| 0 <= k < |previous| && previous[k] == g;
      var j := LastNamed(previous, requests[i], |previous|);
      OldGroupIsContinued(previous, requests[i], j);
    }
  }

  /** The old groups as a stored policy has them. */
  predicate Stored(previous: seq<Group>) {
    && (forall g :: g in previous ==> g.slot < MAX_GROUPS)
    && forall i, j :: 0 <= i < j < |previous| ==>
         previous[i].slot != previous[j].slot && previous[i].table != previous[j].table
  }

  // ----- There is always a free slot for at most sixteen groups

  function MatchedCount(previous: seq<Group>, requests: seq<Requested>): (count: nat)
    ensures count <= |requests|
  {
    if requests == [] then 0
    else
      MatchedCount(previous, requests[..|requests| - 1])
      + if OldGroup(previous, requests[|requests| - 1]).Some? then 1 else 0
  }

  lemma {:induction false} MatchedCountOfPrefix(previous: seq<Group>, requests: seq<Requested>, i: nat)
    requires i <= |requests|
    ensures MatchedCount(previous, requests) <= MatchedCount(previous, requests[..i]) + |requests| - i
    decreases |requests|
  {
    if i == |requests| {
      assert requests[..i] == requests;
    } else {
      var rest := requests[..|requests| - 1];
      assert rest[..i] == requests[..i];
      MatchedCountOfPrefix(previous, rest, i);
    }
  }

  lemma {:induction false} KeptSlotsAreFew(previous: seq<Group>, requests: seq<Requested>)
    ensures |KeptSlots(previous, requests)| <= MatchedCount(previous, requests)
  {
    if requests == [] {
      assert KeptSlots(previous, requests) == {};
    } else {
      var rest, last := requests[..|requests| - 1], requests[|requests| - 1];
      KeptSlotsAreFew(previous, rest);
      var added := if OldGroup(previous, last).Some? then {OldGroup(previous, last).value.slot} else {};
      assert requests == rest + [last];
      assert KeptSlots(previous, requests) == KeptSlots(previous, rest) + added;
    }
  }

  lemma {:induction false} InitialSegmentSize(n: nat, used: set<nat>)
    requires forall s: nat :: s < n ==> s in used
    ensures |used| >= n
  {
    if n > 0 {
      InitialSegmentSize(n - 1, used - {n - 1});
    }
  }

  // ----- The allocation itself

  /** Slots and tables for the requested groups; `None` when the automatic table range is exhausted. */
  method PrepareGroups(previous: seq<Group>, requests: seq<Requested>, others: set<int>)
    returns (result: Option<seq<Assigned>>, used: set<int>)
    ensures result.None? ==>
      others <= used && forall t :: AUTO_TABLE_MIN <= t <= AUTO_TABLE_MAX ==> t in RESERVED_TABLES || t in used
    ensures result.Some? ==> |result.value| == |requests|
    ensures result.Some? ==> forall i :: 0 <= i < |requests| ==> Keeps(previous, requests[i], result.value[i])
    ensures result.Some? && Stored(previous) && Plain(previous, requests) ==>
      Allocated(previous, requests, others, result.value)
  {
    var usedSlots: set<nat> := KeptSlots(previous, requests);
    used := KeptTables(previous, requests) + others;
    var done: seq<Assigned> := [];
    ghost var plain := Stored(previous) && Plain(previous, requests);
    KeptSlotsAreFew(previous, requests);
    hide Stored, OldGroup, MatchedCount, Keeps;
    for i := 0 to |requests|
      invariant |done| == i && forall k :: 0 <= k < i ==> Keeps(previous, requests[k], done[k])
      invariant KeptSlots(previous, requests) <= usedSlots
      invariant KeptTables(previous, requests) + others <= used
      invariant forall k :: 0 <= k < i ==> done[k].slot in usedSlots && done[k].table in used
      invariant plain ==>
        |usedSlots| <= MatchedCount(previous, requests) + i - MatchedCount(previous, requests[..i])
      invariant plain ==> Allocated(previous, requests[..i], others, done)
      invariant plain ==> ClearOfKept(previous, requests, i, done)
    {
      var continued := OldGroup(previous, requests[i]);
      SlotsRemain(previous, requests, i);
      var slot := i;
      if continued.Some? {
        slot := continued.value.slot;
      } else if requests[i].slot.Some? {
        slot := requests[i].slot.value;
      } else {
        var free := NextFreeSlot(usedSlots);
        if free.Some? {
          slot := free.value;
        } else {
          InitialSegmentSize(MAX_GROUPS, usedSlots);
        }
      }
      var table;
      if requests[i].table.Some? {
        table := requests[i].table.value;
      } else if continued.Some? {
        table := continued.value.table;
      } else {
        var free := AllocateKernelTable(used);
        if free.None? {
          return None, used;
        }
        table := free.value;
      }
      if plain {
        OneMoreAllocated(previous, requests, i, others, done, Assigned(slot, table));
      }
      OldGroupKeeps(previous, requests[i], Assigned(slot, table));
      done := done + [Assigned(slot, table)];
      usedSlots := usedSlots + {slot};
      used := used + {table};
    }
    assert requests[..|requests|] == requests;
    return Some(done), used;
  }

  /** Continued groups keep slot and table; new ones get their own, and no table of another resource. */
  ghost predicate Allocated(previous: seq<Group>, requests: seq<Requested>, others: set<int>, done: seq<Assigned>) {
    && |done| == |requests|
    && (forall k :: 0 <= k < |done| ==> AssignedWell(previous, requests[k], others, done[k]))
    && (forall j, k :: 0 <= j < k < |done| ==> done[j].slot != done[k].slot && done[j].table != done[k].table)
  }

  predicate AssignedWell(previous: seq<Group>, request: Requested, others: set<int>, given: Assigned) {
    match OldGroup(previous, request)
    case Some(group) => given == Assigned(group.slot, group.table)
    case None =>
      && given.slot < MAX_GROUPS
      && AUTO_TABLE_MIN <= given.table <= AUTO_TABLE_MAX
      && given.table !in RESERVED_TABLES && given.table !in others
  }

  /** New groups stay clear of everything a continued group keeps. */
  ghost predicate ClearOfKept(previous: seq<Group>, requests: seq<Requested>, i: nat, done: seq<Assigned>) {
    forall k :: 0 <= k < i && k < |requests| && k < |done| && OldGroup(previous, requests[k]).None? ==>
      done[k].slot !in KeptSlots(previous, requests) && done[k].table !in KeptTables(previous, requests)
  }

  lemma SlotsRemain(previous: seq<Group>, requests: seq<Requested>, i: nat)
    requires i < |requests|
    ensures MatchedCount(previous, requests[..i + 1])
         == MatchedCount(previous, requests[..i]) + (if OldGroup(previous, requests[i]).Some? then 1 else 0)
    ensures OldGroup(previous, requests[i]).None? ==>
      MatchedCount(previous, requests) + i - MatchedCount(previous, requests[..i]) < |requests|
  {
    assert requests[..i + 1][..i] == requests[..i];
    MatchedCountOfPrefix(previous, requests, i + 1);
  }

  lemma OneMoreAllocated(
    previous: seq<Group>, requests: seq<Requested>, i: nat, others: set<int>, done: seq<Assigned>, next: Assigned)
    requires i < |requests| && Stored(previous) && Plain(previous, requests)
    requires Allocated(previous, requests[..i], others, done) && ClearOfKept(previous, requests, i, done)
    requires AssignedWell(previous, requests[i], others, next)
    requires OldGroup(previous, requests[i]).None? ==>
      && next.slot !in KeptSlots(previous, requests) && next.table !in KeptTables(previous, requests)
      && forall k :: 0 <= k < i ==> done[k].slot != next.slot && done[k].table != next.table
    ensures Allocated(previous, requests[..i + 1], others, done + [next])
    ensures ClearOfKept(previous, requests, i + 1, done + [next])
  {
    if OldGroup(previous, requests[i]).Some? {
      FoundIsMember(previous, requests[i]);
      assert requests[i] in requests;
      forall k | 0 <= k < i
        ensures done[k].slot != next.slot && done[k].table != next.table
      {
        assert AssignedWell(previous, requests[..i][k], others, done[k]);
        FoundIsMember(previous, requests[k]);
      }
    }
  }
}
