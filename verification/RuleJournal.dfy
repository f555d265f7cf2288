/** The agent's crash-safe policy-rule journal (agent/network_state.go). */
module RuleJournal {
  import opened Wrappers
  import opened IpRules
  import Ipv4

  const MAX_MANAGED_RULES := 4096

  /** The state file. `cleanup` is written before the kernel is touched. */
  datatype SavedState = SavedState(rules: seq<Rule>, cleanup: seq<Rule>)

  /** How one step, or one whole operation, ended. A crash may come before or after the step took effect. */
  datatype Outcome = Done | Failed | Crashed

  /** One step counts as a fault unless it was done. */
  function Faults(o: Outcome): nat {
    if o == Done then 0 else 1
  }

  predicate AllValid(rules: seq<Rule>) {
    forall r :: r in rules ==> r.Valid()
  }

  predicate Acceptable(state: SavedState) {
    && AllValid(state.rules) && |state.rules| <= MAX_MANAGED_RULES
    && AllValid(state.cleanup) && |state.cleanup| <= 4 * MAX_MANAGED_RULES
  }

  // ----- First occurrences

  function Unique(rules: seq<Rule>): (result: seq<Rule>)
    ensures forall r :: r in result <==> r in rules
    ensures forall i, j :: 0 <= i < j < |result| ==> result[i] != result[j]
  {
    if rules == [] then []
    else
      var rest := rules[..|rules| - 1];
      var last := rules[|rules| - 1];
      assert rules == rest + [last];
      if last in rest then Unique(rest) else Unique(rest) + [last]
  }

  method UniqueIpRules(rules: seq<Rule>) returns (result: seq<Rule>)
    ensures result == Unique(rules)
  {
    result := [];
    var seen: set<Rule> := {};
    for i := 0 to |rules|
      invariant result == Unique(rules[..i])
      invariant forall r :: r in seen <==> r in rules[..i]
    {
      assert rules[..i + 1][..i] == rules[..i];
      if rules[i] !in seen {
        result := result + [rules[i]];
        seen := seen + {rules[i]};
      }
    }
    assert rules[..|rules|] == rules;
  }

  lemma {:induction false} UniqueOfDistinct(rules: seq<Rule>)
    requires forall i, j :: 0 <= i < j < |rules| ==> rules[i] != rules[j]
    ensures Unique(rules) == rules
  {
    if rules != [] {
      UniqueOfDistinct(rules[..|rules| - 1]);
      assert rules == rules[..|rules| - 1] + [rules[|rules| - 1]];
    }
  }


  // ----- The kernel's rule list

  /** The entries at the given priorities, in kernel order. */
  function At(kernel: seq<KernelRule>, priorities: set<int>): (part: seq<KernelRule>)
    ensures forall e :: e in part <==> e in kernel && e.priority in priorities
  {
    if kernel == [] then []
    else if kernel[0].priority in priorities then [kernel[0]] + At(kernel[1..], priorities)
    else At(kernel[1..], priorities)
  }

  /** The entries at every other priority. */
  function Away(kernel: seq<KernelRule>, priorities: set<int>): (part: seq<KernelRule>)
    ensures forall e :: e in part <==> e in kernel && e.priority !in priorities
  {
    if kernel == [] then []
    else if kernel[0].priority !in priorities then [kernel[0]] + Away(kernel[1..], priorities)
    else Away(kernel[1..], priorities)
  }

  lemma {:induction false} AtOfConcat(left: seq<KernelRule>, right: seq<KernelRule>, priorities: set<int>)
    ensures At(left + right, priorities) == At(left, priorities) + At(right, priorities)
  {
    if left == [] {
      assert left + right == right;
    } else {
      assert (left + right)[1..] == left[1..] + right;
      AtOfConcat(left[1..], right, priorities);
    }
  }

  lemma {:induction false} AwayOfConcat(left: seq<KernelRule>, right: seq<KernelRule>, priorities: set<int>)
    ensures Away(left + right, priorities) == Away(left, priorities) + Away(right, priorities)
  {
    if left == [] {
      assert left + right == right;
    } else {
      assert (left + right)[1..] == left[1..] + right;
      AwayOfConcat(left[1..], right, priorities);
    }
  }

  /** Two selections in a row are one. */
  lemma {:induction false} AwayTwice(kernel: seq<KernelRule>, some: set<int>, more: set<int>)
    ensures Away(Away(kernel, some), more) == Away(kernel, some + more)
  {
    if kernel != [] {
      AwayTwice(kernel[1..], some, more);
      if kernel[0].priority !in some {
        assert Away(kernel, some)[1..] == Away(kernel[1..], some);
      }
    }
  }

  lemma AwayChain(
    first: seq<KernelRule>, some: set<int>, second: seq<KernelRule>, more: set<int>, third: seq<KernelRule>)
    requires Away(second, some) == Away(first, some)
    requires Away(third, more) == Away(second, more)
    ensures Away(third, some + more) == Away(first, some + more)
  {
    AwayTwice(first, some, more);
    AwayTwice(second, some, more);
    AwayTwice(second, more, some);
    AwayTwice(third, more, some);
    assert more + some == some + more;
  }

  /** A frame for some priorities is one for more of them. */
  lemma AwayMore(before: seq<KernelRule>, after: seq<KernelRule>, some: set<int>, more: set<int>)
    requires some <= more && Away(after, some) == Away(before, some)
    ensures Away(after, more) == Away(before, more)
  {
    AwayTwice(before, some, more);
    AwayTwice(after, some, more);
    assert some + more == more;
  }

  lemma {:induction false} AwayFromNothing(kernel: seq<KernelRule>)
    ensures Away(kernel, {}) == kernel
  {
    if kernel != [] {
      AwayFromNothing(kernel[1..]);
    }
  }

  lemma {:induction false} NothingIsAt(kernel: seq<KernelRule>)
    ensures At(kernel, {}) == []
  {
    if kernel != [] {
      NothingIsAt(kernel[1..]);
    }
  }

  lemma NothingToRestore(kernel: seq<KernelRule>)
    requires AllWellFormed(kernel)
    ensures Priorities({}) == {} && Exactly(kernel, {}, []) && Covered(kernel, {}, {})
  {
    NothingIsAt(kernel);
  }

  /** Priorities nothing sits at do not matter. */
  lemma {:induction false} AtMore(kernel: seq<KernelRule>, some: set<int>, more: set<int>)
    requires some <= more
    requires forall e :: e in kernel && e.priority in more ==> e.priority in some
    ensures At(kernel, some) == At(kernel, more)
  {
    if kernel != [] {
      AtMore(kernel[1..], some, more);
    }
  }

  function SourceOf(rule: Rule): Ipv4.Cidr {
    if rule.selector.From? then rule.selector.source else Ipv4.ANY
  }

  function DestinationOf(rule: Rule): Ipv4.Cidr {
    if rule.selector.To? then rule.selector.destination else Ipv4.ANY
  }

  /** What `ip rule del` compares: only the selectors it names, never the entry's further ones. */
  predicate Matches(e: KernelRule, rule: Rule) {
    && e.priority == rule.priority
    && e.table == rule.table
    && (SourceOf(rule).length > 0 ==> e.src == SourceOf(rule))
    && (DestinationOf(rule).length > 0 ==> e.dst == DestinationOf(rule))
  }

  predicate HasMatch(kernel: seq<KernelRule>, rule: Rule) {
    exists e :: e in kernel && Matches(e, rule)
  }

  /** The kernel deletes the first entry that matches. */
  function DeleteFirst(kernel: seq<KernelRule>, rule: Rule): (rest: seq<KernelRule>)
    requires HasMatch(kernel, rule)
    ensures forall e :: e in rest ==> e in kernel
  {
    if Matches(kernel[0], rule) then kernel[1..] else [kernel[0]] + DeleteFirst(kernel[1..], rule)
  }

  /** A deletion that matches the first entry of a group of priorities removes that very entry. */
  lemma {:induction false} DeleteFirstTakesHead(kernel: seq<KernelRule>, rule: Rule, priorities: set<int>)
    requires rule.priority in priorities
    requires At(kernel, priorities) != [] && Matches(At(kernel, priorities)[0], rule)
    ensures HasMatch(kernel, rule)
    ensures At(DeleteFirst(kernel, rule), priorities) == At(kernel, priorities)[1..]
    ensures Away(DeleteFirst(kernel, rule), priorities) == Away(kernel, priorities)
  {
    assert At(kernel, priorities)[0] in kernel;
    if kernel[0].priority !in priorities {
      DeleteFirstTakesHead(kernel[1..], rule, priorities);
      assert DeleteFirst(kernel, rule)[1..] == DeleteFirst(kernel[1..], rule);
    }
  }

  function InstalledAll(rules: seq<Rule>): (entries: seq<KernelRule>)
    requires AllValid(rules)
    ensures |entries| == |rules| && forall i :: 0 <= i < |rules| ==> entries[i] == Installed(rules[i])
  {
    if rules == [] then [] else InstalledAll(rules[..|rules| - 1]) + [Installed(rules[|rules| - 1])]
  }

  function Elements(rules: seq<Rule>): set<Rule> {
    set r | r in rules
  }

  function Priorities(rules: set<Rule>): set<int> {
    set r | r in rules :: r.priority
  }

  lemma ElementsOfConcat(left: seq<Rule>, right: seq<Rule>)
    ensures Elements(left + right) == Elements(left) + Elements(right)
  {
  }

  lemma ElementsOfUnique(rules: seq<Rule>)
    ensures Elements(Unique(rules)) == Elements(rules)
  {
  }

  predicate AllWellFormed(kernel: seq<KernelRule>) {
    forall e :: e in kernel ==> e.Valid()
  }

  /** The listing names the kernel's rules in order. */
  ghost predicate Lists(listed: seq<Raw>, kernel: seq<KernelRule>)
    requires AllWellFormed(kernel)
  {
    && |listed| == |kernel|
    && forall i :: 0 <= i < |kernel| ==>
         listed[i].priority == kernel[i].priority && InstalledIpRule(listed[i]) == Managed(kernel[i])
  }

  /** Every entry at one of these priorities is one of these rules. */
  ghost predicate Covered(kernel: seq<KernelRule>, priorities: set<int>, rules: set<Rule>)
    requires AllWellFormed(kernel)
  {
    forall e :: e in kernel && e.priority in priorities ==> Managed(e).Some? && Managed(e).value in rules
  }

  /** The kernel holds exactly these rules at these priorities, once each. */
  ghost predicate Exactly(kernel: seq<KernelRule>, priorities: set<int>, rules: seq<Rule>) {
    AllValid(Unique(rules)) && multiset(At(kernel, priorities)) == multiset(InstalledAll(Unique(rules)))
  }

  lemma ManagedMatches(e: KernelRule)
    requires e.Valid() && Managed(e).Some?
    ensures Matches(e, Managed(e).value)
  {
  }

  /** All that `Reconcile` promises about the kernel, however it ends. */
  ghost predicate Reconciled(
    before: seq<KernelRule>, ownedBefore: set<int>, rules: set<Rule>, desired: seq<Rule>,
    o: Outcome, after: seq<KernelRule>, ownedAfter: set<int>)
    requires AllWellFormed(before) && AllWellFormed(after)
  {
    var priorities := Priorities(rules);
    && Away(after, priorities) == Away(before, priorities)
    && (Covered(before, priorities, rules) ==> Covered(after, priorities, rules))
    && (|| (Covered(before, priorities, rules) && ownedAfter == ownedBefore + priorities)
        || (o != Done && after == before && ownedAfter == ownedBefore))
    && (o == Done ==> Exactly(after, priorities, desired))
  }

  /** A rule of someone else at the priority of one of these rules: the operation fails and has changed nothing. */
  ghost predicate Guarded(
    before: seq<KernelRule>, ownedBefore: set<int>, rules: set<Rule>,
    o: Outcome, after: seq<KernelRule>, ownedAfter: set<int>)
    requires AllWellFormed(before)
  {
    Covered(before, Priorities(rules), rules) || (o != Done && after == before && ownedAfter == ownedBefore)
  }

  /** Nothing but a fault, or the one foreign rule that it refuses to touch, keeps an operation from being done. */
  ghost predicate Blamed(before: seq<KernelRule>, rules: set<Rule>, o: Outcome, faultsBefore: nat, faults: nat)
    requires AllWellFormed(before)
  {
    && faultsBefore <= faults
    && (o == Done ==> faults == faultsBefore)
    && (o == Crashed || (o == Failed && Covered(before, Priorities(rules), rules)) ==> faults > faultsBefore)
  }

  ghost predicate Foreign(e: KernelRule, known: set<Rule>)
    requires e.Valid()
  {
    Managed(e).Some? ==> Managed(e).value !in known
  }

  /** Wherever a rule stood that is none of the known ones, everything at its priority is as it was. */
  ghost predicate ForeignKept(before: seq<KernelRule>, after: seq<KernelRule>, known: set<Rule>)
    requires AllWellFormed(before)
  {
    forall e :: e in before && Foreign(e, known) ==> At(after, {e.priority}) == At(before, {e.priority})
  }

  lemma {:induction false} AtOfAway(kernel: seq<KernelRule>, priorities: set<int>, priority: int)
    requires priority !in priorities
    ensures At(Away(kernel, priorities), {priority}) == At(kernel, {priority})
  {
    if kernel != [] {
      AtOfAway(kernel[1..], priorities, priority);
    }
  }

  lemma GuardedKeepsForeign(
    before: seq<KernelRule>, ownedBefore: set<int>, known: set<Rule>, o: Outcome,
    after: seq<KernelRule>, ownedAfter: set<int>)
    requires AllWellFormed(before) && Guarded(before, ownedBefore, known, o, after, ownedAfter)
    requires Away(after, Priorities(known)) == Away(before, Priorities(known))
    ensures ForeignKept(before, after, known)
  {
    hide At, Away, Managed;
    forall e | e in before && Foreign(e, known)
      ensures At(after, {e.priority}) == At(before, {e.priority})
    {
      if after != before {
        AtOfAway(before, Priorities(known), e.priority);
        AtOfAway(after, Priorities(known), e.priority);
      }
    }
  }

  lemma ForeignChain(
    first: seq<KernelRule>, second: seq<KernelRule>, third: seq<KernelRule>,
    some: set<Rule>, more: set<Rule>, all: set<Rule>)
    requires AllWellFormed(first) && AllWellFormed(second) && some <= all && more <= all
    requires ForeignKept(first, second, some) && ForeignKept(second, third, more)
    ensures ForeignKept(first, third, all)
  {
    hide Managed;
    forall e | e in first && Foreign(e, all)
      ensures At(third, {e.priority}) == At(first, {e.priority})
    {
      assert Foreign(e, some) && e in At(first, {e.priority});
      assert e in second && Foreign(e, more);
    }
  }

  /** Nothing the agent may have left behind is missing from the journal; everything else is as found. */
  ghost predicate Sound(kernel: seq<KernelRule>, owned: set<int>, initial: seq<KernelRule>, journal: set<Rule>) {
    && AllWellFormed(kernel)
    && Covered(kernel, owned, journal)
    && Away(kernel, owned) == Away(initial, owned)
  }

  /** Reconciling against a list that includes the journal keeps the agent sound, even when it stops half way. */
  lemma ReconciledIsSound(
    before: seq<KernelRule>, ownedBefore: set<int>, initial: seq<KernelRule>, journal: set<Rule>,
    rules: set<Rule>, desired: seq<Rule>, o: Outcome, after: seq<KernelRule>, ownedAfter: set<int>)
    requires Sound(before, ownedBefore, initial, journal) && AllWellFormed(after)
    requires journal <= rules
    requires Reconciled(before, ownedBefore, rules, desired, o, after, ownedAfter)
    ensures Sound(after, ownedAfter, initial, rules)
    ensures o == Done ==> Exactly(after, ownedAfter, desired)
  {
    var priorities := Priorities(rules);
    if Covered(before, priorities, rules) && ownedAfter == ownedBefore + priorities {
      forall e | e in after && e.priority !in priorities
        ensures e.priority !in ownedBefore
      {
        assert e in Away(before, priorities);
      }
      AtMore(after, priorities, ownedAfter);
      AwayChain(initial, ownedBefore, before, priorities, after);
    }
  }

  /** Once only the desired rules are left, a journal of these alone is enough. */
  lemma SettledIsSound(
    kernel: seq<KernelRule>, owned: set<int>, initial: seq<KernelRule>, journal: set<Rule>, desired: seq<Rule>)
    requires Sound(kernel, owned, initial, journal)
    requires Exactly(kernel, owned, desired) && Covered(kernel, owned, Elements(desired))
    ensures Sound(kernel, owned, initial, Journal(Some(SavedState(desired, []))))
    ensures Sound(kernel, owned, initial, Journal(Some(SavedState(Unique(desired), []))))
    ensures Exactly(kernel, owned, Unique(desired))
  {
    hide Unique, At, Away, InstalledAll, Managed;
    UniqueOfDistinct(Unique(desired));
    ElementsOfUnique(desired);
    assert Elements(desired) + Elements([]) == Elements(desired);
  }

  lemma SoundWithMore(
    kernel: seq<KernelRule>, owned: set<int>, initial: seq<KernelRule>, journal: set<Rule>, more: set<Rule>)
    requires Sound(kernel, owned, initial, journal) && journal <= more
    ensures Sound(kernel, owned, initial, more)
  {
  }

  lemma NothingReconciled(before: seq<KernelRule>, after: seq<KernelRule>, rules: set<Rule>)
    requires rules == {}
    requires Away(after, Priorities(rules)) == Away(before, Priorities(rules))
    ensures after == before && Priorities(rules) == {}
  {
    assert Priorities(rules) == {};
    AwayFromNothing(before);
    AwayFromNothing(after);
  }

  lemma ExactIsCovered(kernel: seq<KernelRule>, priorities: set<int>, rules: seq<Rule>)
    requires AllWellFormed(kernel) && Exactly(kernel, priorities, rules)
    ensures Covered(kernel, priorities, Elements(rules))
  {
    hide Managed, Installed, Unique, At, InstalledAll;
    var unique := Unique(rules);
    var entries := InstalledAll(unique);
    forall e | e in kernel && e.priority in priorities
      ensures Managed(e).Some? && Managed(e).value in Elements(rules)
    {
      assert e in multiset(At(kernel, priorities));
      assert e in multiset(entries);
      var i :| 0 <= i < |entries| && e == entries[i];
      ManagedInstalled(unique[i]);
      assert unique[i] in rules;
    }
  }

  function RulesOf(saved: Option<SavedState>): seq<Rule> {
    if saved.Some? then saved.value.rules else []
  }

  /** Every rule the file knows of. */
  function Journal(saved: Option<SavedState>): set<Rule> {
    Elements(RulesOf(saved)) + Elements(CleanupOf(saved))
  }

  function CleanupOf(saved: Option<SavedState>): seq<Rule> {
    if saved.Some? then saved.value.cleanup else []
  }

  class RuleAgent {
    var saved: Option<SavedState>
    var kernel: seq<KernelRule>
    /** Every priority at which the agent may have changed the kernel since boot. */
    ghost var owned: set<int>
    /** The kernel as found at boot. */
    ghost var initial: seq<KernelRule>
    /** The rules by which the route cache was last flushed. */
    ghost var flushed: seq<KernelRule>
    /** How many steps have failed or were cut off so far. */
    ghost var faults: nat

    ghost predicate Valid()
      reads this
    {
      && AllValid(RulesOf(saved)) && AllValid(CleanupOf(saved))
      && (saved.None? ==> owned == {})
      && AllWellFormed(kernel) && Sound(kernel, owned, initial, Journal(saved))
    }

    /** At every priority the agent ever owned, the kernel holds the saved rules, once each, and nothing else. */
    ghost predicate Settled()
      reads this
    {
      Exactly(kernel, owned, RulesOf(saved))
    }

    constructor (found: seq<KernelRule>)
      requires AllWellFormed(found)
      ensures Valid() && saved == None && kernel == found == initial && owned == {}
    {
      saved, kernel, initial, owned, flushed, faults := None, found, found, {}, found, 0;
    }

    // ----- Single steps: each may fail, and the agent may crash before or after any of them

    method Save(state: SavedState) returns (o: Outcome)
      modifies this`saved, this`faults
      ensures faults == old(faults) + Faults(o)
      ensures o == Done ==> saved == Some(state) && AllValid(state.cleanup) && |state.cleanup| <= 16384
      ensures o == Failed ==> saved == old(saved)
      ensures saved == old(saved) || (saved == Some(state) && AllValid(state.cleanup))
    {
      if !AllValid(state.cleanup) || |state.cleanup| > 4 * MAX_MANAGED_RULES {
        faults := faults + 1;
        return Failed;
      }
      o := *;
      faults := faults + Faults(o);
      var written: bool := *;
      if o == Done || (o == Crashed && written) {
        saved := Some(state);
      }
    }

    method Read() returns (o: Outcome, state: SavedState)
      modifies this`faults
      ensures faults == old(faults) + Faults(o)
      ensures o == Done ==> state == if saved.Some? then saved.value else SavedState([], [])
      ensures o == Done ==> AllValid(state.rules) && |state.rules| <= 4096
      ensures o == Done ==> AllValid(state.cleanup) && |state.cleanup| <= 16384
    {
      o, state := *, SavedState([], []);
      if o == Done && saved.Some? {
        state := saved.value;
        o := if Acceptable(state) then Done else Failed;
      }
      faults := faults + Faults(o);
    }

    /** `ip rule show`, as the text the kernel prints and the agent parses. */
    method List() returns (o: Outcome, listed: seq<Raw>)
      requires AllWellFormed(kernel)
      modifies this`faults
      ensures faults == old(faults) + Faults(o)
      ensures o == Done ==> Lists(listed, kernel)
    {
      o, listed := *, [];
      if o == Done {
        var rules := ParseTextIpRules(ListingOf(kernel));
        ListingReadsBack(kernel);
        match rules
        case None => o := Failed;
        case Some(raws) => listed := raws;
      }
      faults := faults + Faults(o);
    }

    /** A failed command may still have taken effect, as when it times out. */
    method DeleteRule(rule: Rule) returns (o: Outcome)
      modifies this`kernel, this`faults
      ensures faults == old(faults) + Faults(o)
      ensures kernel == old(kernel) || (HasMatch(old(kernel), rule) && kernel == DeleteFirst(old(kernel), rule))
      ensures o == Done ==> HasMatch(old(kernel), rule) && kernel == DeleteFirst(old(kernel), rule)
    {
      o := *;
      var effective: bool := *;
      if !(exists e | e in kernel :: Matches(e, rule)) {
        o := if o == Done then Failed else o;
      } else if o == Done || effective {
        kernel := DeleteFirst(kernel, rule);
      }
      faults := faults + Faults(o);
    }

    method AddRule(rule: Rule) returns (o: Outcome)
      requires rule.Valid()
      modifies this`kernel, this`faults
      ensures faults == old(faults) + Faults(o)
      ensures kernel == old(kernel) || Inserted(old(kernel), Installed(rule), kernel)
      ensures o == Done ==> Inserted(old(kernel), Installed(rule), kernel)
    {
      o := *;
      var effective: bool := *;
      if o == Done || effective {
        var i :| 0 <= i <= |kernel|;
        kernel := kernel[..i] + [Installed(rule)] + kernel[i..];
      }
      faults := faults + Faults(o);
    }

    method FlushRouteCache() returns (o: Outcome)
      modifies this`flushed, this`faults
      ensures faults == old(faults) + Faults(o)
      ensures o == Done ==> flushed == kernel
    {
      o := *;
      flushed := kernel;
      faults := faults + Faults(o);
    }

    // ----- Operations

    /** Replaces every listed rule by `desired`; refuses to touch a priority shared with a foreign rule. */
    method Reconcile(cleanup: seq<Rule>, desired: seq<Rule>) returns (o: Outcome)
      requires AllWellFormed(kernel) && AllValid(desired)
      modifies this`kernel, this`owned, this`flushed, this`faults
      ensures o == Done ==> flushed == kernel
      ensures AllWellFormed(kernel)
      ensures Reconciled(
        old(kernel), old(owned), Elements(cleanup) + Elements(desired), desired, o, kernel, owned)
      ensures Blamed(old(kernel), Elements(cleanup) + Elements(desired), o, old(faults), faults)
    {
      var listed;
      o, listed := List();
      if o != Done {
        return;
      }
      var rules := UniqueIpRules(cleanup + desired);
      ElementsOfConcat(cleanup, desired);
      ElementsOfUnique(cleanup + desired);
      var conflict := Conflicts(listed, rules);
      if conflict {
        return Failed;
      }
      owned := owned + Priorities(Elements(rules));
      o := Replace(listed, rules, desired);
    }

    method Replace(listed: seq<Raw>, rules: seq<Rule>, desired: seq<Rule>) returns (o: Outcome)
      requires AllWellFormed(kernel) && Lists(listed, kernel)
      requires AllValid(desired) && Elements(desired) <= Elements(rules)
      requires Covered(kernel, Priorities(Elements(rules)), Elements(rules))
      modifies this`kernel, this`flushed, this`faults
      ensures faults == old(faults) + Faults(o)
      ensures o == Done ==> flushed == kernel
      ensures AllWellFormed(kernel)
      ensures Away(kernel, Priorities(Elements(rules))) == Away(old(kernel), Priorities(Elements(rules)))
      ensures Covered(kernel, Priorities(Elements(rules)), Elements(rules))
      ensures o == Done ==> Exactly(kernel, Priorities(Elements(rules)), desired)
    {
      o := DeleteListed(listed, rules);
      if o != Done {
        return;
      }
      o := AddAll(desired, Priorities(Elements(rules)));
      if o != Done {
        return;
      }
      o := FlushRouteCache();
    }

    /** Whether a listed rule at a managed priority is not one of `rules`. */
    method Conflicts(listed: seq<Raw>, rules: seq<Rule>) returns (conflict: bool)
      requires AllWellFormed(kernel) && Lists(listed, kernel)
      ensures conflict <==> !Covered(kernel, Priorities(Elements(rules)), Elements(rules))
    {
      var priorities: set<int> := set r | r in rules :: r.priority;
      for i := 0 to |listed|
        invariant forall k :: 0 <= k < i && kernel[k].priority in priorities ==>
          Managed(kernel[k]).Some? && Managed(kernel[k]).value in rules
      {
        if listed[i].priority in priorities {
          var rule := InstalledIpRule(listed[i]);
          if rule.None? || rule.value !in rules {
            assert kernel[i] in kernel;
            return true;
          }
        }
      }
      return false;
    }

    /** Deletes every listed managed rule, in the order of the listing. */
    method DeleteListed(listed: seq<Raw>, rules: seq<Rule>) returns (o: Outcome)
      requires AllWellFormed(kernel) && Lists(listed, kernel)
      requires Covered(kernel, Priorities(Elements(rules)), Elements(rules))
      modifies this`kernel, this`faults
      ensures faults == old(faults) + Faults(o)
      ensures Away(kernel, Priorities(Elements(rules))) == Away(old(kernel), Priorities(Elements(rules)))
      ensures forall e :: e in kernel ==> e in old(kernel)
      ensures o == Done ==> At(kernel, Priorities(Elements(rules))) == []
    {
      ghost var before, priorities := kernel, Priorities(Elements(rules));
      assert before[0..] == before;
      for i := 0 to |listed|
        invariant Away(kernel, priorities) == Away(before, priorities)
        invariant At(kernel, priorities) == At(before[i..], priorities)
        invariant forall e :: e in kernel ==> e in before
        invariant faults == old(faults)
      {
        assert before[i..][1..] == before[i + 1..];
        assert before[i] in before;
        var rule := InstalledIpRule(listed[i]);
        if rule.None? || rule.value !in rules {
          continue;
        }
        ManagedMatches(before[i]);
        DeleteFirstTakesHead(kernel, rule.value, priorities);
        o := DeleteRule(rule.value);
        if o != Done {
          return;
        }
      }
      o := Done;
    }

    method AddAll(desired: seq<Rule>, ghost priorities: set<int>) returns (o: Outcome)
      requires AllWellFormed(kernel) && AllValid(desired)
      requires Priorities(Elements(desired)) <= priorities && At(kernel, priorities) == []
      modifies this`kernel, this`faults
      ensures faults == old(faults) + Faults(o)
      ensures AllWellFormed(kernel)
      ensures Away(kernel, priorities) == Away(old(kernel), priorities)
      ensures Covered(kernel, priorities, Elements(desired))
      ensures o == Done ==> Exactly(kernel, priorities, desired)
    {
      var rules := UniqueIpRules(desired);
      assert rules[..0] == [] && rules[..|rules|] == rules;
      for i := 0 to |rules|
        invariant Adding(kernel, old(kernel), priorities, desired, rules[..i]) && faults == old(faults)
      {
        ghost var before := kernel;
        assert rules[i] in desired;
        o := AddRule(rules[i]);
        AddingStep(before, kernel, old(kernel), priorities, desired, rules, i);
        if o != Done {
          return;
        }
      }
      o := Done;
    }

    /** A reconcile over all that the journal names. */
    method ReconcileJournaled(cleanup: seq<Rule>, desired: seq<Rule>) returns (o: Outcome)
      requires Valid() && AllValid(desired) && Elements(cleanup) + Elements(desired) == Journal(saved)
      modifies this`kernel, this`owned, this`flushed, this`faults
      ensures o == Done ==> flushed == kernel
      ensures Blamed(old(kernel), Journal(saved), o, old(faults), faults)
      ensures AllWellFormed(kernel) && Sound(kernel, owned, initial, Journal(saved))
      ensures
        var priorities := Priorities(Journal(saved));
        Covered(old(kernel), priorities, Journal(saved)) ==> Covered(kernel, priorities, Journal(saved))
      ensures Within(old(kernel), old(owned), kernel, owned, Priorities(Journal(saved)))
      ensures Guarded(old(kernel), old(owned), Journal(saved), o, kernel, owned)
      ensures o == Done ==>
        && Exactly(kernel, owned, desired) && Covered(kernel, owned, Elements(desired))
        && owned == old(owned) + Priorities(Journal(saved))
      ensures Journal(saved) == {} ==> kernel == old(kernel) && owned == old(owned)
    {
      ghost var before, ownedBefore, known := kernel, owned, Journal(saved);
      o := Reconcile(cleanup, desired);
      ReconciledIsSound(before, ownedBefore, initial, known, known, desired, o, kernel, owned);
      hide Sound, Covered, Exactly, Away, At, Managed, Installed, Unique;
      if known == {} {
        NothingReconciled(before, kernel, known);
      }
      if o == Done {
        ExactIsCovered(kernel, owned, desired);
      }
    }

    /** Puts the previous rules back and closes the journal. */
    method RollBack(cleanup: seq<Rule>, previous: SavedState) returns (o: Outcome)
      requires Valid() && AllValid(previous.rules)
      requires saved == Some(previous.(cleanup := cleanup))
      requires Elements(previous.rules) <= Elements(cleanup)
      modifies this
      ensures Valid() && initial == old(initial)
      ensures Within(old(kernel), old(owned), kernel, owned, Priorities(Elements(cleanup)))
      ensures Guarded(old(kernel), old(owned), Elements(cleanup), o, kernel, owned)
      ensures Blamed(old(kernel), Elements(cleanup), o, old(faults), faults)
      ensures saved == old(saved) || (saved == Some(previous.(cleanup := [])) && Settled())
      ensures o == Done ==>
        && saved == Some(previous.(cleanup := [])) && Settled() && flushed == kernel
        && owned == old(owned) + Priorities(Elements(cleanup))
      ensures cleanup == [] ==> kernel == old(kernel) && owned == old(owned)
    {
      hide Sound, Covered, Exactly, Away, At, Managed, Installed, Unique, Priorities;
      assert Elements(cleanup) + Elements(previous.rules) == Elements(cleanup) == Journal(saved);
      o := ReconcileJournaled(cleanup, previous.rules);
      if o == Done {
        SettledIsSound(kernel, owned, initial, Journal(saved), previous.rules);
        o := Save(previous.(cleanup := []));
      }
    }

    /** The candidate rules, from the open journal to the commit. */
    method Install(cleanup: seq<Rule>, previous: SavedState, desired: seq<Rule>) returns (o: Outcome)
      requires Valid() && AllValid(desired)
      requires saved == Some(previous.(cleanup := cleanup))
      requires Elements(previous.rules) + Elements(desired) <= Elements(cleanup)
      modifies this
      ensures Valid() && initial == old(initial)
      ensures Within(old(kernel), old(owned), kernel, owned, Priorities(Elements(cleanup)))
      ensures Guarded(old(kernel), old(owned), Elements(cleanup), o, kernel, owned)
      ensures Blamed(old(kernel), Elements(cleanup), o, old(faults), faults)
      ensures
        var known := Elements(cleanup);
        Covered(old(kernel), Priorities(known), known) ==> Covered(kernel, Priorities(known), known)
      ensures saved == old(saved) || (o != Failed && saved == Some(SavedState(Unique(desired), [])) && Settled())
      ensures o == Done ==>
        && saved == Some(SavedState(Unique(desired), [])) && Settled() && flushed == kernel
        && owned == old(owned) + Priorities(Elements(cleanup))
      ensures cleanup == [] ==> kernel == old(kernel) && owned == old(owned)
    {
      hide Sound, Covered, Exactly, Away, At, Managed, Installed, Priorities;
      assert Elements(cleanup) + Elements(desired) == Elements(cleanup) == Journal(saved);
      o := ReconcileJournaled(cleanup, desired);
      if o == Done {
        SettledIsSound(kernel, owned, initial, Journal(saved), desired);
        var committed := UniqueIpRules(desired);
        o := Save(SavedState(committed, []));
      }
    }

    /**
     * One update request. It touches only priorities of rules it names or the journal knows, and whatever goes wrong,
     * the journal still covers all the agent may have left behind. A single fault is undone: either nothing was
     * changed yet, or the kernel again holds exactly the previous rules at all those priorities.
     */
    method Apply(remove: seq<Rule>, desired: seq<Rule>) returns (o: Outcome)
      requires Valid() && AllValid(remove) && AllValid(desired)
      modifies this
      ensures Valid() && initial == old(initial)
      ensures
        var known := Journal(old(saved)) + Elements(remove) + Elements(desired);
        && Within(old(kernel), old(owned), kernel, owned, Priorities(known))
        && Guarded(old(kernel), old(owned), known, o, kernel, owned)
        && ForeignKept(old(kernel), kernel, known)
        && Blamed(old(kernel), known, o, old(faults), faults)
        && Journal(saved) <= known
        && (o == Done ==> owned == old(owned) + Priorities(known))
      ensures saved == old(saved) || (saved.Some? && RulesOf(saved) in {RulesOf(old(saved)), Unique(desired)})
      ensures
        var known := Journal(old(saved)) + Elements(remove) + Elements(desired);
        o == Failed && faults == old(faults) + 1 && Covered(old(kernel), Priorities(known), known) ==>
          || (saved == old(saved) && kernel == old(kernel) && owned == old(owned))
          || (&& saved == Some(SavedState(RulesOf(old(saved)), [])) && Settled()
              && owned == old(owned) + Priorities(known))
      ensures o == Done ==> saved == Some(SavedState(Unique(desired), [])) && Settled() && flushed == kernel
      ensures o == Done ==> forall r :: r in remove && r !in desired ==> Installed(r) !in kernel
      ensures old(Settled()) && CleanupOf(saved) == [] ==> Settled()
    {
      hide Sound, Covered, Exactly, Away, At, Managed, Installed, Unique, Priorities;
      var previous;
      o, previous := Read();
      if o != Done {
        return;
      }
      var cleanup := UniqueIpRules(previous.cleanup + previous.rules + remove + desired);
      ghost var known := Journal(old(saved)) + Elements(remove) + Elements(desired);
      assert Elements(cleanup) == known;
      SoundWithMore(kernel, owned, initial, Journal(saved), known);
      assert Journal(Some(previous.(cleanup := cleanup))) == known;
      o := Save(previous.(cleanup := cleanup));
      if o != Done {
        return;
      }
      o := InstallOrRollBack(cleanup, previous, desired);
      if o == Done {
        RemovedAreGone(kernel, owned, initial, Journal(saved), known, remove, desired);
      }
    }

    /** After any failure the previous rules are put back. */
    method InstallOrRollBack(cleanup: seq<Rule>, previous: SavedState, desired: seq<Rule>) returns (o: Outcome)
      requires Valid() && AllValid(previous.rules) && AllValid(desired)
      requires saved == Some(previous.(cleanup := cleanup))
      requires Elements(previous.rules) + Elements(desired) <= Elements(cleanup)
      modifies this
      ensures Valid() && initial == old(initial)
      ensures Within(old(kernel), old(owned), kernel, owned, Priorities(Elements(cleanup)))
      ensures Guarded(old(kernel), old(owned), Elements(cleanup), o, kernel, owned)
      ensures ForeignKept(old(kernel), kernel, Elements(cleanup))
      ensures Blamed(old(kernel), Elements(cleanup), o, old(faults), faults)
      ensures
        var known := Elements(cleanup);
        o == Failed && faults == old(faults) + 1 && Covered(old(kernel), Priorities(known), known) ==>
          && saved == Some(previous.(cleanup := [])) && Settled()
          && owned == old(owned) + Priorities(known)
      ensures saved == old(saved)
        || (o != Done && saved == Some(previous.(cleanup := [])) && Settled())
        || (o != Failed && saved == Some(SavedState(Unique(desired), [])) && Settled())
      ensures o == Done ==>
        && saved == Some(SavedState(Unique(desired), [])) && Settled() && flushed == kernel
        && owned == old(owned) + Priorities(Elements(cleanup))
      ensures cleanup == [] ==> kernel == old(kernel) && owned == old(owned)
    {
      hide Sound, Covered, Exactly, Away, At, Managed, Installed, Unique, Priorities;
      ghost var before, ownedBefore := kernel, owned;
      o := Install(cleanup, previous, desired);
      if o == Failed {
        o := RollBack(cleanup, previous);
        o := if o == Crashed then Crashed else Failed;
      }
      GuardedKeepsForeign(before, ownedBefore, Elements(cleanup), o, kernel, owned);
    }

    /** Recovery at startup. */
    method Restore() returns (o: Outcome)
      requires Valid()
      modifies this
      ensures Valid() && initial == old(initial)
      ensures Within(old(kernel), old(owned), kernel, owned, Priorities(Journal(old(saved))))
      ensures Guarded(old(kernel), old(owned), Journal(old(saved)), o, kernel, owned)
      ensures ForeignKept(old(kernel), kernel, Journal(old(saved)))
      ensures Blamed(old(kernel), Journal(old(saved)), o, old(faults), faults)
      ensures saved == old(saved) || saved == Some(SavedState(RulesOf(old(saved)), []))
      ensures o == Done ==>
        && Settled() && CleanupOf(saved) == [] && owned == old(owned) + Priorities(Journal(old(saved)))
        && (old(saved).Some? ==> flushed == kernel)
      ensures old(saved).None? ==> o == Done && saved.None? && kernel == old(kernel) && owned == old(owned)
    {
      hide Sound, Covered, Exactly, Away, At, Managed, Installed, Unique, Priorities, Foreign;
      if saved.None? {
        NothingToRestore(kernel);
        assert Journal(saved) == {};
        return Done;
      }
      var state;
      o, state := Read();
      if o != Done {
        return;
      }
      ghost var before, ownedBefore := kernel, owned;
      var cleanup := UniqueIpRules(state.cleanup + state.rules);
      assert Elements(cleanup) + Elements(state.rules) == Journal(saved);
      o := ReconcileJournaled(cleanup, state.rules);
      GuardedKeepsForeign(before, ownedBefore, Journal(saved), o, kernel, owned);
      if o != Done {
        return;
      }
      SettledIsSound(kernel, owned, initial, Journal(saved), state.rules);
      if |state.cleanup| > 0 {
        o := Save(state.(cleanup := []));
      }
    }

    /** The machine restarts: the kernel's rules are whatever boot leaves there. */
    method Reboot(found: seq<KernelRule>)
      requires Valid() && AllWellFormed(found)
      modifies this`kernel, this`initial, this`owned
      ensures Valid() && kernel == found == initial && owned == {}
    {
      kernel, initial, owned := found, found, {};
    }

    method Perform(request: Request) returns (o: Outcome)
      requires Valid() && request.Valid()
      modifies this
      ensures Valid()
      ensures Confined(
        old(kernel), old(owned), kernel, owned, Journal(saved), Journal(old(saved)) + Named(request), !request.Reboot?)
      ensures !request.Reboot? && o == Done ==> Quiet()
      ensures RulesOf(saved) == RulesOf(old(saved)) || (request.Update? && RulesOf(saved) == Unique(request.desired))
    {
      hide Sound, Covered, Exactly, Away, At, Unique, Priorities, AllWellFormed;
      ghost var journal := Journal(saved);
      assert journal + {} == journal;
      match request
      case Update(remove, desired) =>
        assert journal + (Elements(remove) + Elements(desired)) == journal + Elements(remove) + Elements(desired);
        o := Apply(remove, desired);
      case Restart => o := Restore();
      case Reboot(found) =>
        Reboot(found);
        o := Done;
    }

    /** The journal is closed and the kernel holds the saved rules. */
    ghost predicate Quiet()
      reads this
    {
      CleanupOf(saved) == [] && Settled()
    }

    /** Any history of updates, agent restarts and reboots, each free to fail or crash at any step. */
    method Run(requests: seq<Request>) returns (outcomes: seq<Outcome>)
      requires Valid()
      requires forall q :: q in requests ==> q.Valid()
      modifies this
      ensures Valid() && |outcomes| == |requests|
      ensures Confined(
        old(kernel), old(owned), kernel, owned,
        Journal(saved), Journal(old(saved)) + AllNamed(requests), NoReboot(requests))
      ensures requests != [] && !requests[|requests| - 1].Reboot? && outcomes[|requests| - 1] == Done ==> Quiet()
      ensures RulesOf(saved) == RulesOf(old(saved)) || Requested(requests, RulesOf(saved))
    {
      hide Sound, Covered, Exactly, Away, At, Unique, AllWellFormed, Confined, Journal;
      outcomes := [];
      ConfinedStart(kernel, owned, Journal(saved), requests);
      for i := 0 to |requests|
        invariant Valid() && |outcomes| == i
        invariant Confined(
          old(kernel), old(owned), kernel, owned, Journal(saved),
          Journal(old(saved)) + AllNamed(requests[..i]), NoReboot(requests[..i]))
        invariant i > 0 && !requests[i - 1].Reboot? && outcomes[i - 1] == Done ==> Quiet()
        invariant RulesOf(saved) == RulesOf(old(saved)) || Requested(requests, RulesOf(saved))
      {
        ghost var journal, before, ownedBefore := Journal(saved), kernel, owned;
        var o := Perform(requests[i]);
        outcomes := outcomes + [o];
        ConfinedStep(old(kernel), old(owned), before, ownedBefore, kernel, owned, journal, Journal(saved),
                     Journal(old(saved)), requests, i);
      }
      assert requests[..|requests|] == requests;
    }
  }

  /** Nothing changed at any other priority, and the agent owns at most these in addition. */
  ghost predicate Within(
    before: seq<KernelRule>, ownedBefore: set<int>, after: seq<KernelRule>, ownedAfter: set<int>, priorities: set<int>)
  {
    && Away(after, priorities) == Away(before, priorities)
    && ownedBefore <= ownedAfter <= ownedBefore + priorities
  }

  lemma WithinChain(
    first: seq<KernelRule>, ownedFirst: set<int>, second: seq<KernelRule>, ownedSecond: set<int>,
    third: seq<KernelRule>, ownedThird: set<int>, some: set<int>, more: set<int>, all: set<int>)
    requires Within(first, ownedFirst, second, ownedSecond, some)
      && Within(second, ownedSecond, third, ownedThird, more)
    requires some <= all && more <= all
    ensures Within(first, ownedFirst, third, ownedThird, all)
  {
    AwayMore(first, second, some, all);
    AwayMore(second, third, more, all);
  }

  /** What a stretch of history may have changed: the journal names nothing new, and unless the machine rebooted,
      the kernel is as before at every priority of no known rule, and of any rule that is not a known one. */
  ghost predicate Confined(
    before: seq<KernelRule>, ownedBefore: set<int>, after: seq<KernelRule>, ownedAfter: set<int>,
    journal: set<Rule>, known: set<Rule>, framed: bool)
    requires AllWellFormed(before)
  {
    && journal <= known && ownedAfter <= ownedBefore + Priorities(known)
    && (framed ==>
         Within(before, ownedBefore, after, ownedAfter, Priorities(known)) && ForeignKept(before, after, known))
  }

  lemma ConfinedStart(kernel: seq<KernelRule>, owned: set<int>, journal: set<Rule>, requests: seq<Request>)
    requires AllWellFormed(kernel)
    ensures Confined(kernel, owned, kernel, owned, journal, journal + AllNamed(requests[..0]), NoReboot(requests[..0]))
  {
    assert journal + {} == journal;
  }

  lemma ConfinedStep(
    first: seq<KernelRule>, ownedFirst: set<int>, second: seq<KernelRule>, ownedSecond: set<int>,
    third: seq<KernelRule>, ownedThird: set<int>, journal: set<Rule>, journalAfter: set<Rule>, start: set<Rule>,
    requests: seq<Request>, i: nat)
    requires i < |requests| && AllWellFormed(first) && AllWellFormed(second)
    requires Confined(
      first, ownedFirst, second, ownedSecond, journal, start + AllNamed(requests[..i]), NoReboot(requests[..i]))
    requires Confined(
      second, ownedSecond, third, ownedThird, journalAfter, journal + Named(requests[i]), !requests[i].Reboot?)
    ensures Confined(
      first, ownedFirst, third, ownedThird,
      journalAfter, start + AllNamed(requests[..i + 1]), NoReboot(requests[..i + 1]))
  {
    var known, named := start + AllNamed(requests[..i]), Named(requests[i]);
    assert requests[..i + 1] == requests[..i] + [requests[i]] && requests[..i + 1][..i] == requests[..i];
    assert known + named == start + AllNamed(requests[..i + 1]);
    PrioritiesGrow(journal, known, named);
    if NoReboot(requests[..i + 1]) {
      assert NoReboot(requests[..i]);
      WithinChain(first, ownedFirst, second, ownedSecond, third, ownedThird,
                  Priorities(known), Priorities(journal + named), Priorities(known + named));
      ForeignChain(first, second, third, known, journal + named, known + named);
    }
  }

  lemma PrioritiesGrow(journal: set<Rule>, known: set<Rule>, named: set<Rule>)
    requires journal <= known
    ensures Priorities(journal + named) <= Priorities(known + named) && Priorities(known) <= Priorities(known + named)
  {
  }

  /** The rules a request names. */
  function Named(request: Request): set<Rule> {
    if request.Update? then Elements(request.remove) + Elements(request.desired) else {}
  }

  function AllNamed(requests: seq<Request>): set<Rule> {
    if requests == [] then {} else AllNamed(requests[..|requests| - 1]) + Named(requests[|requests| - 1])
  }

  predicate NoReboot(requests: seq<Request>) {
    forall q :: q in requests ==> !q.Reboot?
  }

  lemma RemovedAreGone(
    kernel: seq<KernelRule>, owned: set<int>, initial: seq<KernelRule>, journal: set<Rule>, known: set<Rule>,
    remove: seq<Rule>, desired: seq<Rule>)
    requires Sound(kernel, owned, initial, journal) && Exactly(kernel, owned, Unique(desired)) && AllValid(remove)
    requires Priorities(known) <= owned && Elements(remove) <= known
    ensures forall r :: r in remove && r !in desired ==> Installed(r) !in kernel
  {
    ExactIsCovered(kernel, owned, Unique(desired));
    forall r | r in remove && r !in desired
      ensures Installed(r) !in kernel
    {
      ManagedInstalled(r);
      assert r in known && r.priority in Priorities(known);
      hide Managed, Installed, Unique;
    }
  }

  /** These rules are what one of the requests asked for. */
  ghost predicate Requested(requests: seq<Request>, rules: seq<Rule>) {
    exists q :: q in requests && q.Update? && rules == Unique(q.desired)
  }

  datatype Request = Update(remove: seq<Rule>, desired: seq<Rule>) | Restart | Reboot(found: seq<KernelRule>) {
    predicate Valid() {
      match this
      case Update(remove, desired) => AllValid(remove) && AllValid(desired)
      case Restart => true
      case Reboot(found) => AllWellFormed(found)
    }
  }

  // ----- Why saves must be atomic

  /** A save that may have been written although it failed, as when the directory sync after the rename does. */
  predicate LooselySaved(
    before: Option<SavedState>, state: SavedState, o: Outcome, after: Option<SavedState>)
  {
    after == Some(state) || (o != Done && after == before)
  }

  /** An update that installed its rules, could not save them, and put the previous ones back. */
  ghost predicate RolledBack(
    journal: set<Rule>, previous: seq<Rule>, desired: seq<Rule>,
    kernel: seq<KernelRule>, owned: set<int>, installed: seq<KernelRule>, back: seq<KernelRule>, ownedBack: set<int>)
  {
    && AllWellFormed(kernel) && AllWellFormed(installed) && AllWellFormed(back)
    && AllValid(previous) && AllValid(desired) && Elements(previous) + Elements(desired) <= journal
    && Reconciled(kernel, owned, journal, desired, Done, installed, ownedBack)
    && Reconciled(installed, ownedBack, journal, previous, Done, back, ownedBack)
  }

  /** A restore from this file can succeed. */
  ghost predicate Restorable(kernel: seq<KernelRule>, owned: set<int>, file: Option<SavedState>)
    requires AllWellFormed(kernel)
  {
    exists after, ownedAfter :: AllWellFormed(after)
      && Reconciled(kernel, owned, Journal(file), RulesOf(file), Done, after, ownedAfter)
  }

  /** The kernel after a reconcile that nothing interrupted. */
  function Replaced(kernel: seq<KernelRule>, priorities: set<int>, desired: seq<Rule>): seq<KernelRule>
    requires AllValid(desired)
  {
    Away(kernel, priorities) + InstalledAll(Unique(desired))
  }

  lemma {:induction false} AllAt(part: seq<KernelRule>, priorities: set<int>)
    requires forall e :: e in part ==> e.priority in priorities
    ensures At(part, priorities) == part && Away(part, priorities) == []
  {
    if part != [] {
      AllAt(part[1..], priorities);
    }
  }

  lemma {:induction false} NoneAt(part: seq<KernelRule>, priorities: set<int>)
    requires forall e :: e in part ==> e.priority !in priorities
    ensures At(part, priorities) == [] && Away(part, priorities) == part
  {
    if part != [] {
      NoneAt(part[1..], priorities);
    }
  }

  lemma InstalledHere(desired: seq<Rule>, rules: set<Rule>)
    requires AllValid(desired) && Elements(desired) <= rules
    ensures
      forall e :: e in InstalledAll(desired) ==>
        e.Valid() && e.priority in Priorities(rules) && Managed(e).Some? && Managed(e).value in desired
    ensures forall r :: r in desired ==> Installed(r) in InstalledAll(desired)
  {
    var entries := InstalledAll(desired);
    hide Managed, Installed, InstalledAll;
    forall e | e in entries
      ensures e.Valid() && e.priority in Priorities(rules) && Managed(e).Some? && Managed(e).value in desired
    {
      var i :| 0 <= i < |entries| && entries[i] == e;
      ManagedInstalled(desired[i]);
      assert desired[i] in Elements(desired);
    }
    forall r | r in desired
      ensures Installed(r) in entries
    {
      var i :| 0 <= i < |desired| && desired[i] == r;
      assert entries[i] == Installed(r);
    }
  }

  lemma ReplacedParts(kernel: seq<KernelRule>, priorities: set<int>, desired: seq<Rule>)
    requires AllValid(desired) && Priorities(Elements(desired)) <= priorities
    ensures
      var entries, after := InstalledAll(Unique(desired)), Replaced(kernel, priorities, desired);
      && At(after, priorities) == entries && Away(after, priorities) == Away(kernel, priorities)
      && forall e :: e in after ==>
           || (e in kernel && e.priority !in priorities)
           || (e.Valid() && Managed(e).Some? && Managed(e).value in desired)
  {
    var others, entries := Away(kernel, priorities), InstalledAll(Unique(desired));
    ElementsOfUnique(desired);
    InstalledHere(Unique(desired), Elements(desired));
    assert forall e :: e in others ==> e in kernel && e.priority !in priorities;
    hide Managed, Installed, InstalledAll, Priorities, Unique, At, Away;
    AllAt(entries, priorities);
    NoneAt(others, priorities);
    AtOfConcat(others, entries, priorities);
    AwayOfConcat(others, entries, priorities);
    assert others + [] == others && [] + entries == entries;
    assert forall e :: e in others + entries ==> e in others || e in entries;
  }

  /** Without a foreign rule a reconcile can always succeed. */
  lemma ReconcileCanSucceed(kernel: seq<KernelRule>, owned: set<int>, rules: set<Rule>, desired: seq<Rule>)
    requires AllWellFormed(kernel) && AllValid(desired) && Elements(desired) <= rules
    requires Covered(kernel, Priorities(rules), rules)
    ensures
      var after := Replaced(kernel, Priorities(rules), desired);
      AllWellFormed(after) && Reconciled(kernel, owned, rules, desired, Done, after, owned + Priorities(rules))
  {
    assert Priorities(Elements(desired)) <= Priorities(rules);
    assert AllValid(Unique(desired));
    ReplacedParts(kernel, Priorities(rules), desired);
    hide Managed, Installed, InstalledAll, Priorities, Unique, At, Away, Replaced;
  }

  lemma RestorableIff(kernel: seq<KernelRule>, owned: set<int>, file: Option<SavedState>)
    requires AllWellFormed(kernel) && AllValid(RulesOf(file))
    ensures Restorable(kernel, owned, file) <==> Covered(kernel, Priorities(Journal(file)), Journal(file))
  {
    hide Covered, Exactly, Away, Priorities;
    if Covered(kernel, Priorities(Journal(file)), Journal(file)) {
      ReconcileCanSucceed(kernel, owned, Journal(file), RulesOf(file));
    }
  }

  /**
   * After a roll-back whose commit was reported as failed, and whose own save may have failed or never been made, a
   * restore can still succeed unless the file was left with the new rules alone, and one of the previous rules, which
   * the kernel holds again, is not among them but shares a priority with them.
   */
  lemma RestorableAfterLooseSaves(
    previous: SavedState, journal: seq<Rule>, desired: seq<Rule>,
    kernel: seq<KernelRule>, owned: set<int>, installed: seq<KernelRule>, back: seq<KernelRule>, ownedBack: set<int>,
    middle: Option<SavedState>, o: Outcome, file: Option<SavedState>)
    requires RolledBack(Elements(journal), previous.rules, desired, kernel, owned, installed, back, ownedBack)
    requires LooselySaved(Some(previous.(cleanup := journal)), SavedState(Unique(desired), []), Failed, middle)
    requires LooselySaved(middle, previous.(cleanup := []), o, file)
    ensures Restorable(back, ownedBack, file) <==>
      (file == Some(SavedState(Unique(desired), [])) ==>
         forall r :: r in previous.rules && r.priority in Priorities(Elements(desired)) ==> r in desired)
  {
    var known, committed := Journal(file), SavedState(Unique(desired), []);
    assert file != Some(committed) ==> Elements(previous.rules) <= known <= Elements(journal);
    assert file == Some(committed) ==> known == Elements(desired);
    RestorableIff(back, ownedBack, file);
    BackIsCovered(back, Elements(journal), previous.rules, known);
    hide Covered, Exactly, Reconciled, Restorable, Journal, Unique;
    assert forall r :: r in previous.rules ==> r in Elements(previous.rules);
  }

  lemma BackIsCovered(back: seq<KernelRule>, journal: set<Rule>, previous: seq<Rule>, known: set<Rule>)
    requires AllWellFormed(back) && AllValid(previous) && Exactly(back, Priorities(journal), previous)
    requires known <= journal
    ensures Covered(back, Priorities(known), known) <==>
      forall r :: r in previous && r.priority in Priorities(known) ==> r in known
  {
    ExactIsCovered(back, Priorities(journal), previous);
    PreviousIsBack(back, journal, previous);
    assert Priorities(known) <= Priorities(journal);
    forall e | e in back && e.priority in Priorities(known)
      ensures Managed(e).Some? && Managed(e).value in previous && Managed(e).value.priority == e.priority
    {
      assert Managed(e).value in Elements(previous);
      ManagedMatches(e);
    }
    hide Exactly, Managed, Installed, Priorities;
  }

  lemma PreviousIsBack(back: seq<KernelRule>, journal: set<Rule>, previous: seq<Rule>)
    requires AllWellFormed(back) && AllValid(previous) && Exactly(back, Priorities(journal), previous)
    ensures forall r :: r in previous ==> Installed(r) in back && Managed(Installed(r)) == Some(r)
  {
    var entries := InstalledAll(Unique(previous));
    InstalledHere(Unique(previous), Elements(previous));
    hide InstalledAll, Unique, At, Managed, Installed;
    forall r | r in previous
      ensures Installed(r) in back && Managed(Installed(r)) == Some(r)
    {
      ManagedInstalled(r);
      assert Installed(r) in multiset(entries);
      assert Installed(r) in At(back, Priorities(journal));
    }
  }

  /** Over a kernel without foreign rules such an update can happen. */
  lemma RollBackHappens(
    journal: set<Rule>, previous: seq<Rule>, desired: seq<Rule>, kernel: seq<KernelRule>, owned: set<int>)
    requires AllWellFormed(kernel) && Covered(kernel, Priorities(journal), journal)
    requires AllValid(previous) && AllValid(desired) && Elements(previous) + Elements(desired) <= journal
    ensures
      var priorities := Priorities(journal);
      var installed := Replaced(kernel, priorities, desired);
      RolledBack(journal, previous, desired, kernel, owned,
        installed, Replaced(installed, priorities, previous), owned + priorities)
  {
    hide Replaced, Priorities, Elements, Covered, Exactly;
    var priorities := Priorities(journal);
    ReconcileCanSucceed(kernel, owned, journal, desired);
    ReconcileCanSucceed(Replaced(kernel, priorities, desired), owned + priorities, journal, previous);
    assert owned + priorities + priorities == owned + priorities;
  }

  /**
   * And it can end badly: one rule is replaced by another of its priority, the commit is written but reported as failed
   * (the directory sync at agent/bird.go:495 comes after the rename), the roll-back puts the old rule back, and its
   * save (agent/network_state.go:252-254) fails or is cut off. No restore from that file can succeed.
   */
  lemma ReportedFailureAfterRenameStrandsRules(previous: Rule, next: Rule, kernel: seq<KernelRule>, owned: set<int>)
    requires previous.Valid() && next.Valid() && previous != next && previous.priority == next.priority
    requires AllWellFormed(kernel) && Covered(kernel, {next.priority}, {previous, next})
    ensures
      var before, journal, committed := SavedState([previous], []), [previous, next], SavedState([next], []);
      var installed := Replaced(kernel, {next.priority}, [next]);
      var back, ownedBack := Replaced(installed, {next.priority}, [previous]), owned + {next.priority};
      && RolledBack(Elements(journal), before.rules, [next], kernel, owned, installed, back, ownedBack)
      && LooselySaved(Some(before.(cleanup := journal)), committed, Failed, Some(committed))
      && LooselySaved(Some(committed), before, Failed, Some(committed))
      && !Restorable(back, ownedBack, Some(committed))
  {
    var before, journal, committed := SavedState([previous], []), [previous, next], SavedState([next], []);
    assert Elements(journal) == {previous, next} && Priorities(Elements(journal)) == {next.priority};
    var installed := Replaced(kernel, {next.priority}, [next]);
    var back, ownedBack := Replaced(installed, {next.priority}, [previous]), owned + {next.priority};
    assert [next][..0] == [] && Unique([next]) == [next];
    assert next in Elements([next]) && previous in before.rules && previous !in [next];
    assert next.priority in Priorities(Elements([next]));
    hide Replaced, Unique, Covered, Restorable, Elements, Priorities, RolledBack;
    RollBackHappens(Elements(journal), before.rules, [next], kernel, owned);
    RestorableAfterLooseSaves(before, journal, [next], kernel, owned, installed, back, ownedBack,
                              Some(committed), Failed, Some(committed));
  }

  ghost predicate Inserted(before: seq<KernelRule>, e: KernelRule, after: seq<KernelRule>) {
    exists i :: 0 <= i <= |before| && after == before[..i] + [e] + before[i..]
  }

  /** The kernel while desired rules are added to priorities found empty. */
  ghost predicate Adding(
    kernel: seq<KernelRule>, start: seq<KernelRule>, priorities: set<int>, desired: seq<Rule>, added: seq<Rule>)
  {
    && AllWellFormed(kernel) && AllValid(added)
    && Away(kernel, priorities) == Away(start, priorities)
    && Covered(kernel, priorities, Elements(desired))
    && multiset(At(kernel, priorities)) == multiset(InstalledAll(added))
  }

  lemma AddingStep(before: seq<KernelRule>, after: seq<KernelRule>, start: seq<KernelRule>, priorities: set<int>,
                   desired: seq<Rule>, rules: seq<Rule>, i: nat)
    requires i < |rules| && AllValid(rules) && rules[i] in desired && rules[i].priority in priorities
    requires Adding(before, start, priorities, desired, rules[..i])
    requires after == before || Inserted(before, Installed(rules[i]), after)
    ensures Adding(after, start, priorities, desired,
      if Inserted(before, Installed(rules[i]), after) then rules[..i + 1] else rules[..i])
  {
    if Inserted(before, Installed(rules[i]), after) {
      var e := Installed(rules[i]);
      InsertedParts(before, e, after, priorities);
      ManagedInstalled(rules[i]);
      assert rules[..i + 1][..i] == rules[..i];
      hide Managed, Installed, Inserted, At, Away;
      assert InstalledAll(rules[..i + 1]) == InstalledAll(rules[..i]) + [e];
      assert Covered(after, priorities, Elements(desired));
    }
  }

  lemma InsertedParts(before: seq<KernelRule>, e: KernelRule, after: seq<KernelRule>, priorities: set<int>)
    requires Inserted(before, e, after) && e.priority in priorities
    ensures Away(after, priorities) == Away(before, priorities)
    ensures multiset(At(after, priorities)) == multiset(At(before, priorities)) + multiset{e}
    ensures forall x :: x in after ==> x in before || x == e
  {
    var i :| 0 <= i <= |before| && after == before[..i] + [e] + before[i..];
    var left, right := before[..i], before[i..];
    assert before == left + right;
    InsertedAt(left, e, right, priorities);
    InsertedAway(left, e, right, priorities);
  }

  lemma InsertedAt(left: seq<KernelRule>, e: KernelRule, right: seq<KernelRule>, priorities: set<int>)
    requires e.priority in priorities
    ensures multiset(At(left + [e] + right, priorities)) == multiset(At(left + right, priorities)) + multiset{e}
  {
    AtOfConcat(left, right, priorities);
    AtOfConcat(left + [e], right, priorities);
    AtOfConcat(left, [e], priorities);
  }

  lemma InsertedAway(left: seq<KernelRule>, e: KernelRule, right: seq<KernelRule>, priorities: set<int>)
    requires e.priority in priorities
    ensures Away(left + [e] + right, priorities) == Away(left + right, priorities)
  {
    AwayOfConcat(left, right, priorities);
    AwayOfConcat(left + [e], right, priorities);
    AwayOfConcat(left, [e], priorities);
    assert Away(left, priorities) + [] == Away(left, priorities);
  }
}
