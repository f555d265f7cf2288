/** The agent's switching of configuration links and the collection of old versions (agent/bird.go), in include mode. */
module NodeFiles {
  import opened Wrappers

  /** Every managed name has an active path, a staged candidate and a copy kept for one rollback. */
  datatype Slot = Active | Candidate | Rollback

  /** Version files are named by a hash of their content, taken as injective. */
  datatype Path =
    | Generated(slot: Slot)
    | Resource(name: string, slot: Slot)
    | MainVersion(content: string)
    | ResourceVersion(name: string, content: string)
    | Elsewhere(path: string)
  {
    predicate Managed() {
      Generated? || Resource?
    }
  }

  datatype Entry = Link(target: Path) | File(data: string)

  type Files = map<Path, Entry>

  datatype Outcome = Done | Failed | Crashed

  /** Only being cut off counts as a crash. */
  predicate CutOff(o: Outcome, before: nat, after: nat) {
    after == before + if o == Crashed then 1 else 0
  }

  datatype Staged = Staged(name: string, content: string)

  datatype Bundle = Bundle(main: string, resources: seq<Staged>, removed: seq<string>)

  datatype Task = StageTask(bundle: Bundle) | ApplyTask(bundle: Bundle) | UndoTask(bundle: Bundle)

  function EntryAt(fs: Files, p: Path): Option<Entry> {
    if p in fs then Some(fs[p]) else None
  }

  /** A link from a managed path leads to an existing file of its own kind. */
  predicate LinkFits(fs: Files, p: Path, target: Path) {
    && (p.Generated? ==> target.MainVersion? || target.Elsewhere?)
    && (p.Resource? ==> target.ResourceVersion? || target.Elsewhere?)
    && target in fs && fs[target].File?
  }

  predicate EntryFits(fs: Files, p: Path, e: Entry) {
    match p
    case Generated(slot) => (slot.Candidate? ==> e.Link?) && (e.Link? ==> LinkFits(fs, p, e.target))
    case Resource(_, slot) => (slot.Candidate? ==> e.Link?) && (e.Link? ==> LinkFits(fs, p, e.target))
    case MainVersion(content) => e == File(content)
    case ResourceVersion(_, content) => e == File(content)
    case Elsewhere(_) => e.File?
  }

  /** No managed link dangles, and every version file holds the content it is named after. */
  predicate Sound(fs: Files) {
    forall p :: p in fs ==> EntryFits(fs, p, fs[p])
  }

  /** The content BIRD reads at a path. */
  function Resolve(fs: Files, p: Path): Option<string> {
    if p !in fs then None
    else
      match fs[p]
      case File(data) => Some(data)
      case Link(target) => if target in fs && fs[target].File? then Some(fs[target].data) else None
  }

  /** Files outside the managed names are all still there. */
  predicate KeepsFiles(before: Files, after: Files) {
    forall p :: p in before && !p.Managed() ==> p in after && after[p] == before[p]
  }

  /** Only these paths may differ. */
  ghost predicate OnlyChanged(before: Files, after: Files, paths: set<Path>) {
    forall p :: p !in paths ==> EntryAt(after, p) == EntryAt(before, p)
  }

  // ----- Garbage

  function Targets(fs: Files, p: Path): set<Path> {
    if p !in fs then {} else if fs[p].Link? then {fs[p].target} else {p}
  }

  /** What some generated path, or some resource path, resolves to. */
  function KeptByMain(fs: Files): set<Path> {
    Targets(fs, Generated(Active)) + Targets(fs, Generated(Candidate)) + Targets(fs, Generated(Rollback))
  }

  function KeptByResources(fs: Files): set<Path> {
    set p, t | p in fs && p.Resource? && t in Targets(fs, p) :: t
  }

  function Garbage(fs: Files): set<Path> {
    set p | p in fs && ((p.MainVersion? && p !in KeptByMain(fs)) || (p.ResourceVersion? && p !in KeptByResources(fs)))
  }

  /** A version is garbage exactly when no link of its kind leads to it. */
  lemma GarbageIff(fs: Files, p: Path)
    requires Sound(fs)
    ensures p in Garbage(fs) <==>
      && p in fs
      && (|| (p.MainVersion? && forall slot :: EntryAt(fs, Generated(slot)) != Some(Link(p)))
          || (p.ResourceVersion? && forall name, slot :: EntryAt(fs, Resource(name, slot)) != Some(Link(p))))
  {
    assert forall slot :: EntryAt(fs, Generated(slot)) == Some(Link(p)) ==>
      slot == Active || slot == Candidate || slot == Rollback;
    if p in KeptByResources(fs) && !p.Managed() {
      var q :| q in fs && q.Resource? && p in Targets(fs, q);
      assert EntryAt(fs, Resource(q.name, q.slot)) == Some(Link(p));
    }
    if name, slot :| EntryAt(fs, Resource(name, slot)) == Some(Link(p)) {
      assert p in Targets(fs, Resource(name, slot));
    }
  }

  /** Nothing any managed link leads to is garbage. */
  lemma GarbageIsUnreferenced(fs: Files, p: Path)
    requires Sound(fs) && p in fs && p.Managed() && fs[p].Link?
    ensures fs[p].target !in Garbage(fs)
  {
    assert EntryFits(fs, p, fs[p]);
    match p
    case Generated(slot) => match slot { case Active => case Candidate => case Rollback => }
    case Resource(_, _) => assert fs[p].target in Targets(fs, p);
  }

  /** Deleting any garbage leaves every managed path resolving to the same content. */
  lemma CollectionIsSafe(fs: Files, gone: set<Path>)
    requires Sound(fs) && gone <= Garbage(fs)
    ensures Sound(fs - gone)
    ensures forall p: Path :: p.Managed() ==>
      EntryAt(fs - gone, p) == EntryAt(fs, p) && Resolve(fs - gone, p) == Resolve(fs, p)
  {
    var after := fs - gone;
    forall p | p in after
      ensures EntryFits(after, p, after[p])
    {
      assert EntryFits(fs, p, fs[p]);
      if p.Managed() && fs[p].Link? {
        GarbageIsUnreferenced(fs, p);
      }
    }
    forall p: Path | p.Managed()
      ensures EntryAt(after, p) == EntryAt(fs, p) && Resolve(after, p) == Resolve(fs, p)
    {
      assert p !in Garbage(fs);
      if p in fs && fs[p].Link? {
        GarbageIsUnreferenced(fs, p);
      }
    }
  }

  lemma LessGarbage(fs: Files, gone: set<Path>, kept: set<Path>)
    requires Sound(fs) && Garbage(fs) == gone + kept
    ensures |Garbage(fs - gone)| <= |kept|
  {
    CollectionIsSafe(fs, gone);
    forall p | p in Garbage(fs - gone)
      ensures p in kept
    {
      GarbageIff(fs - gone, p);
      GarbageIff(fs, p);
    }
    assert kept == Garbage(fs - gone) + (kept - Garbage(fs - gone));
  }

  predicate IsCandidate(p: Path) {
    p.Managed() && p.slot.Candidate?
  }

  predicate StagedAs(fs: Files, r: Staged) {
    EntryAt(fs, Resource(r.name, Candidate)) == Some(Link(ResourceVersion(r.name, r.content)))
  }

  predicate DistinctNames(resources: seq<Staged>) {
    forall i, j :: 0 <= i < j < |resources| ==> resources[i].name != resources[j].name
  }

  predicate CandidatesOf(fs: Files, bundle: Bundle) {
    && EntryAt(fs, Generated(Candidate)) == Some(Link(MainVersion(bundle.main)))
    && (DistinctNames(bundle.resources) ==> forall r :: r in bundle.resources ==> StagedAs(fs, r))
  }

  /** With no file lost, an unchanged entry resolves as before. */
  lemma ResolutionKept(before: Files, after: Files)
    requires Sound(before) && KeepsFiles(before, after)
    ensures forall p: Path :: p.Managed() && EntryAt(after, p) == EntryAt(before, p) ==>
      Resolve(after, p) == Resolve(before, p)
  {
    forall p: Path | p.Managed() && p in before && EntryAt(after, p) == EntryAt(before, p)
      ensures Resolve(after, p) == Resolve(before, p)
    {
      assert EntryFits(before, p, before[p]);
      if before[p].Link? {
        NonSlotTarget(before, p, before[p].target);
      }
    }
  }

  // ----- Snapshots

  type Snapshot = map<Path, Option<Entry>>

  /** A snapshot that can be put back: managed paths, each with an entry that still fits. */
  predicate Restorable(fs: Files, snapshot: Snapshot) {
    forall p :: p in snapshot ==> p.Managed() && (snapshot[p].Some? ==> EntryFits(fs, p, snapshot[p].value))
  }

  lemma StillRestorable(before: Files, after: Files, snapshot: Snapshot)
    requires Restorable(before, snapshot) && KeepsFiles(before, after)
    requires Sound(before)
    ensures Restorable(after, snapshot)
  {
    forall p | p in snapshot && snapshot[p].Some?
      ensures EntryFits(after, p, snapshot[p].value)
    {
      if snapshot[p].value.Link? {
        assert EntryFits(before, p, snapshot[p].value);
        NonSlotTarget(before, p, snapshot[p].value.target);
      }
    }
  }

  lemma NonSlotTarget(fs: Files, p: Path, target: Path)
    requires p.Managed() && LinkFits(fs, p, target)
    ensures !target.Managed()
  {
  }

  class NodeAgent {
    var fs: Files
    /** How many file operations have failed so far. */
    ghost var faults: nat
    /** How many times the agent was cut off. */
    ghost var crashes: nat
    /** The files as BIRD last loaded them, and how often it refused to. */
    ghost var loaded: Files
    ghost var refusals: nat
    /** How many old versions could not be removed when they were due. */
    ghost var leftovers: nat

    ghost predicate Valid()
      reads this
    {
      Sound(fs)
    }

    constructor (fs: Files)
      requires Sound(fs)
      ensures Valid() && this.fs == fs && faults == 0
    {
      this.fs, faults, crashes, loaded, refusals, leftovers := fs, 0, 0, fs, 0, 0;
    }

    // ----- Single steps; one that fails or is cut off by a crash may have taken effect

    method Put(p: Path, e: Entry) returns (o: Outcome)
      requires Valid() && EntryFits(fs, p, e) && (p in fs && !p.Managed() ==> fs[p] == e)
      modifies this`fs, this`faults, this`crashes
      ensures CutOff(o, old(crashes), crashes)
      ensures Valid() && (fs == old(fs) || fs == old(fs)[p := e])
      ensures o == Done ==> fs == old(fs)[p := e]
      ensures faults == old(faults) + if o == Failed then 1 else 0
    {
      o := *;
      var effective: bool := *;
      faults := faults + if o == Failed then 1 else 0;
      crashes := crashes + if o == Crashed then 1 else 0;
      if o == Done || effective {
        fs := fs[p := e];
      }
    }

    method Remove(p: Path) returns (o: Outcome)
      requires Valid() && p.Managed()
      modifies this`fs, this`faults, this`crashes
      ensures CutOff(o, old(crashes), crashes)
      ensures Valid() && (fs == old(fs) || fs == old(fs) - {p})
      ensures o == Done ==> fs == old(fs) - {p}
      ensures faults == old(faults) + if o == Failed then 1 else 0
    {
      o := *;
      var effective: bool := *;
      faults := faults + if o == Failed then 1 else 0;
      crashes := crashes + if o == Crashed then 1 else 0;
      if o == Done || effective {
        fs := fs - {p};
      }
    }

    /** Captures a path, or reads a link. */
    method ReadPath() returns (o: Outcome)
      modifies this`faults
      ensures o != Crashed && faults == old(faults) + if o == Failed then 1 else 0
    {
      o := *;
      o := if o == Crashed then Failed else o;
      faults := faults + if o == Failed then 1 else 0;
    }

    /** BIRD checks the files and loads them; a refusal may have come too late to keep it from loading. */
    method Configure() returns (o: Outcome)
      modifies this`loaded, this`refusals, this`crashes
      ensures CutOff(o, old(crashes), crashes)
      ensures loaded == old(loaded) || loaded == fs
      ensures o == Done ==> loaded == fs
      ensures refusals == old(refusals) + if o == Failed then 1 else 0
    {
      o := *;
      var effective: bool := *;
      crashes := crashes + if o == Crashed then 1 else 0;
      refusals := refusals + if o == Failed then 1 else 0;
      if o == Done || effective {
        loaded := fs;
      }
    }

    /** `restorePath`: remove, then write the captured state again. */
    method RestorePath(p: Path, state: Option<Entry>) returns (o: Outcome)
      requires Valid() && p.Managed() && (state.Some? ==> EntryFits(fs, p, state.value))
      modifies this`fs, this`faults, this`crashes
      ensures CutOff(o, old(crashes), crashes)
      ensures Valid() && OnlyChanged(old(fs), fs, {p}) && KeepsFiles(old(fs), fs)
      ensures o == Done ==> EntryAt(fs, p) == state
      ensures faults == old(faults) + if o == Failed then 1 else 0
    {
      o := Remove(p);
      if o == Done && state.Some? {
        o := Put(p, state.value);
      }
    }

    /** Puts every captured path back and goes on past failures. */
    method RestoreSnapshot(snapshot: Snapshot) returns (o: Outcome)
      requires Valid() && Restorable(fs, snapshot)
      modifies this`fs, this`faults, this`crashes
      ensures CutOff(o, old(crashes), crashes)
      ensures Valid() && OnlyChanged(old(fs), fs, snapshot.Keys) && KeepsFiles(old(fs), fs)
      ensures o == Done ==> forall p :: p in snapshot ==> EntryAt(fs, p) == snapshot[p]
      ensures old(faults) <= faults && (o == Failed ==> old(faults) < faults)
    {
      o := Done;
      var left := snapshot.Keys;
      while left != {}
        invariant CutOff(o, old(crashes), crashes)
        invariant left <= snapshot.Keys && Valid() && o != Crashed
        invariant old(faults) <= faults && (o == Failed ==> old(faults) < faults)
        invariant Restorable(fs, snapshot)
        invariant OnlyChanged(old(fs), fs, snapshot.Keys) && KeepsFiles(old(fs), fs)
        invariant o == Done ==> forall p :: p in snapshot && p !in left ==> EntryAt(fs, p) == snapshot[p]
      {
        var p :| p in left;
        ghost var before := fs;
        var restored := RestorePath(p, snapshot[p]);
        StillRestorable(before, fs, snapshot);
        o := if restored == Crashed then Crashed else if restored == Failed then Failed else o;
        left := left - {p};
        if o == Crashed {
          return;
        }
      }
    }

    /** Removes old versions; a file that cannot be removed is left for the next time. */
    method Collect()
      requires Valid()
      modifies this`fs, this`leftovers
      ensures Valid()
      ensures forall p: Path :: p.Managed() ==>
        EntryAt(fs, p) == EntryAt(old(fs), p) && Resolve(fs, p) == Resolve(old(fs), p)
      ensures exists gone :: gone <= Garbage(old(fs)) && fs == old(fs) - gone
      ensures OutsideKept(old(fs), fs)
      ensures |Garbage(fs)| <= leftovers - old(leftovers)
    {
      var garbage := Garbage(fs);
      assert forall p :: p in garbage ==> !p.Elsewhere?;
      hide Garbage, Sound;
      var gone: set<Path> := {};
      ghost var kept: set<Path> := {};
      while garbage != {}
        invariant garbage + gone + kept == Garbage(fs) && |kept| == leftovers - old(leftovers)
        invariant garbage !! kept && fs == old(fs)
      {
        var p :| p in garbage;
        var removable: bool := *;
        if removable {
          gone := gone + {p};
        } else {
          leftovers, kept := leftovers + 1, kept + {p};
        }
        garbage := garbage - {p};
      }
      assert Garbage(fs) == gone + kept;
      CollectionIsSafe(fs, gone);
      LessGarbage(fs, gone, kept);
      fs := fs - gone;
    }

    // ----- Staging

    method StageResource(staged: Staged) returns (o: Outcome)
      requires Valid()
      modifies this`fs, this`faults, this`crashes
      ensures CutOff(o, old(crashes), crashes)
      ensures faults == old(faults) + if o == Failed then 1 else 0
      ensures Valid() && KeepsFiles(old(fs), fs)
      ensures forall p: Path :: p.Managed() && p != Resource(staged.name, Candidate) ==>
        EntryAt(fs, p) == EntryAt(old(fs), p)
      ensures o == Done ==>
        EntryAt(fs, Resource(staged.name, Candidate)) == Some(Link(ResourceVersion(staged.name, staged.content)))
    {
      var version := ResourceVersion(staged.name, staged.content);
      assert version in fs ==> EntryFits(fs, version, fs[version]);
      o := Put(version, File(staged.content));
      if o == Done {
        o := Put(Resource(staged.name, Candidate), Link(version));
      }
    }

    method StageMain(main: string) returns (o: Outcome)
      requires Valid()
      modifies this`fs, this`faults, this`crashes
      ensures CutOff(o, old(crashes), crashes)
      ensures faults == old(faults) + if o == Failed then 1 else 0
      ensures Valid() && KeepsFiles(old(fs), fs)
      ensures forall p: Path :: p.Managed() && p != Generated(Candidate) ==> EntryAt(fs, p) == EntryAt(old(fs), p)
      ensures o == Done ==> EntryAt(fs, Generated(Candidate)) == Some(Link(MainVersion(main)))
    {
      var version := MainVersion(main);
      assert version in fs ==> EntryFits(fs, version, fs[version]);
      o := Put(version, File(main));
      if o == Done {
        o := Put(Generated(Candidate), Link(version));
      }
    }

    /** Writes the versions and candidate links of a bundle, then collects garbage. Nothing in use changes. */
    method Stage(bundle: Bundle) returns (o: Outcome)
      requires Valid()
      modifies this
      ensures CutOff(o, old(crashes), crashes)
      ensures Valid() && OutsideKept(old(fs), fs)
      ensures forall p: Path :: p.Managed() && !IsCandidate(p) ==>
        EntryAt(fs, p) == EntryAt(old(fs), p) && Resolve(fs, p) == Resolve(old(fs), p)
      ensures o == Done ==> CandidatesOf(fs, bundle)
      ensures faults == old(faults) + if o == Failed then 1 else 0
      ensures o != Crashed && leftovers == old(leftovers) ==> Garbage(fs) == {}
    {
      hide Garbage;
      o := Done;
      ghost var before := fs;
      for i := 0 to |bundle.resources|
        invariant o == Done && Valid() && KeepsFiles(before, fs)
        invariant faults == old(faults) && crashes == old(crashes) && leftovers == old(leftovers)
        invariant forall p: Path :: p.Managed() && !IsCandidate(p) ==> EntryAt(fs, p) == EntryAt(before, p)
        invariant DistinctNames(bundle.resources) ==> forall k :: 0 <= k < i ==> StagedAs(fs, bundle.resources[k])
      {
        o := StageResource(bundle.resources[i]);
        if o != Done {
          break;
        }
      }
      if o == Done {
        o := StageMain(bundle.main);
      }
      ResolutionKept(before, fs);
      if o != Crashed {
        Collect();
      }
    }

    // ----- Applying

    /** Keeps a copy of a captured state for a roll-back, in place of the previous copy. */
    method SaveCopy(p: Path, state: Option<Entry>) returns (o: Outcome)
      requires Valid() && p.Managed() && p.slot.Rollback? && (state.Some? ==> EntryFits(fs, p, state.value))
      modifies this`fs, this`faults, this`crashes
      ensures CutOff(o, old(crashes), crashes)
      ensures Valid() && OnlyChanged(old(fs), fs, {p}) && KeepsFiles(old(fs), fs)
      ensures o == Done ==> EntryAt(fs, p) == state
      ensures faults == old(faults) + if o == Failed then 1 else 0
    {
      o := Remove(p);
      if o == Done && state.Some? {
        o := Put(p, state.value);
      }
    }

    /** Points a resource at its candidate, if it has one. */
    method SwitchResource(name: string, state: Option<Entry>) returns (o: Outcome)
      requires Valid() && (state.Some? ==> EntryFits(fs, Resource(name, Active), state.value))
      modifies this`fs, this`faults, this`crashes
      ensures CutOff(o, old(crashes), crashes)
      ensures Valid() && OnlyChanged(old(fs), fs, PathsOf(name)) && KeepsFiles(old(fs), fs)
      ensures o == Done ==> if Resource(name, Candidate) in old(fs) then
          EntryAt(fs, Resource(name, Active)) == Some(old(fs)[Resource(name, Candidate)])
          && EntryAt(fs, Resource(name, Rollback)) == state
        else fs == old(fs)
      ensures faults == old(faults) + if o == Failed then 1 else 0
    {
      o := ReadPath();
      if o == Failed {
        return;
      }
      if Resource(name, Candidate) !in fs {
        return Done;
      }
      assert EntryFits(fs, Resource(name, Candidate), fs[Resource(name, Candidate)]);
      var candidate := fs[Resource(name, Candidate)];
      ghost var before := fs;
      NonSlotTarget(fs, Resource(name, Candidate), candidate.target);
      o := SaveCopy(Resource(name, Rollback), state);
      if o == Done {
        o := Put(Resource(name, Active), candidate);
      }
    }

    method UnlinkResource(name: string, state: Option<Entry>) returns (o: Outcome)
      requires Valid() && (state.Some? ==> EntryFits(fs, Resource(name, Active), state.value))
      modifies this`fs, this`faults, this`crashes
      ensures CutOff(o, old(crashes), crashes)
      ensures Valid() && OnlyChanged(old(fs), fs, PathsOf(name)) && KeepsFiles(old(fs), fs)
      ensures o == Done ==>
        EntryAt(fs, Resource(name, Active)) == None && EntryAt(fs, Resource(name, Rollback)) == state
      ensures faults == old(faults) + if o == Failed then 1 else 0
    {
      o := SaveCopy(Resource(name, Rollback), state);
      if o == Done {
        o := Remove(Resource(name, Active));
      }
    }

    /** `start` is the state the captured entries were read from. */
    method SwitchAll(names: seq<string>, ghost start: Files, captured: Snapshot) returns (o: Outcome)
      requires Valid() && Sound(start) && Between(start, fs, Listed(names)) && NamesSwitched(start, fs, {}, {})
      requires Captures(captured, start, Listed(names))
      modifies this`fs, this`faults, this`crashes
      ensures CutOff(o, old(crashes), crashes)
      ensures Valid() && Between(start, fs, Listed(names))
      ensures forall slot :: EntryAt(fs, Generated(slot)) == EntryAt(old(fs), Generated(slot))
      ensures o == Done ==> NamesSwitched(start, fs, Listed(names), {})
      ensures faults == old(faults) + if o == Failed then 1 else 0
    {
      o := Done;
      ghost var done: set<string> := {};
      for i := 0 to |names|
        invariant crashes == old(crashes)
        invariant Valid() && Between(start, fs, Listed(names)) && o == Done && faults == old(faults)
        invariant forall slot :: EntryAt(fs, Generated(slot)) == EntryAt(old(fs), Generated(slot))
        invariant done <= Listed(names) && forall k :: 0 <= k < i ==> names[k] in done
        invariant NamesSwitched(start, fs, done, {})
      {
        var n := names[i];
        ghost var before := fs;
        StateFits(start, fs, Resource(n, Active));
        o := SwitchResource(n, captured[Resource(n, Active)]);
        StillBetween(start, before, fs, n, Listed(names));
        if o != Done {
          return;
        }
        SwitchStep(start, before, fs, n, done);
        done := done + {n};
      }
      assert done == Listed(names);
    }

    method UnlinkAll(
      removed: seq<string>, ghost start: Files, captured: Snapshot, ghost names: set<string>) returns (o: Outcome)
      requires Valid() && Sound(start) && Between(start, fs, names) && NamesSwitched(start, fs, names, {})
      requires Captures(captured, start, names) && Listed(removed) <= names
      modifies this`fs, this`faults, this`crashes
      ensures CutOff(o, old(crashes), crashes)
      ensures Valid() && Between(start, fs, names)
      ensures forall slot :: EntryAt(fs, Generated(slot)) == EntryAt(old(fs), Generated(slot))
      ensures o == Done ==> NamesSwitched(start, fs, names, Listed(removed))
      ensures faults == old(faults) + if o == Failed then 1 else 0
    {
      o := Done;
      ghost var done: set<string> := {};
      for i := 0 to |removed|
        invariant crashes == old(crashes)
        invariant Valid() && Between(start, fs, names) && o == Done && faults == old(faults)
        invariant forall slot :: EntryAt(fs, Generated(slot)) == EntryAt(old(fs), Generated(slot))
        invariant done <= Listed(removed) && forall k :: 0 <= k < i ==> removed[k] in done
        invariant NamesSwitched(start, fs, names, done)
      {
        var n := removed[i];
        ghost var before := fs;
        assert n in names;
        StateFits(start, fs, Resource(n, Active));
        o := UnlinkResource(n, captured[Resource(n, Active)]);
        StillBetween(start, before, fs, n, names);
        if o != Done {
          return;
        }
        UnlinkStep(start, before, fs, n, names, done);
        done := done + {n};
      }
      assert done == Listed(removed);
    }

    /** The resources a task works on: those of the bundle, or with none given every one with a candidate. */
    method NamesOf(bundle: Bundle) returns (names: seq<string>)
      ensures Listed(names) == Covered(bundle, fs)
      ensures bundle.resources == [] && bundle.removed == [] ==>
        forall n :: n in names <==> Resource(n, Candidate) in fs
      ensures bundle.resources != [] || bundle.removed != [] ==>
        forall n :: n in names <==> n in bundle.removed || exists r :: r in bundle.resources && r.name == n
    {
      names := [];
      if bundle.resources == [] && bundle.removed == [] {
        var left := Covered(bundle, fs);
        while left != {}
          invariant Listed(names) + left == Covered(bundle, fs)
        {
          var n :| n in left;
          names := names + [n];
          left := left - {n};
        }
      } else {
        for i := 0 to |bundle.resources|
          invariant |names| == i && forall k :: 0 <= k < i ==> names[k] == bundle.resources[k].name
        {
          names := names + [bundle.resources[i].name];
        }
        ResourceNames(bundle.resources, names);
        ghost var first := names;
        names := names + bundle.removed;
        assert Listed(names) == Listed(first) + Listed(bundle.removed);
      }
      CoveredNames(bundle, fs, names);
    }

    /** Points the generated file and the resources at their candidates and unlinks the removed ones. */
    method SwitchBundle(
      names: seq<string>, removed: seq<string>, candidate: Entry, captured: Snapshot, ghost start: Files)
      returns (o: Outcome)
      requires Valid() && Sound(start) && Between(start, fs, Listed(names)) && NamesSwitched(start, fs, {}, {})
      requires Captures(captured, start, Listed(names)) && Listed(removed) <= Listed(names)
      requires EntryFits(fs, Generated(Active), candidate)
      modifies this`fs, this`faults, this`crashes
      ensures CutOff(o, old(crashes), crashes)
      ensures Valid() && Between(start, fs, Listed(names))
      ensures EntryAt(fs, Generated(Rollback)) == EntryAt(old(fs), Generated(Rollback))
      ensures EntryAt(fs, Generated(Candidate)) == EntryAt(old(fs), Generated(Candidate))
      ensures o == Done ==>
        NamesSwitched(start, fs, Listed(names), Listed(removed)) && EntryAt(fs, Generated(Active)) == Some(candidate)
      ensures faults == old(faults) + if o == Failed then 1 else 0
    {
      o := Put(Generated(Active), candidate);
      if o == Done {
        o := SwitchAll(names, start, captured);
      }
      if o == Done {
        o := UnlinkAll(removed, start, captured, Listed(names));
      }
    }

    /** `restoreSnapshot` over what was captured. */
    method PutBack(names: seq<string>, captured: Snapshot, ghost start: Files) returns (o: Outcome)
      requires Valid() && Sound(start) && Between(start, fs, Listed(names)) && captured == Captured(start, names)
      modifies this`fs, this`faults, this`crashes
      ensures CutOff(o, old(crashes), crashes)
      ensures Valid() && Between(start, fs, Listed(names))
      ensures EntryAt(fs, Generated(Candidate)) == EntryAt(old(fs), Generated(Candidate))
      ensures o == Done ==> ActiveKept(start, fs)
      ensures old(faults) <= faults && (o == Failed ==> old(faults) < faults)
    {
      assert Generated(Candidate) !in captured.Keys;
      CapturedIsRestorable(start, fs, captured, names);
      ghost var before := fs;
      o := RestoreSnapshot(captured);
      RestoredIsBetween(start, before, fs, captured, names);
      if o == Done {
        RestoredKeepsActive(start, fs, captured, names);
      }
    }

    /** Switches and has BIRD check and load the result; a failure puts the captured entries back. */
    method SwitchOrPutBack(
      names: seq<string>, removed: seq<string>, candidate: Entry, captured: Snapshot, ghost start: Files)
      returns (o: Outcome, refused: bool)
      requires Valid() && Sound(start) && Between(start, fs, Listed(names)) && NamesSwitched(start, fs, {}, {})
      requires captured == Captured(start, names) && Listed(removed) <= Listed(names)
      requires EntryFits(fs, Generated(Active), candidate)
      modifies this`fs, this`faults, this`crashes, this`loaded, this`refusals
      ensures Loaded(o, refused, old(loaded), loaded, fs, old(refusals), refusals)
      ensures CutOff(o, old(crashes), crashes)
      ensures Valid() && Between(start, fs, Listed(names))
      ensures !(o == Done && refused)
      ensures o == Failed && OneCause(refused, old(faults), faults) ==> ActiveKept(start, fs)
      ensures old(faults) <= faults && (o == Failed && !refused ==> old(faults) < faults)
      ensures EntryAt(fs, Generated(Candidate)) == EntryAt(old(fs), Generated(Candidate))
      ensures o == Done ==> EntryAt(fs, Generated(Rollback)) == EntryAt(old(fs), Generated(Rollback))
      ensures o == Done ==>
        NamesSwitched(start, fs, Listed(names), Listed(removed)) && EntryAt(fs, Generated(Active)) == Some(candidate)
    {
      refused := false;
      o := SwitchBundle(names, removed, candidate, captured, start);
      if o == Done {
        o := Configure();
        refused := o == Failed;
      }
      if o == Failed {
        var put := PutBack(names, captured, start);
        if refused && put != Crashed {
          var again := Configure();
          put := if again == Crashed then Crashed else put;
        }
        o := if put == Crashed then Crashed else Failed;
      }
    }

    /** Keeps the generated file for a roll-back, then switches. */
    method ApplyCandidate(names: seq<string>, removed: seq<string>) returns (o: Outcome, refused: bool)
      requires Valid() && Generated(Candidate) in fs && Listed(removed) <= Listed(names)
      modifies this`fs, this`faults, this`crashes, this`loaded, this`refusals
      ensures Loaded(o, refused, old(loaded), loaded, fs, old(refusals), refusals)
      ensures CutOff(o, old(crashes), crashes)
      ensures Valid() && Between(old(fs), fs, Listed(names))
      ensures !(o == Done && refused)
      ensures o == Failed && OneCause(refused, old(faults), faults) ==> ActiveKept(old(fs), fs)
      ensures old(faults) <= faults && (o == Failed && !refused ==> old(faults) < faults)
      ensures EntryAt(fs, Generated(Candidate)) == EntryAt(old(fs), Generated(Candidate))
      ensures o == Done ==> Switched(old(fs), fs, Listed(names), Listed(removed))
    {
      ghost var start := fs;
      refused := false;
      var captured := Captured(fs, names);
      var candidate := fs[Generated(Candidate)];
      assert EntryFits(fs, Generated(Candidate), candidate);
      StateFits(fs, fs, Generated(Active));
      o := SaveCopy(Generated(Rollback), EntryAt(fs, Generated(Active)));
      if o == Done {
        StateFits(start, fs, Generated(Candidate));
        o, refused := SwitchOrPutBack(names, removed, candidate, captured, start);
      }
    }

    /** After BIRD's answer the generated candidate is dropped, whatever the answer was; garbage goes if it was yes. */
    method Finish(applied: bool) returns (o: Outcome)
      requires Valid()
      modifies this`fs, this`faults, this`crashes, this`leftovers
      ensures CutOff(o, old(crashes), crashes)
      ensures Valid() && OutsideKept(old(fs), fs)
      ensures o == Done ==> Generated(Candidate) !in fs
      ensures !applied ==> OnlyChanged(old(fs), fs, {Generated(Candidate)}) && KeepsFiles(old(fs), fs)
      ensures applied && o != Crashed && leftovers == old(leftovers) ==> Garbage(fs) == {}
      ensures faults == old(faults) + if o == Failed then 1 else 0
      ensures forall p: Path :: p.Managed() && p != Generated(Candidate) ==> EntryAt(fs, p) == EntryAt(old(fs), p)
    {
      o := Remove(Generated(Candidate));
      if applied && o != Crashed {
        ghost var dropped := fs;
        Collect();
        assert o == Done ==> EntryAt(dropped, Generated(Candidate)) == None;
      }
    }

    /**
     * Switches to a staged bundle and has BIRD load it; whatever fails, the captured entries are put back.
     * `refused` is BIRD's negative answer. With no other fault than the cause, every active path is as it was.
     */
    method Apply(bundle: Bundle) returns (o: Outcome, refused: bool)
      requires Valid()
      modifies this
      ensures CutOff(o, old(crashes), crashes)
      ensures Loaded(o, refused, old(loaded), loaded, fs, old(refusals), refusals)
      ensures Valid() && OutsideKept(old(fs), fs) && CandidatesKept(old(fs), fs)
      ensures OthersUntouched(old(fs), fs, Covered(bundle, old(fs)))
      ensures Generated(Candidate) !in old(fs) ==> o == Failed && fs == old(fs)
      ensures o == Failed && OneCause(refused, old(faults), faults) ==> ActiveKept(old(fs), fs)
      ensures o == Failed && !refused && Generated(Candidate) in old(fs) ==>
        old(faults) < faults && EntryAt(fs, Generated(Candidate)) == EntryAt(old(fs), Generated(Candidate))
      ensures (o == Done || (o == Failed && refused)) && faults == old(faults) ==> Generated(Candidate) !in fs
      ensures o == Done ==> Switched(old(fs), fs, Covered(bundle, old(fs)), Listed(bundle.removed))
      ensures o == Failed ==> KeepsFiles(old(fs), fs)
      ensures o == Done && leftovers == old(leftovers) ==> Garbage(fs) == {}
    {
      hide Garbage, ActiveKept, Captured;
      refused := false;
      o := ReadPath();
      ActiveAtStart(fs);
      if o == Failed || Generated(Candidate) !in fs {
        return Failed, false;
      }
      ghost var start, faultsBefore := fs, faults;
      var names := NamesOf(bundle);
      o, refused := ApplyCandidate(names, bundle.removed);
      if o == Done || (o == Failed && refused) {
        ghost var middle := fs;
        var finished := Finish(o == Done);
        OthersStayUntouched(start, middle, fs, Listed(names));
        StaysActive(loaded, middle, fs);
        StaysActive(start, middle, fs);
        if o == Done {
          StaySwitched(start, middle, fs, Listed(names), Listed(bundle.removed));
        }
        o := if finished == Crashed then Crashed else o;
      }
    }

    // ----- Rolling back

    /** Puts back every resource kept as a link; one kept as a regular file stays as it is. */
    method RelinkAll(names: seq<string>, ghost start: Files) returns (o: Outcome)
      requires Valid() && Sound(start) && Between(start, fs, Listed(names)) && Relinked(start, fs, {})
      modifies this`fs, this`faults, this`crashes
      ensures CutOff(o, old(crashes), crashes)
      ensures Valid() && Between(start, fs, Listed(names))
      ensures forall slot :: EntryAt(fs, Generated(slot)) == EntryAt(old(fs), Generated(slot))
      ensures o == Done ==> Relinked(start, fs, Listed(names))
      ensures faults == old(faults) + if o == Failed then 1 else 0
    {
      o := Done;
      ghost var done: set<string> := {};
      for i := 0 to |names|
        invariant crashes == old(crashes)
        invariant Valid() && Between(start, fs, Listed(names)) && o == Done && faults == old(faults)
        invariant forall slot :: EntryAt(fs, Generated(slot)) == EntryAt(old(fs), Generated(slot))
        invariant done <= Listed(names) && forall k :: 0 <= k < i ==> names[k] in done
        invariant Relinked(start, fs, done)
      {
        var n := names[i];
        ghost var before := fs;
        assert RelinkState(start, fs, n, n in done);
        if Resource(n, Rollback) in fs && fs[Resource(n, Rollback)].Link? {
          assert EntryFits(fs, Resource(n, Rollback), fs[Resource(n, Rollback)]);
          NonSlotTarget(fs, Resource(n, Rollback), fs[Resource(n, Rollback)].target);
          o := Put(Resource(n, Active), fs[Resource(n, Rollback)]);
        }
        StillBetween(start, before, fs, n, Listed(names));
        if o != Done {
          return;
        }
        RelinkStep(start, before, fs, n, done);
        done := done + {n};
      }
      assert done == Listed(names);
    }

    method RelinkOrPutBack(
      names: seq<string>, captured: Snapshot, ghost start: Files) returns (o: Outcome, refused: bool)
      requires Valid() && Sound(start) && Between(start, fs, Listed(names)) && Relinked(start, fs, {})
      requires captured == Captured(start, names)
      modifies this`fs, this`faults, this`crashes, this`loaded, this`refusals
      ensures Loaded(o, refused, old(loaded), loaded, fs, old(refusals), refusals)
      ensures CutOff(o, old(crashes), crashes)
      ensures Valid() && Between(start, fs, Listed(names))
      ensures !(o == Done && refused)
      ensures o == Failed && OneCause(refused, old(faults), faults) ==> ActiveKept(start, fs)
      ensures old(faults) <= faults && (o == Failed && !refused ==> old(faults) < faults)
      ensures o == Done ==> Relinked(start, fs, Listed(names))
      ensures o == Done ==> EntryAt(fs, Generated(Active)) == EntryAt(old(fs), Generated(Active))
    {
      refused := false;
      o := RelinkAll(names, start);
      if o == Done {
        o := Configure();
        refused := o == Failed;
      }
      if o == Failed {
        var put := PutBack(names, captured, start);
        if refused && put != Crashed {
          var again := Configure();
          put := if again == Crashed then Crashed else put;
        }
        o := if put == Crashed then Crashed else Failed;
      }
    }

    /**
     * A failure to put the generated file back is reported without putting the captured one back: `stranded`.
     */
    method Undo(bundle: Bundle) returns (o: Outcome, refused: bool, stranded: bool)
      requires Valid()
      modifies this
      ensures CutOff(o, old(crashes), crashes)
      ensures Loaded(o, refused, old(loaded), loaded, fs, old(refusals), refusals)
      ensures Valid() && OutsideKept(old(fs), fs)
      ensures Generated(Rollback) !in old(fs) ==> o == Failed && fs == old(fs)
      ensures o == Failed && !stranded && OneCause(refused, old(faults), faults) ==> ActiveKept(old(fs), fs)
      ensures stranded ==>
        o == Failed && !refused && old(faults) < faults && OnlyChanged(old(fs), fs, {Generated(Active)})
      ensures o == Failed && !refused && Generated(Rollback) in old(fs) ==> old(faults) < faults
      ensures o == Done ==> Undone(old(fs), fs, Covered(bundle, old(fs)))
      ensures o == Done && leftovers == old(leftovers) ==> Garbage(fs) == {}
    {
      hide Garbage, ActiveKept, Captured;
      refused, stranded := false, false;
      o := ReadPath();
      ActiveAtStart(fs);
      if o == Failed || Generated(Rollback) !in fs {
        return Failed, false, false;
      }
      ghost var start := fs;
      var names := NamesOf(bundle);
      var captured := Captured(fs, names);
      assert EntryFits(fs, Generated(Rollback), fs[Generated(Rollback)]);
      o := RestorePath(Generated(Active), Some(fs[Generated(Rollback)]));
      if o != Done {
        stranded := o == Failed;
        return;
      }
      o, refused := RelinkOrPutBack(names, captured, start);
      if o == Done {
        ghost var middle := fs;
        Collect();
        StaysActive(loaded, middle, fs);
        StayRelinked(start, middle, fs, Listed(names));
      }
    }

    // ----- Whole runs

    /** Staged and applied without failure: BIRD reads the bundle. */
    method StageAndApply(bundle: Bundle) returns (o: Outcome)
      requires Valid() && DistinctNames(bundle.resources)
      modifies this
      ensures CutOff(o, old(crashes), crashes)
      ensures Valid()
      ensures o == Done ==>
        && Resolve(fs, Generated(Active)) == Some(bundle.main)
        && (forall r :: r in bundle.resources && r.name !in bundle.removed ==>
             Resolve(fs, Resource(r.name, Active)) == Some(r.content))
        && (forall n :: n in bundle.removed ==> Resolve(fs, Resource(n, Active)) == None)
    {
      o := Stage(bundle);
      if o == Done {
        ghost var staged := fs;
        var refused;
        o, refused := Apply(bundle);
        if o == Done {
          BundleIsRead(staged, fs, bundle);
        }
      }
    }

    /** Whatever is staged, applied or undone, and wherever it fails or is cut off, no managed link dangles. */
    method Run(tasks: seq<Task>)
      requires Valid()
      modifies this
      ensures Valid() && OutsideKept(old(fs), fs)
    {
      for i := 0 to |tasks|
        invariant Valid() && OutsideKept(old(fs), fs)
      {
        var o: Outcome;
        var refused, stranded: bool;
        match tasks[i] {
          case StageTask(bundle) => o := Stage(bundle);
          case ApplyTask(bundle) => o, refused := Apply(bundle);
          case UndoTask(bundle) => o, refused, stranded := Undo(bundle);
        }
      }
    }
  }

  /** Nothing went wrong but what made the operation fail: BIRD's refusal, or else one file operation. */
  predicate OneCause(refused: bool, faultsBefore: nat, faults: nat) {
    faults <= faultsBefore + if refused then 0 else 1
  }

  /**
   * What BIRD runs in the end: the files it accepted, or, with no fault but its refusal, the ones put back. Without a
   * refusal a failed operation has not asked it at all.
   */
  ghost predicate Loaded(
    o: Outcome, refused: bool, before: Files, loaded: Files, fs: Files, refusalsBefore: nat, refusals: nat)
  {
    && refusalsBefore <= refusals
    && (o != Crashed ==> (refused <==> refusalsBefore < refusals))
    && (o == Done ==> ActiveKept(loaded, fs))
    && (o == Failed && !refused ==> loaded == before)
    && (o == Failed && refused && refusals == refusalsBefore + 1 ==> ActiveKept(loaded, fs))
  }

  function PathsOf(name: string): set<Path> {
    {Resource(name, Active), Resource(name, Rollback)}
  }

  function Listed(names: seq<string>): set<string> {
    set n | n in names
  }

  function Covered(bundle: Bundle, fs: Files): set<string> {
    if bundle.resources == [] && bundle.removed == [] then
      set p | p in fs && p.Resource? && p.slot.Candidate? :: p.name
    else
      (set r | r in bundle.resources :: r.name) + Listed(bundle.removed)
  }

  lemma CoveredNames(bundle: Bundle, fs: Files, names: seq<string>)
    requires Listed(names) == Covered(bundle, fs)
    ensures forall n :: n in names <==>
      if bundle.resources == [] && bundle.removed == [] then Resource(n, Candidate) in fs
      else n in bundle.removed || exists r :: r in bundle.resources && r.name == n
  {
    forall n
      ensures n in names <==> n in Covered(bundle, fs)
      ensures Resource(n, Candidate) in fs <==> exists p :: p in fs && p.Resource? && p.slot.Candidate? && p.name == n
    {
      assert n in names <==> n in Listed(names);
    }
  }

  lemma ResourceNames(resources: seq<Staged>, names: seq<string>)
    requires |names| == |resources| && forall k :: 0 <= k < |names| ==> names[k] == resources[k].name
    ensures Listed(names) == set r | r in resources :: r.name
  {
    forall n
      ensures n in Listed(names) <==> exists r :: r in resources && r.name == n
    {
      if n in names {
        var k :| 0 <= k < |names| && names[k] == n;
        assert resources[k] in resources;
      }
      if r :| r in resources && r.name == n {
        var k :| 0 <= k < |resources| && resources[k] == r;
        assert names[k] == n;
      }
    }
  }

  function Captured(fs: Files, names: seq<string>): Snapshot {
    map p | p in {Generated(Active)} + (set n | n in names :: Resource(n, Active)) :: EntryAt(fs, p)
  }

  ghost predicate Captures(captured: Snapshot, start: Files, names: set<string>) {
    forall n :: n in names ==>
      Resource(n, Active) in captured && captured[Resource(n, Active)] == EntryAt(start, Resource(n, Active))
  }

  /** Where a resource stands, seen from the start: untouched, switched to its candidate, or unlinked. */
  predicate NameState(start: Files, fs: Files, n: string, switched: bool, unlinked: bool) {
    var active, rollback := EntryAt(start, Resource(n, Active)), EntryAt(start, Resource(n, Rollback));
    var candidate := EntryAt(start, Resource(n, Candidate));
    && EntryAt(fs, Resource(n, Active))
       == (if unlinked then None else if switched && candidate.Some? then candidate else active)
    && EntryAt(fs, Resource(n, Rollback))
       == (if unlinked || (switched && candidate.Some?) then active else rollback)
  }

  ghost predicate NamesSwitched(start: Files, fs: Files, switched: set<string>, unlinked: set<string>) {
    forall n :: NameState(start, fs, n, n in switched, n in unlinked)
  }

  ghost predicate OthersUntouched(start: Files, fs: Files, names: set<string>) {
    forall n :: n !in names ==> NameState(start, fs, n, false, false)
  }

  ghost predicate CandidatesKept(start: Files, fs: Files) {
    forall n :: EntryAt(fs, Resource(n, Candidate)) == EntryAt(start, Resource(n, Candidate))
  }

  ghost predicate Between(start: Files, fs: Files, names: set<string>) {
    KeepsFiles(start, fs) && CandidatesKept(start, fs) && OthersUntouched(start, fs, names)
  }

  lemma StaysActive(before: Files, middle: Files, after: Files)
    requires forall p: Path :: p.Managed() && p != Generated(Candidate) ==> EntryAt(after, p) == EntryAt(middle, p)
    ensures ActiveKept(before, middle) ==> ActiveKept(before, after)
  {
  }

  lemma ActiveAtStart(fs: Files)
    ensures ActiveKept(fs, fs)
  {
  }

  /** Every active path is as it was. */
  ghost predicate ActiveKept(before: Files, after: Files) {
    && EntryAt(after, Generated(Active)) == EntryAt(before, Generated(Active))
    && forall n :: EntryAt(after, Resource(n, Active)) == EntryAt(before, Resource(n, Active))
  }

  /** The files the agent does not version are still there. */
  predicate OutsideKept(before: Files, after: Files) {
    forall p :: p in before && p.Elsewhere? ==> p in after && after[p] == before[p]
  }

  ghost predicate Switched(before: Files, after: Files, names: set<string>, removed: set<string>) {
    && EntryAt(before, Generated(Candidate)).Some?
    && EntryAt(after, Generated(Active)) == EntryAt(before, Generated(Candidate))
    && EntryAt(after, Generated(Rollback)) == EntryAt(before, Generated(Active))
    && NamesSwitched(before, after, names, removed)
  }

  /** A resource put back is what was kept of it, if that is a link; the rest is as it was. */
  predicate RelinkState(start: Files, fs: Files, n: string, relinked: bool) {
    var kept := EntryAt(start, Resource(n, Rollback));
    && EntryAt(fs, Resource(n, Rollback)) == kept
    && EntryAt(fs, Resource(n, Active))
       == (if relinked && kept.Some? && kept.value.Link? then kept else EntryAt(start, Resource(n, Active)))
  }

  ghost predicate Relinked(start: Files, fs: Files, names: set<string>) {
    forall n :: RelinkState(start, fs, n, n in names)
  }

  ghost predicate Undone(before: Files, after: Files, names: set<string>) {
    && EntryAt(after, Generated(Active)) == EntryAt(before, Generated(Rollback))
    && Relinked(before, after, names)
  }

  lemma StateFits(before: Files, after: Files, p: Path)
    requires Sound(before) && KeepsFiles(before, after) && p.Managed()
    ensures p in before ==> EntryFits(after, p, before[p])
  {
    if p in before {
      assert EntryFits(before, p, before[p]);
      if before[p].Link? {
        NonSlotTarget(before, p, before[p].target);
      }
    }
  }

  lemma StillBetween(start: Files, before: Files, after: Files, n: string, names: set<string>)
    requires Between(start, before, names) && n in names
    requires OnlyChanged(before, after, PathsOf(n)) && KeepsFiles(before, after)
    ensures Between(start, after, names)
  {
    forall m | m !in names
      ensures NameState(start, after, m, false, false)
    {
      assert NameState(start, before, m, false, false);
    }
  }

  lemma SwitchStep(start: Files, before: Files, after: Files, n: string, done: set<string>)
    requires CandidatesKept(start, before) && NamesSwitched(start, before, done, {})
    requires OnlyChanged(before, after, PathsOf(n))
    requires
      if Resource(n, Candidate) in before then
        && EntryAt(after, Resource(n, Active)) == Some(before[Resource(n, Candidate)])
        && EntryAt(after, Resource(n, Rollback)) == EntryAt(start, Resource(n, Active))
      else after == before
    ensures NamesSwitched(start, after, done + {n}, {})
  {
    forall m
      ensures NameState(start, after, m, m in done + {n}, m in {})
    {
      assert NameState(start, before, m, m in done, m in {});
      assert EntryAt(before, Resource(n, Candidate)) == EntryAt(start, Resource(n, Candidate));
    }
  }

  lemma UnlinkStep(start: Files, before: Files, after: Files, n: string, names: set<string>, done: set<string>)
    requires NamesSwitched(start, before, names, done)
    requires OnlyChanged(before, after, PathsOf(n))
    requires EntryAt(after, Resource(n, Active)) == None
    requires EntryAt(after, Resource(n, Rollback)) == EntryAt(start, Resource(n, Active))
    ensures NamesSwitched(start, after, names, done + {n})
  {
    forall m
      ensures NameState(start, after, m, m in names, m in done + {n})
    {
      assert NameState(start, before, m, m in names, m in done);
    }
  }

  lemma CapturedIsRestorable(start: Files, fs: Files, captured: Snapshot, names: seq<string>)
    requires Sound(start) && KeepsFiles(start, fs) && captured == Captured(start, names)
    ensures Restorable(fs, captured)
  {
    forall p | p in captured
      ensures p.Managed() && (captured[p].Some? ==> EntryFits(fs, p, captured[p].value))
    {
      StateFits(start, fs, p);
    }
  }

  lemma RestoredIsBetween(start: Files, before: Files, after: Files, captured: Snapshot, names: seq<string>)
    requires Between(start, before, Listed(names)) && captured == Captured(start, names)
    requires OnlyChanged(before, after, captured.Keys) && KeepsFiles(before, after)
    ensures Between(start, after, Listed(names))
  {
    forall n
      ensures EntryAt(after, Resource(n, Candidate)) == EntryAt(start, Resource(n, Candidate))
    {
      assert Resource(n, Candidate) !in captured.Keys;
      assert EntryAt(before, Resource(n, Candidate)) == EntryAt(start, Resource(n, Candidate));
    }
    forall n | n !in Listed(names)
      ensures NameState(start, after, n, false, false)
    {
      assert NameState(start, before, n, false, false);
      assert Resource(n, Active) !in captured.Keys && Resource(n, Rollback) !in captured.Keys;
    }
  }

  lemma RestoredKeepsActive(start: Files, fs: Files, captured: Snapshot, names: seq<string>)
    requires captured == Captured(start, names)
    requires forall p :: p in captured ==> EntryAt(fs, p) == captured[p]
    requires OthersUntouched(start, fs, Listed(names))
    ensures ActiveKept(start, fs)
  {
    forall n
      ensures EntryAt(fs, Resource(n, Active)) == EntryAt(start, Resource(n, Active))
    {
      if n !in Listed(names) {
        assert NameState(start, fs, n, false, false);
      } else {
        assert Resource(n, Active) in captured;
      }
    }
  }

  lemma RelinkStep(start: Files, before: Files, after: Files, n: string, done: set<string>)
    requires Relinked(start, before, done)
    requires
      var kept := EntryAt(before, Resource(n, Rollback));
      if kept.Some? && kept.value.Link? then
        OnlyChanged(before, after, {Resource(n, Active)}) && EntryAt(after, Resource(n, Active)) == kept
      else after == before
    ensures Relinked(start, after, done + {n})
  {
    forall m
      ensures RelinkState(start, after, m, m in done + {n})
    {
      assert RelinkState(start, before, m, m in done);
    }
  }

  lemma StayRelinked(start: Files, before: Files, after: Files, names: set<string>)
    requires Relinked(start, before, names)
    requires forall p: Path :: p.Managed() && p != Generated(Candidate) ==> EntryAt(after, p) == EntryAt(before, p)
    ensures Relinked(start, after, names)
  {
    forall n
      ensures RelinkState(start, after, n, n in names)
    {
      assert RelinkState(start, before, n, n in names);
    }
  }

  lemma StaySwitched(start: Files, before: Files, after: Files, names: set<string>, removed: set<string>)
    requires Switched(start, before, names, removed)
    requires forall p: Path :: p.Managed() && p != Generated(Candidate) ==> EntryAt(after, p) == EntryAt(before, p)
    ensures Switched(start, after, names, removed)
  {
    forall n
      ensures NameState(start, after, n, n in names, n in removed)
    {
      assert NameState(start, before, n, n in names, n in removed);
    }
  }

  lemma OthersStayUntouched(start: Files, before: Files, after: Files, names: set<string>)
    requires OthersUntouched(start, before, names)
    requires forall p: Path :: p.Managed() && p != Generated(Candidate) ==> EntryAt(after, p) == EntryAt(before, p)
    ensures OthersUntouched(start, after, names)
  {
    forall n | n !in names
      ensures NameState(start, after, n, false, false)
    {
      assert NameState(start, before, n, false, false);
    }
  }

  // ----- What BIRD reads

  /** With the unversioned files kept, equal entries read alike: a version file is named after its content. */
  lemma ReadAlike(before: Files, after: Files, p: Path, q: Path)
    requires Sound(before) && Sound(after) && OutsideKept(before, after)
    requires p.Managed() && q.Managed() && EntryAt(before, p) == EntryAt(after, q)
    ensures Resolve(before, p) == Resolve(after, q)
  {
    if p in before {
      assert EntryFits(before, p, before[p]) && EntryFits(after, q, after[q]);
      if before[p].Link? {
        var target := before[p].target;
        assert EntryFits(before, target, before[target]) && EntryFits(after, target, after[target]);
      }
    }
  }

  /** After a bundle is staged and applied BIRD reads its main text and resources, and none it removes. */
  lemma BundleIsRead(staged: Files, fs: Files, bundle: Bundle)
    requires Sound(fs) && CandidatesOf(staged, bundle) && DistinctNames(bundle.resources)
    requires Switched(staged, fs, Covered(bundle, staged), Listed(bundle.removed))
    ensures Resolve(fs, Generated(Active)) == Some(bundle.main)
    ensures forall r :: r in bundle.resources && r.name !in bundle.removed ==>
      Resolve(fs, Resource(r.name, Active)) == Some(r.content)
    ensures forall n :: n in bundle.removed ==> Resolve(fs, Resource(n, Active)) == None
  {
    assert EntryFits(fs, Generated(Active), fs[Generated(Active)]);
    assert EntryFits(fs, MainVersion(bundle.main), fs[MainVersion(bundle.main)]);
    forall r | r in bundle.resources && r.name !in bundle.removed
      ensures Resolve(fs, Resource(r.name, Active)) == Some(r.content)
    {
      var p, version := Resource(r.name, Active), ResourceVersion(r.name, r.content);
      assert StagedAs(staged, r);
      assert NameState(staged, fs, r.name, r.name in Covered(bundle, staged), r.name in Listed(bundle.removed));
      assert EntryFits(fs, p, fs[p]) && EntryFits(fs, version, fs[version]);
    }
    forall n | n in bundle.removed
      ensures Resolve(fs, Resource(n, Active)) == None
    {
      assert NameState(staged, fs, n, n in Covered(bundle, staged), n in Listed(bundle.removed));
    }
  }

  /** A resource that an apply moved away from its link, to a candidate or to nothing. */
  predicate Moved(start: Files, bundle: Bundle, n: string) {
    n in Listed(bundle.removed) || (n in Covered(bundle, start) && Resource(n, Candidate) in start)
  }

  predicate WasLink(start: Files, n: string) {
    Resource(n, Active) in start && start[Resource(n, Active)].Link?
  }

  /**
   * Undoing an apply puts back the generated file and exactly the moved resources that were links, removed ones
   * included. One that did not exist or was a regular file stays as applied; an unmoved one gets any older copy.
   */
  lemma UndoAfterApply(start: Files, applied: Files, undone: Files, bundle: Bundle, n: string)
    requires Switched(start, applied, Covered(bundle, start), Listed(bundle.removed)) && CandidatesKept(start, applied)
    requires Undone(applied, undone, Covered(bundle, applied))
    ensures EntryAt(undone, Generated(Active)) == EntryAt(start, Generated(Active))
    ensures Moved(start, bundle, n) ==>
      EntryAt(undone, Resource(n, Active)) == EntryAt(if WasLink(start, n) then start else applied, Resource(n, Active))
    ensures !Moved(start, bundle, n) ==>
      EntryAt(undone, Resource(n, Active)) ==
      (var kept := EntryAt(start, Resource(n, Rollback));
      if n in Covered(bundle, start) && kept.Some? && kept.value.Link? then kept
      else EntryAt(start, Resource(n, Active)))
  {
    assert EntryAt(applied, Resource(n, Candidate)) == EntryAt(start, Resource(n, Candidate));
    SameCover(start, applied, bundle);
    assert NameState(start, applied, n, n in Covered(bundle, start), n in Listed(bundle.removed));
    assert RelinkState(applied, undone, n, n in Covered(bundle, applied));
  }

  /** So BIRD reads after the roll-back what it read before the apply. */
  lemma UndoReads(start: Files, applied: Files, undone: Files, bundle: Bundle, n: string)
    requires Switched(start, applied, Covered(bundle, start), Listed(bundle.removed)) && CandidatesKept(start, applied)
    requires Undone(applied, undone, Covered(bundle, applied))
    requires Sound(start) && Sound(undone) && OutsideKept(start, applied) && OutsideKept(applied, undone)
    ensures Resolve(undone, Generated(Active)) == Resolve(start, Generated(Active))
    ensures Moved(start, bundle, n) && WasLink(start, n) ==>
      Resolve(undone, Resource(n, Active)) == Resolve(start, Resource(n, Active))
  {
    UndoAfterApply(start, applied, undone, bundle, n);
    ReadAlike(start, undone, Generated(Active), Generated(Active));
    if Moved(start, bundle, n) && WasLink(start, n) {
      ReadAlike(start, undone, Resource(n, Active), Resource(n, Active));
    }
  }

  lemma SameCover(before: Files, after: Files, bundle: Bundle)
    requires CandidatesKept(before, after)
    ensures Covered(bundle, after) == Covered(bundle, before)
  {
    if bundle.resources == [] && bundle.removed == [] {
      forall n
        ensures n in Covered(bundle, after) <==> n in Covered(bundle, before)
      {
        assert EntryAt(after, Resource(n, Candidate)) == EntryAt(before, Resource(n, Candidate));
        assert n in Covered(bundle, before) <==> Resource(n, Candidate) in before;
        assert n in Covered(bundle, after) <==> Resource(n, Candidate) in after;
      }
    }
  }
}
