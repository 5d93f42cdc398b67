/**
 The production restore as a process over a disk that outlives it.

 Every primitive below is one durable step.  It may complete, raise after or before
 taking effect, or be the step a crash falls at; the choice is nondeterministic, so
 a contract proved here holds of every such run.  `trace` records the disk after each
 step, and `Safe` says that the invariant held at every one of them.
 */
module ProductionRestore {
  import opened Wrappers
  import opened RestoreState
  import opened Texts

  datatype RestoreError =
    | StepFailed
    | IncompleteRestore
    | AlreadyArchived
    | InvalidOperation
    | NoJournal
    | CompletedRestore
    | SourceAbsent
    | TargetMissing
    | SiblingExists
    | SiblingOutsideScope
    | RollbackPathExists
    | ManualReconciliation

  type Ending = Outcome<RestoreError>

  /** Not one of the refusals that call for repair by hand: a parked name already in
      use, all three names of an item present, a staged name the journal did not derive. */
  ghost predicate Routine(o: Ending) {
    o.Raised? ==> o.error != RollbackPathExists && o.error != ManualReconciliation && o.error != SiblingOutsideScope
  }

  // ---------------------------------------------------------------- what a bundle holds

  /** What the capture of the selected point met: the sources of the mounted volumes, the
      paths below its roots, and the node that the entries at and below a path unpack to. */
  datatype Capture = Capture(volumes: set<Path>, visited: set<Path>, subtree: Path -> Node)

  /** A path the operation is to restore: a volume's data directory, or a bind root. */
  datatype Enrolled = Volume(target: Path) | Bind(target: Path)

  /** `filter_host`: a component with the head of a restore suffix in it.  The head has no
      slash, so that is any occurrence of it in the path. */
  predicate NamedLikeSibling(p: Path) {
    exists i :: 0 <= i <= |p| - |SUFFIX_HEAD| && HeadAt(p, i)
  }

  predicate HeadAt(p: Path, i: nat) {
    i + |SUFFIX_HEAD| <= |p| && p[i..i + |SUFFIX_HEAD|] == SUFFIX_HEAD
  }

  const VOLUME_ROOT := "/var/lib/docker/volumes/"
  const VOLUME_DATA := "/_data"

  /** The boundary the capture sets for the source of a volume. */
  predicate VolumeSource(p: Path) {
    VOLUME_ROOT <= p && |p| >= |VOLUME_DATA| && p[|p| - |VOLUME_DATA|..] == VOLUME_DATA
  }

  /** The bundle has something to extract for the path: the volume's own archive, or an
      entry of the host archive at the path or below it. */
  predicate Extracts(c: Capture, e: Enrolled) {
    match e
    case Volume(target) => target in c.volumes && VolumeSource(target)
    case Bind(target) =>
      exists p :: p in c.visited && !NamedLikeSibling(p) && (p == target || target + "/" <= p)
  }

  /** The same on the texts: a volume's source lies under Docker's directory and is a data
      directory; a bind root, or something below it, was met, under no name that has the
      head of a restore suffix in it. */
  ghost predicate Offers(c: Capture, e: Enrolled) {
    match e
    case Volume(target) =>
      && target in c.volumes
      && (exists rest: string :: target == "/var/lib/docker/volumes/" + rest)
      && (exists place: string :: target == place + "/_data")
    case Bind(target) => exists p :: p in c.visited && !HasSuffixHead(p) && IsAtOrBelow(p, target)
  }

  ghost predicate HasSuffixHead(p: Path) {
    exists before: string, rest: string :: p == before + ".platform-restore-" + rest
  }

  ghost predicate IsAtOrBelow(p: Path, target: Path) {
    p == target || exists rest: string :: p == target + "/" + rest
  }

  lemma SuffixHeadMeans(p: Path)
    ensures NamedLikeSibling(p) <==> HasSuffixHead(p)
  {
    if NamedLikeSibling(p) {
      var i :| 0 <= i <= |p| - |SUFFIX_HEAD| && HeadAt(p, i);
      assert p == p[..i] + ".platform-restore-" + p[i + |SUFFIX_HEAD|..];
    }
    if HasSuffixHead(p) {
      var before: string, rest: string :| p == before + ".platform-restore-" + rest;
      assert p[|before|..|before| + |SUFFIX_HEAD|] == SUFFIX_HEAD;
      assert HeadAt(p, |before|);
    }
  }

  lemma VolumeSourceMeans(p: Path)
    ensures VolumeSource(p) <==>
              && (exists rest: string :: p == "/var/lib/docker/volumes/" + rest)
              && (exists place: string :: p == place + "/_data")
  {
    PrefixMeans(VOLUME_ROOT, p);
    if |p| >= |VOLUME_DATA| && p[|p| - |VOLUME_DATA|..] == VOLUME_DATA {
      assert p == p[..|p| - |VOLUME_DATA|] + VOLUME_DATA;
    }
    if exists place: string :: p == place + VOLUME_DATA {
      var place: string :| p == place + VOLUME_DATA;
      assert p[|p| - |VOLUME_DATA|..] == VOLUME_DATA;
    }
  }

  lemma ExtractsMeans(c: Capture, e: Enrolled)
    ensures Extracts(c, e) <==> Offers(c, e)
  {
    hide VolumeSource, NamedLikeSibling, HasSuffixHead;
    VolumeSourceMeans(e.target);
    forall p: Path ensures NamedLikeSibling(p) <==> HasSuffixHead(p) { SuffixHeadMeans(p); }
    forall p: Path ensures IsAtOrBelow(p, e.target) <==> p == e.target || e.target + "/" <= p {
      PrefixMeans(e.target + "/", p);
    }
  }

  /** The node that the bundle has for an enrolled path. */
  function NodeFor(c: Capture, e: Enrolled): Node {
    c.subtree(e.target)
  }

  ghost predicate AllExtract(c: Capture, enrolled: seq<Enrolled>) {
    forall k :: 0 <= k < |enrolled| ==> Offers(c, enrolled[k])
  }

  lemma StagedNamesLook(t: Path, op: string)
    requires OperationName(op)
    ensures forall p: Path :: StagedPath(t, op) <= p ==> NamedLikeSibling(p)
    ensures !VolumeSource(StagedPath(t, op))
  {
    var staged := StagedPath(t, op);
    assert staged[|staged| - 6] == op[|op| - 6] != '/';
    assert VOLUME_DATA[0] == '/';
    forall p: Path | staged <= p ensures NamedLikeSibling(p) {
      assert p[|t|..|t| + |SUFFIX_HEAD|] == SUFFIX_HEAD;
      assert HeadAt(p, |t|);
    }
  }

  /** The capture leaves restore siblings out, so nothing that it has is one. */
  lemma SiblingsAreNeverCaptured(c: Capture, e: Enrolled, t: Path, op: string)
    requires OperationName(op) && Offers(c, e)
    ensures e.target != StagedPath(t, op)
  {
    ExtractsMeans(c, e);
    hide StagedPath, NamedLikeSibling, VolumeSource, Offers;
    StagedNamesLook(t, op);
  }

  ghost predicate NoneIsSibling(enrolled: seq<Enrolled>, op: string) {
    forall k, l :: 0 <= k < |enrolled| && 0 <= l < |enrolled| ==>
      enrolled[k].target != StagedPath(enrolled[l].target, op)
  }

  lemma ExtractedAreNoSiblings(c: Capture, enrolled: seq<Enrolled>, op: string)
    requires OperationName(op) && AllExtract(c, enrolled)
    ensures NoneIsSibling(enrolled, op)
  {
    hide Offers, StagedPath;
    forall k, l | 0 <= k < |enrolled| && 0 <= l < |enrolled|
      ensures enrolled[k].target != StagedPath(enrolled[l].target, op)
    {
      SiblingsAreNeverCaptured(c, enrolled[k], enrolled[l].target, op);
    }
  }

  // ---------------------------------------------------------------- when a restore may go on

  ghost predicate SettlementAllows(saved: Option<Journal>, archive: map<string, Journal>) {
    saved.Some? ==>
      && (saved.value.status == Done || saved.value.status == RolledBack) && saved.value.healthVerified
      && saved.value.operation !in archive
  }

  ghost predicate Missing(enrolled: seq<Enrolled>, files: Files) {
    exists k :: 0 <= k < |enrolled| && enrolled[k].target !in files
  }

  /** A sibling is in the way: it was there before, or a path is enrolled twice. */
  ghost predicate Occupied(enrolled: seq<Enrolled>, op: string, files: Files) {
    || (exists k :: 0 <= k < |enrolled| &&
          (StagedPath(enrolled[k].target, op) in files || PreviousPath(enrolled[k].target, op) in files))
    || (exists k, l :: 0 <= k < l < |enrolled| && enrolled[k].target == enrolled[l].target)
  }

  lemma IsMissing(enrolled: seq<Enrolled>, k: nat, files: Files)
    requires k < |enrolled| && enrolled[k].target !in files
    ensures Missing(enrolled, files)
  {}

  /** What can be checked before a restore: it is due, and everything is in its place. */
  ghost predicate Restorable(saved: Option<Journal>, archive: map<string, Journal>, files: Files,
                             op: string, enrolled: seq<Enrolled>, c: Capture, qualifyOnly: bool)
  {
    && SettlementAllows(saved, archive) && OperationName(op) && AllExtract(c, enrolled)
    && (qualifyOnly || (!Missing(enrolled, files) && !Occupied(enrolled, op, files)))
  }

  /** A restore turned down before anything was stopped, and why. */
  ghost predicate TurnedDown(e: RestoreError, saved: Option<Journal>, archive: map<string, Journal>, files: Files,
                             op: string, enrolled: seq<Enrolled>, c: Capture, qualifyOnly: bool)
  {
    match e
    case IncompleteRestore =>
      saved.Some? && ((saved.value.status != Done && saved.value.status != RolledBack) || !saved.value.healthVerified)
    case AlreadyArchived => saved.Some? && saved.value.operation in archive
    case InvalidOperation => !OperationName(op)
    case SourceAbsent => !AllExtract(c, enrolled)
    case TargetMissing => !qualifyOnly && Missing(enrolled, files)
    case SiblingExists => !qualifyOnly && Occupied(enrolled, op, files)
    case _ => false
  }

  datatype Request =
    | RestoreRequest(operation: string, enrolled: seq<Enrolled>, capture: Capture, qualifyOnly: bool)
    | RecoverRequest
    | SettleRequest

  /** The journal claims an end that was checked. */
  ghost predicate SaysHealthy(j: Journal) {
    (j.status == Done || j.status == RolledBack) && j.healthVerified
  }

  class Host {
    // Durable: survives a crash.
    var files: Files
    var saved: Option<Journal>
    var archive: map<string, Journal>

    // Volatile: the journal the running process holds and mutates.
    var memory: Journal

    // What the running operation found, and what it is to put in place.
    ghost var origin: Files
    ghost var wanted: Files

    // The disk after each durable step so far.
    ghost var trace: seq<Disk>

    // How many steps raised or died on their own.
    ghost var faults: nat

    // Whether a boot or health check has succeeded since the last original was moved or
    // changed, and since the last time the containers were stopped.
    ghost var healthy: bool
    ghost var running: bool

    // How many recoveries were run on a journal that was rolled back and verified already.
    ghost var redone: nat

    /** Anything but success has a step to blame that failed since then. */
    ghost predicate Blamed(o: Ending, before: nat)
      reads this`faults
    {
      before <= faults && (o.Ok? || before < faults)
    }

    ghost function Now(): Disk
      reads this
    {
      Disk(files, saved, origin, wanted)
    }

    /** A journal on disk that says it was verified was: after the last move, and with the
        containers up since, unless a verified journal was rolled back once more. */
    ghost predicate HealthIsTrue()
      reads this`saved, this`healthy, this`running, this`redone
    {
      saved.Some? && SaysHealthy(saved.value) ==> healthy && (running || redone > 0)
    }

    ghost predicate Safe()
      reads this
    {
      && Consistent(Now()) && HealthIsTrue()
      && |trace| > 0 && trace[|trace| - 1] == Now()
      && forall i :: 0 <= i < |trace| ==> Consistent(trace[i])
    }

    /** The saved journal is the one in memory, up to the progress marks of items. */
    predicate Current()
      reads this
    {
      saved.Some? && saved.value.(states := memory.states) == memory && |saved.value.states| == |memory.states|
    }

    constructor (f: Files)
      ensures Safe() && files == f && saved == None && archive == map[]
    {
      files, saved, archive := f, None, map[];
      memory := Journal("", Preparing, false, false, [], []);
      origin, wanted := f, map[];
      trace := [Disk(f, None, f, map[])];
      faults, redone := 0, 0;
      healthy, running := false, false;
    }

    // -------------------------------------------------------------- durable steps

    /** b.save of the journal in memory: write a sibling, flush, replace. */
    method Save() returns (o: Ending)
      requires Safe() && Consistent(Now().(journal := Some(memory)))
      requires SaysHealthy(memory) ==> healthy && (running || redone > 0)
      modifies this`saved, this`trace, this`faults
      ensures Safe() && old(trace) <= trace
      ensures saved == Some(memory) || saved == old(saved)
      ensures o.Ok? ==> saved == Some(memory)
      ensures Routine(o) && Blamed(o, old(faults))
    {
      var landed: bool := *;
      o := *;
      faults := if o.Ok? then faults else faults + 1;
      if o.Ok? || landed {
        saved := Some(memory);
        trace := trace + [Now()];
      }
      if o.Raised? { o := Raised(StepFailed); }
    }

    /** durable_rename. */
    method Rename(a: Path, b: Path) returns (o: Ending)
      requires Safe() && (a in files ==> Consistent(Now().(files := Renamed(files, a, b))))
      requires !running && (saved.Some? ==> !SaysHealthy(saved.value))
      modifies this`files, this`trace, this`faults, this`healthy
      ensures Safe() && old(trace) <= trace
      ensures files == old(files) || (a in old(files) && files == Renamed(old(files), a, b))
      ensures o.Ok? ==> a in old(files) && files == Renamed(old(files), a, b)
      ensures files == old(files) || !healthy
      ensures Routine(o) && (a in old(files) ==> Blamed(o, old(faults)))
    {
      if a !in files { return Raised(StepFailed); }
      var landed: bool := *;
      o := *;
      faults := if o.Ok? then faults else faults + 1;
      if o.Ok? || landed {
        files := Renamed(files, a, b);
        healthy := false;
        trace := trace + [Now()];
      }
      if o.Raised? { o := Raised(StepFailed); }
    }

    /** os.chown or os.chmod. */
    method SetOnce(p: Path, n: Meta) returns (o: Ending)
      requires Safe() && p in files && Consistent(Now().(files := WithMeta(files, p, n)))
      requires !running && (saved.Some? ==> !SaysHealthy(saved.value))
      modifies this`files, this`trace, this`faults, this`healthy
      ensures Safe() && old(trace) <= trace
      ensures files == old(files) || files == WithMeta(old(files), p, n)
      ensures o.Ok? ==> files == WithMeta(old(files), p, n)
      ensures files == old(files) || !healthy
      ensures Routine(o) && Blamed(o, old(faults))
    {
      hide Consistent;
      var landed: bool := *;
      o := *;
      faults := if o.Ok? then faults else faults + 1;
      if o.Ok? || landed {
        files := WithMeta(files, p, n);
        healthy := false;
        trace := trace + [Now()];
      }
      if o.Raised? { o := Raised(StepFailed); }
    }

    /** os.chown followed by os.chmod: two steps, so a crash may separate them. */
    method SetMeta(p: Path, m: Meta) returns (o: Ending)
      requires Safe() && (p in files ==> forall n: Meta :: Consistent(Now().(files := WithMeta(files, p, n))))
      requires !running && (saved.Some? ==> !SaysHealthy(saved.value))
      modifies this`files, this`trace, this`faults, this`healthy
      ensures Safe() && old(trace) <= trace
      ensures p in old(files) ==> p in files && files == WithMeta(old(files), p, files[p].meta)
      ensures p !in old(files) ==> files == old(files)
      ensures o.Ok? ==> p in old(files) && files == WithMeta(old(files), p, m)
      ensures Routine(o) && (p in old(files) ==> Blamed(o, old(faults)))
    {
      hide Consistent;
      if p !in files { return Raised(StepFailed); }
      ghost var before := files;
      assert before == WithMeta(before, p, before[p].meta);
      var owned := Meta(m.uid, m.gid, files[p].meta.mode);
      o := SetOnce(p, owned);
      if !o.Ok? { return; }
      assert WithMeta(files, p, m) == WithMeta(before, p, m);
      assert Now().(files := WithMeta(files, p, m)) == old(Now()).(files := WithMeta(before, p, m));
      o := SetOnce(p, m);
    }

    /** Copying a tree beside its target, or removing it again, is not atomic: an
        interrupted step leaves anything or nothing under that one name. */
    method Scratch(p: Path, complete: Option<Node>) returns (o: Ending)
      requires Safe() && saved.Some? && !saved.value.productionStopped && NamesStaged(saved.value.paths, p)
      modifies this`files, this`trace, this`faults
      ensures Safe() && old(trace) <= trace
      ensures forall q :: q != p ==> Same(files, old(files), q)
      ensures o.Ok? && complete.Some? ==> p in files && files[p] == complete.value
      ensures o.Ok? && complete.None? ==> p !in files
      ensures Routine(o) && Blamed(o, old(faults))
    {
      hide Consistent;
      var present: bool := *;
      var node: Node := *;
      o := *;
      faults := if o.Ok? then faults else faults + 1;
      if o.Ok? {
        present := complete.Some?;
        node := if complete.Some? then complete.value else node;
      }
      ghost var before := Now();
      files := if present then files[p := node] else files - {p};
      trace := trace + [Now()];
      ScratchIsConsistent(before, files, p);
      if o.Raised? { o := Raised(StepFailed); }
    }

    /** A command that changes nothing modelled here: download, decrypt, docker, health. */
    method External() returns (o: Ending)
      modifies this`faults
      ensures Routine(o) && Blamed(o, old(faults))
    {
      o := *;
      faults := if o.Ok? then faults else faults + 1;
      if o.Raised? { o := Raised(StepFailed); }
    }

    /** `boot` and `health`, or `health` alone: every selected container runs and is well. */
    method CheckHealth() returns (o: Ending)
      modifies this`faults, this`healthy, this`running
      ensures if o.Ok? then healthy && running else healthy == old(healthy) && running == old(running)
      ensures old(HealthIsTrue()) ==> HealthIsTrue()
      ensures Routine(o) && Blamed(o, old(faults))
    {
      o := External();
      if o.Ok? { healthy, running := true, true; }
    }

    /** `boot`: the containers start only under a journal that says so. */
    method Boot() returns (o: Ending)
      requires saved.Some? && (saved.value.status == Starting || saved.value.status == RolledBack)
      modifies this`faults, this`healthy, this`running
      ensures if o.Ok? then healthy && running else healthy == old(healthy) && running == old(running)
      ensures old(HealthIsTrue()) ==> HealthIsTrue()
      ensures Routine(o) && Blamed(o, old(faults))
    {
      o := CheckHealth();
    }

    /** `docker stop`, of one container after the other, and never before the journal on disk
        says that production is stopped or has to be rolled back. */
    method StopContainers() returns (o: Ending)
      requires saved.Some? && (saved.value.productionStopped || saved.value.status == RollbackRequired)
      modifies this`faults, this`running
      ensures !running && Routine(o) && Blamed(o, old(faults))
    {
      o := External();
      running := false;
    }

    // -------------------------------------------------------------- settlement gate

    method Settle() returns (o: Ending)
      requires Safe()
      modifies this`saved, this`archive, this`trace, this`faults
      ensures Safe() && old(trace) <= trace
      // A journal passes only as done or rolled back, with its health verified, and that
      // was so: nothing was moved since, and it was whole.
      ensures saved != old(saved) ==>
                && saved == None
                && (old(saved).value.status == Done || old(saved).value.status == RolledBack)
                && old(saved).value.healthVerified
                && healthy && (running || redone > 0) && Whole(old(Now()))
      ensures o.Ok? ==> saved == None && SettlementAllows(old(saved), old(archive))
      // Without a fault one that is valid and not archived does pass.
      ensures faults == old(faults) ==> (o.Ok? <==> SettlementAllows(old(saved), old(archive)))
      ensures Routine(o) && old(faults) <= faults
      ensures Blamed(o, old(faults))
           || (o == Raised(IncompleteRestore) && old(saved).Some?
                 && ((old(saved).value.status != Done && old(saved).value.status != RolledBack)
                     || !old(saved).value.healthVerified))
           || (o == Raised(AlreadyArchived) && old(saved).Some? && old(saved).value.operation in old(archive))
      ensures forall op :: op in old(archive) ==> op in archive && archive[op] == old(archive)[op]
      ensures old(saved).Some? && saved == None ==>
                old(saved).value.operation in archive && archive[old(saved).value.operation] == old(saved).value
    {
      hide Whole, StageInv, SwitchInv, AllSwitched, AllPrepared;
      if saved.None? { return Ok; }
      var j := saved.value;
      ReadBack(Now());
      if (j.status != Done && j.status != RolledBack) || !j.healthVerified { return Raised(IncompleteRestore); }
      if !OperationName(j.operation) { return Raised(InvalidOperation); }
      if j.operation in archive { return Raised(AlreadyArchived); }
      SettledIsWhole(Now());
      var landed: bool := *;
      o := *;
      faults := if o.Ok? then faults else faults + 1;
      if o.Ok? || landed {
        archive := archive[j.operation := j];
        saved := None;
        trace := trace + [Now()];
      }
      if o.Raised? { o := Raised(StepFailed); }
    }

    // -------------------------------------------------------------- switch and rollback

    /** Items before `i` are switched, the others still prepared. */
    ghost predicate SwitchedUpTo(i: nat)
      reads this
    {
      && i <= |memory.paths| == |memory.states|
      && (forall k :: 0 <= k < i ==> ItemSwitchedIn(files, memory.paths[k], origin, wanted))
      && (forall k :: i <= k < |memory.paths| ==> ItemPreparedIn(files, memory.paths[k], origin, wanted))
    }

    ghost predicate PlanHolds()
      reads this
    {
      && OperationName(memory.operation) && |memory.states| == |memory.paths|
      && SwitchInv(files, memory.paths, memory.operation, origin, wanted)
    }

    /** The journal on disk lists this plan and is neither done nor rolled back, so
        the items of the plan may be moved. */
    ghost predicate Moving()
      reads this
    {
      && Safe() && PlanHolds() && Current()
      && memory.productionStopped && memory.status != Done && memory.status != RolledBack && !running
    }

    method SwitchPaths() returns (o: Ending)
      requires Moving() && saved == Some(memory) && |memory.states| == |memory.paths|
      requires AllPrepared(files, memory.paths, origin, wanted)
      modifies this`files, this`saved, this`memory, this`trace, this`faults, this`healthy
      ensures Moving() && old(trace) <= trace
      ensures memory == old(memory).(states := memory.states) && |memory.states| == |memory.paths|
      ensures o.Ok? ==> saved == Some(memory) && AllSwitched(files, memory.paths, origin, wanted)
      ensures o.Ok? ==> forall k :: 0 <= k < |memory.states| ==> memory.states[k] == ItemSwitched
      ensures Routine(o) && Blamed(o, old(faults))
    {
      hide Consistent, SwitchInv, ItemPreparedIn, ItemSwitchedIn, ItemParkedIn;
      var i := 0;
      while i < |memory.paths|
        invariant Moving() && old(trace) <= trace && old(faults) <= faults && saved == Some(memory)
        invariant memory == old(memory).(states := memory.states)
        invariant SwitchedUpTo(i)
        invariant forall k :: 0 <= k < i ==> memory.states[k] == ItemSwitched
      {
        o := SwitchOne(i);
        if !o.Ok? { return; }
        i := i + 1;
      }
      o := Ok;
    }

    method SwitchOne(i: nat) returns (o: Ending)
      requires Moving() && saved == Some(memory) && i < |memory.paths| && SwitchedUpTo(i)
      modifies this`files, this`saved, this`memory, this`trace, this`faults, this`healthy
      ensures Moving() && old(trace) <= trace
      ensures memory == old(memory).(states := memory.states) && |memory.states| == |memory.paths|
      ensures forall k :: 0 <= k < |memory.states| && k != i ==> memory.states[k] == old(memory.states[k])
      ensures o.Ok? ==> saved == Some(memory) && SwitchedUpTo(i + 1) && memory.states[i] == ItemSwitched
      ensures Routine(o) && Blamed(o, old(faults))
    {
      hide Consistent, SwitchInv, ItemPreparedIn, ItemSwitchedIn, ItemParkedIn;
      ShapeOfItem(files, memory.paths, i, memory.operation, origin, wanted);
      var previous := memory.paths[i].siblings.value.previous;
      if previous in files { return Raised(RollbackPathExists); }
      o := Mark(i, ItemSwitching);
      if !o.Ok? { return; }
      o := Park(i);
      if !o.Ok? { return; }
      o := Remeta(i, ClosedDown(files[previous].directory));
      if !o.Ok? { return; }
      o := Seat(i);
      if !o.Ok? { return; }
      o := Mark(i, ItemSwitched);
    }

    /** The first rename of a switch: `target -> previous`. */
    method Park(i: nat) returns (o: Ending)
      requires Moving() && i < |memory.paths| && ItemPreparedIn(files, memory.paths[i], origin, wanted)
      requires i < |saved.value.states| && saved.value.states[i] == ItemSwitching
      modifies this`files, this`trace, this`faults, this`healthy
      ensures Moving() && old(trace) <= trace
      ensures KeepsOthers(old(files), files, memory.paths, i, origin, wanted)
      ensures o.Ok? ==> ItemParkedIn(files, memory.paths[i], origin, wanted)
      ensures o.Ok? ==> memory.paths[i].siblings.value.previous in files
      ensures Routine(o) && Blamed(o, old(faults))
    {
      hide Consistent, SwitchInv, ItemPreparedIn, ItemSwitchedIn, ItemParkedIn;
      var it := memory.paths[i];
      ShapeOfItem(files, memory.paths, i, memory.operation, origin, wanted);
      ParkItem(files, memory.paths, i, memory.operation, origin, wanted);
      MovingIsConsistent(Renamed(files, it.target, it.siblings.value.previous), saved.value, origin, wanted);
      o := Rename(it.target, it.siblings.value.previous);
    }

    /** The second rename of a switch: `staged -> target`. */
    method Seat(i: nat) returns (o: Ending)
      requires Moving() && i < |memory.paths| && ItemParkedIn(files, memory.paths[i], origin, wanted)
      requires var p := memory.paths[i].siblings.value.previous;
        p in files && files[p].meta == ClosedDown(files[p].directory)
      modifies this`files, this`trace, this`faults, this`healthy
      ensures Moving() && old(trace) <= trace
      ensures KeepsOthers(old(files), files, memory.paths, i, origin, wanted)
      ensures o.Ok? ==> ItemSwitchedIn(files, memory.paths[i], origin, wanted)
      ensures Routine(o) && Blamed(o, old(faults))
    {
      hide Consistent, SwitchInv, ItemPreparedIn, ItemSwitchedIn, ItemParkedIn;
      var it := memory.paths[i];
      ShapeOfItem(files, memory.paths, i, memory.operation, origin, wanted);
      SwitchItem(files, memory.paths, i, memory.operation, origin, wanted);
      MovingIsConsistent(Renamed(files, it.siblings.value.staged, it.target), saved.value, origin, wanted);
      o := Rename(it.siblings.value.staged, it.target);
    }

    /** Record the progress of item `i`. */
    method Mark(i: nat, mark: ItemState) returns (o: Ending)
      requires Moving() && i < |memory.states|
      modifies this`saved, this`memory, this`trace, this`faults
      ensures Moving() && old(trace) <= trace
      ensures memory == old(memory).(states := old(memory.states)[i := mark])
      ensures o.Ok? ==> saved == Some(memory)
      ensures Routine(o) && Blamed(o, old(faults))
    {
      hide Consistent, SwitchInv;
      memory := memory.(states := memory.states[i := mark]);
      MovingIsConsistent(files, memory, origin, wanted);
      o := Save();
    }

    /** Change owner and mode of the parked original of item `i`. */
    method Remeta(i: nat, m: Meta) returns (o: Ending)
      requires Moving() && i < |memory.paths|
      requires ItemParkedIn(files, memory.paths[i], origin, wanted)
      modifies this`files, this`trace, this`faults, this`healthy
      ensures Moving() && old(trace) <= trace
      ensures ItemParkedIn(files, memory.paths[i], origin, wanted)
      ensures KeepsOthers(old(files), files, memory.paths, i, origin, wanted)
      ensures o.Ok? ==> var p := memory.paths[i].siblings.value.previous;
                p in files && p in old(files) && files[p] == old(files[p]).(meta := m)
      ensures Routine(o) && Blamed(o, old(faults))
    {
      hide Consistent, SwitchInv, ItemPreparedIn, ItemSwitchedIn;
      var previous := memory.paths[i].siblings.value.previous;
      forall n: Meta
        ensures previous in files
        ensures Consistent(Now().(files := WithMeta(files, previous, n)))
      {
        RemetaItem(files, n, memory.paths, i, memory.operation, origin, wanted);
        MovingIsConsistent(WithMeta(files, previous, n), saved.value, origin, wanted);
      }
      ghost var before := files;
      o := SetMeta(previous, m);
      RemetaItem(before, files[previous].meta, memory.paths, i, memory.operation, origin, wanted);
    }

    /** Undo a switch from whatever shape a crash left, in reverse order. */
    method Rollback() returns (o: Ending)
      requires Safe() && Current() && PlanHolds() && |memory.states| == |memory.paths|
      requires memory.status != Done && !running
      requires memory.status == RolledBack || !memory.productionStopped ==>
                 AllPrepared(files, memory.paths, origin, wanted)
      modifies this`files, this`saved, this`memory, this`trace, this`faults, this`healthy
      ensures Safe() && old(trace) <= trace && PlanHolds()
      ensures memory.paths == old(memory.paths) && memory.operation == old(memory.operation)
      ensures memory.productionStopped == old(memory.productionStopped)
      // Every original content, kind, owner and mode is back where it was.
      ensures o.Ok? ==> AllPrepared(files, memory.paths, origin, wanted)
      ensures o.Ok? ==> saved == Some(memory) && memory.status == RolledBack && !memory.healthVerified && !healthy
      ensures o.Ok? ==> |memory.states| == |memory.paths|
      ensures o.Ok? ==> forall k :: 0 <= k < |memory.states| ==> memory.states[k] == ItemRolledBack
      // A second rollback changes no file.
      ensures old(AllPrepared(files, memory.paths, origin, wanted)) ==> files == old(files)
      ensures Routine(o) && Blamed(o, old(faults))
    {
      hide Consistent, SwitchInv, StageInv, ItemPreparedIn, ItemSwitchedIn, ItemParkedIn, HealthIsTrue;
      ghost var untouched := AllPrepared(files, memory.paths, origin, wanted);
      var i := |memory.paths|;
      while i > 0
        invariant 0 <= i <= |memory.paths|
        invariant Safe() && old(trace) <= trace && old(faults) <= faults && Current() && PlanHolds()
        invariant memory == old(memory).(states := memory.states) && |memory.states| == |memory.paths|
        invariant forall k :: i <= k < |memory.paths| ==>
                    ItemPreparedIn(files, memory.paths[k], origin, wanted) && memory.states[k] == ItemRolledBack
        invariant untouched ==> files == old(files)
      {
        i := i - 1;
        o := UndoItem(i);
        if !o.Ok? { return; }
        o := MarkUndone(i, untouched);
        if !o.Ok? { return; }
      }
      o := MarkRolledBack();
    }

    /** The end of a rollback.  Health has to be checked again before the gate can pass. */
    method MarkRolledBack() returns (o: Ending)
      requires Safe() && PlanHolds() && AllPrepared(files, memory.paths, origin, wanted)
      modifies this`saved, this`memory, this`trace, this`faults, this`healthy
      ensures Safe() && old(trace) <= trace && PlanHolds()
      ensures memory == old(memory).(status := RolledBack, healthVerified := false)
      ensures o.Ok? ==> saved == Some(memory) && !healthy
      ensures Routine(o) && Blamed(o, old(faults))
    {
      hide Consistent, SwitchInv, StageInv, AllPrepared;
      memory := memory.(status := RolledBack, healthVerified := false);
      PreparedIsConsistent(files, memory, origin, wanted);
      o := Save();
      if saved == Some(memory) { healthy := false; }
    }

    method MarkUndone(i: nat, ghost untouched: bool) returns (o: Ending)
      requires Safe() && Current() && PlanHolds() && i < |memory.states|
      requires memory.status != Done && (untouched ==> AllPrepared(files, memory.paths, origin, wanted))
      requires !untouched ==> memory.productionStopped && memory.status != RolledBack
      modifies this`saved, this`memory, this`trace, this`faults
      ensures Safe() && old(trace) <= trace && Current() && PlanHolds()
      ensures memory == old(memory).(states := old(memory.states)[i := ItemRolledBack])
      ensures o.Ok? ==> saved == Some(memory)
      ensures Routine(o) && Blamed(o, old(faults))
    {
      hide Consistent, SwitchInv, AllPrepared;
      memory := memory.(states := memory.states[i := ItemRolledBack]);
      if untouched {
        PreparedIsConsistent(files, memory, origin, wanted);
      } else {
        MovingIsConsistent(files, memory, origin, wanted);
      }
      o := Save();
    }

    /** One turn of the rollback loop: a switched item is first moved off its target. */
    method UndoItem(i: nat) returns (o: Ending)
      requires Safe() && Current() && PlanHolds() && i < |memory.paths|
      requires memory.status != Done && !running
      requires memory.status == RolledBack || !memory.productionStopped ==>
                 AllPrepared(files, memory.paths, origin, wanted)
      modifies this`files, this`trace, this`faults, this`healthy
      ensures Safe() && old(trace) <= trace && PlanHolds()
      ensures KeepsOthers(old(files), files, memory.paths, i, origin, wanted)
      ensures o.Ok? ==> ItemPreparedIn(files, memory.paths[i], origin, wanted)
      ensures ItemPreparedIn(old(files), memory.paths[i], origin, wanted) ==> files == old(files)
      ensures Routine(o) && Blamed(o, old(faults))
    {
      hide Consistent, SwitchInv, StageInv, ItemPreparedIn, ItemSwitchedIn, ItemParkedIn;
      var it := memory.paths[i];
      ShapeOfItem(files, memory.paths, i, memory.operation, origin, wanted);
      var target, failed, previous := it.target, it.siblings.value.staged, it.siblings.value.previous;
      if previous !in files { return Ok; }
      assert Moving();
      if target in files {
        UnswitchItem(files, memory.paths, i, memory.operation, origin, wanted);
        if failed in files { return Raised(ManualReconciliation); }
        MovingIsConsistent(Renamed(files, target, failed), saved.value, origin, wanted);
        o := Rename(target, failed);
        if !o.Ok? { return; }
      }
      o := Remeta(i, it.siblings.value.meta);
      if !o.Ok? { return; }
      UnparkItem(files, memory.paths, i, memory.operation, origin, wanted);
      MovingIsConsistent(Renamed(files, previous, target), saved.value, origin, wanted);
      o := Rename(previous, target);
    }

    // -------------------------------------------------------------- staging

    /** The journal on disk belongs to this operation and predates the stop. */
    ghost predicate Staging()
      reads this
    {
      && Safe() && OperationName(memory.operation) && |memory.states| == |memory.paths|
      && !memory.productionStopped && memory.status != Done
      && StageInv(files, memory.paths, memory.operation, origin)
      && saved.Some? && saved.value.operation == memory.operation && !saved.value.productionStopped
    }

    method CleanupStaging() returns (o: Ending)
      requires Staging()
      modifies this`files, this`trace, this`faults
      ensures Staging() && old(trace) <= trace
      // Only objects this operation named are removed, and nothing of it is left.
      ensures forall p :: p in origin ==> p in files && files[p] == origin[p]
      ensures forall p :: p in old(files) && p !in files ==> NamesStaged(memory.paths, p)
      ensures o.Ok? ==> files == origin
      ensures Routine(o) && Blamed(o, old(faults))
    {
      hide Consistent, StageInv, StagedPath;
      StagingLeavesOriginals(files, memory.paths, memory.operation, origin);
      o := External(); // remove the staging containers
      if !o.Ok? { return; }
      var i := 0;
      while i < |memory.paths|
        invariant 0 <= i <= |memory.paths|
        invariant Staging() && old(trace) <= trace && old(faults) <= faults
        invariant forall p :: p in origin ==> p in files && files[p] == origin[p]
        invariant forall p :: p in old(files) && p !in files ==> NamesStaged(memory.paths, p)
        invariant forall k :: 0 <= k < i && memory.paths[k].siblings.Some? ==>
                    memory.paths[k].siblings.value.staged !in files
      {
        o := RemoveStaged(i);
        if !o.Ok? { return; }
        i := i + 1;
      }
      NothingLeft(files, memory.paths, memory.operation, origin);
      o := External(); // remove the scratch directory
    }

    /** Removes the staged sibling of item `i`, by the name the operation gives it. */
    method RemoveStaged(i: nat) returns (o: Ending)
      requires Staging() && i < |memory.paths|
      modifies this`files, this`trace, this`faults
      ensures Staging() && old(trace) <= trace
      ensures forall p :: p in origin ==> p in files && files[p] == origin[p]
      ensures forall p :: p in files && p !in old(files) ==> !o.Ok?
      ensures forall p :: p in old(files) && p !in files ==> NamesStaged(memory.paths, p)
      ensures o.Ok? && memory.paths[i].siblings.Some? ==> memory.paths[i].siblings.value.staged !in files
      ensures Routine(o) && Blamed(o, old(faults))
    {
      hide Consistent, StageInv, StagedPath;
      o := Ok;
      var it := memory.paths[i];
      StagingLeavesOriginals(files, memory.paths, memory.operation, origin);
      if it.siblings.Some? {
        var staged := it.siblings.value.staged;
        if staged != StagedPath(it.target, memory.operation) { return Raised(SiblingOutsideScope); }
        if staged in files {
          ghost var before := files;
          UntouchedUntilStopped(Now());
          assert NamesStaged(memory.paths, staged);
          o := Scratch(staged, None);
          ScratchKeepsStage(before, files, staged, memory.paths, memory.operation, origin);
          StagingLeavesOriginals(files, memory.paths, memory.operation, origin);
          forall p | p in files && p !in before ensures !o.Ok? {
            assert p != staged ==> Same(files, before, p);
          }
          forall p | p in before && p !in files ensures NamesStaged(memory.paths, p) {
            assert p != staged ==> Same(files, before, p);
          }
        }
      }
    }

    method StageSiblings(enrolled: seq<Enrolled>, c: Capture) returns (o: Ending)
      requires Staging() && files == origin && NoneIsSibling(enrolled, memory.operation)
      requires memory.status == Preparing
      requires |memory.paths| == |memory.states| == |enrolled|
      requires forall k :: 0 <= k < |enrolled| ==> memory.paths[k] == Item(enrolled[k].target, None)
      modifies this`files, this`saved, this`memory, this`trace, this`wanted, this`faults
      ensures Staging() && old(trace) <= trace
      ensures memory == old(memory).(paths := memory.paths, states := memory.states)
      ensures |memory.paths| == |memory.states| == |enrolled|
      ensures o.Ok? ==> SwitchInv(files, memory.paths, memory.operation, origin, wanted)
      ensures o.Ok? ==> AllPrepared(files, memory.paths, origin, wanted)
      ensures o.Ok? ==> forall k :: 0 <= k < |enrolled| ==> memory.paths[k].target == enrolled[k].target
      ensures o.Ok? ==> WantsFirst(|enrolled|, enrolled, c)
      ensures o.Ok? ==> forall k :: 0 <= k < |enrolled| ==> memory.states[k] == ItemPrepared
      ensures Routine(o) && old(faults) <= faults
      // Without a fault it refuses only a target that was missing, or a sibling in the way.
      ensures || Blamed(o, old(faults))
              || (o == Raised(TargetMissing) && Missing(enrolled, origin))
              || (o == Raised(SiblingExists) && Occupied(enrolled, memory.operation, origin))
    {
      hide Consistent, StageInv, Plan, ItemPreparedIn, ItemSwitchedIn, StagedPath, PreviousPath;
      hide Missing, Occupied, NoneIsSibling;
      ghost var empty: Files := map[];
      NothingStaged(memory.paths, origin, memory.operation);
      Widen(empty);
      var i := 0;
      while i < |enrolled|
        invariant 0 <= i <= |enrolled|
        invariant Staging() && old(trace) <= trace && old(faults) <= faults
        invariant memory == old(memory).(paths := memory.paths, states := memory.states)
        invariant |memory.paths| == |memory.states| == |enrolled|
        invariant StagedUpTo(files, memory.paths, i, memory.operation, origin, wanted)
        invariant forall k :: 0 <= k < |enrolled| ==> memory.paths[k].target == enrolled[k].target
        invariant WantsFirst(i, enrolled, c)
        invariant forall k :: 0 <= k < i ==> memory.states[k] == ItemPrepared
      {
        o := StageOne(i, enrolled, c);
        if !o.Ok? { return; }
        i := i + 1;
      }
      AllStaged(files, memory.paths, memory.operation, origin, wanted);
      o := External(); // flush the staged contents
    }

    /** The first `n` targets are to receive what the bundle has for them. */
    ghost predicate WantsFirst(n: nat, enrolled: seq<Enrolled>, c: Capture)
      reads this`wanted
    {
      && n <= |enrolled|
      && forall k :: 0 <= k < n ==>
           enrolled[k].target in wanted && wanted[enrolled[k].target] == NodeFor(c, enrolled[k])
    }

    /** The nodes an operation is to restore become known one by one while it stages. */
    ghost method Widen(w: Files)
      requires Staging()
      modifies this`wanted, this`trace
      ensures Staging() && wanted == w && old(trace) <= trace
    {
      wanted := w;
      trace := trace + [Now()];
    }

    method StageOne(i: nat, enrolled: seq<Enrolled>, c: Capture) returns (o: Ending)
      requires Staging() && NoneIsSibling(enrolled, memory.operation) && memory.status == Preparing
      requires i < |enrolled| == |memory.paths| == |memory.states|
      requires StagedUpTo(files, memory.paths, i, memory.operation, origin, wanted)
      requires forall k :: 0 <= k < |enrolled| ==> memory.paths[k].target == enrolled[k].target
      requires WantsFirst(i, enrolled, c)
      modifies this`files, this`saved, this`memory, this`trace, this`wanted, this`faults
      ensures Staging() && old(trace) <= trace
      ensures memory == old(memory).(paths := memory.paths, states := memory.states)
      ensures |memory.paths| == |memory.states| == |enrolled|
      ensures forall k :: 0 <= k < |enrolled| ==> memory.paths[k].target == enrolled[k].target
      ensures o.Ok? ==> StagedUpTo(files, memory.paths, i + 1, memory.operation, origin, wanted)
      ensures o.Ok? ==> WantsFirst(i + 1, enrolled, c)
      ensures forall k :: 0 <= k < i ==> memory.states[k] == old(memory).states[k]
      ensures o.Ok? ==> memory.states[i] == ItemPrepared
      ensures Routine(o) && old(faults) <= faults
      ensures || Blamed(o, old(faults))
              || (o == Raised(TargetMissing) && Missing(enrolled, origin))
              || (o == Raised(SiblingExists) && Occupied(enrolled, memory.operation, origin))
    {
      hide Missing, Occupied, StagedUpTo;
      hide Consistent, StageInv, Plan, AllPrepared, ItemPreparedIn, StagedPath, PreviousPath;
      var op, target := memory.operation, memory.paths[i].target;
      if target !in files {
        StagingLeavesOriginals(files, memory.paths, op, origin);
        IsMissing(enrolled, i, origin);
        return Raised(TargetMissing);
      }
      var staged, previous := StagedPath(target, op), PreviousPath(target, op);
      if staged in files || previous in files {
        IsOccupied(enrolled, i);
        return Raised(SiblingExists);
      }
      o := NameOne(i, NodeFor(c, enrolled[i]));
      if !o.Ok? { return; }
      o := FillOne(i, NodeFor(c, enrolled[i]));
    }

    lemma IsOccupied(enrolled: seq<Enrolled>, i: nat)
      requires StagedUpTo(files, memory.paths, i, memory.operation, origin, wanted)
      requires i < |enrolled| == |memory.paths|
      requires forall k :: 0 <= k < |enrolled| ==> memory.paths[k].target == enrolled[k].target
      requires var t := enrolled[i].target;
        StagedPath(t, memory.operation) in files || PreviousPath(t, memory.operation) in files
      ensures Occupied(enrolled, memory.operation, origin)
    {
      hide StagedUpTo, StagedPath, PreviousPath;
      SiblingInTheWay(files, memory.paths, i, memory.operation, origin, wanted);
    }

    /** Copies the node of item `i` to its named sibling. */
    method FillOne(i: nat, node: Node) returns (o: Ending)
      requires Staging() && i < |memory.paths| && memory.paths[i].siblings.Some?
      requires NamesStaged(memory.paths, StagedPath(memory.paths[i].target, memory.operation))
      requires memory.paths[i].siblings.value.staged == StagedPath(memory.paths[i].target, memory.operation)
      requires Plan(memory.paths[..i + 1], memory.operation, origin, wanted)
      requires AllPrepared(files, memory.paths[..i], origin, wanted)
      requires forall k :: i < k < |memory.paths| ==> memory.paths[k].siblings.None?
      requires Same(files, origin, memory.paths[i].target)
      requires memory.paths[i].siblings.value.previous !in files
      requires memory.paths[i].target in wanted && wanted[memory.paths[i].target] == node
      requires saved == Some(memory)
      modifies this`files, this`memory, this`trace, this`faults
      ensures Staging() && old(trace) <= trace
      ensures memory == old(memory).(states := memory.states) && |memory.states| == |old(memory).states|
      ensures forall k :: 0 <= k < |memory.states| && k != i ==> memory.states[k] == old(memory).states[k]
      ensures o.Ok? ==> i < |memory.states| && memory.states[i] == ItemPrepared
      ensures o.Ok? ==> StagedUpTo(files, memory.paths, i + 1, memory.operation, origin, wanted)
      ensures Routine(o) && Blamed(o, old(faults))
    {
      hide Consistent, StageInv, Plan, AllPrepared, StagedUpTo, StagedPath;
      ghost var before := files;
      var staged := memory.paths[i].siblings.value.staged;
      o := Scratch(staged, Some(node));
      ScratchKeepsStage(before, files, staged, memory.paths, memory.operation, origin);
      if !o.Ok? { return; }
      FillItem(before, files, memory.paths, i, memory.operation, origin, wanted);
      memory := memory.(states := memory.states[i := ItemPrepared]);
    }

    /** Name the siblings of item `i` in the journal, and only then let them exist. */
    method NameOne(i: nat, node: Node) returns (o: Ending)
      requires Staging() && i < |memory.paths| == |memory.states| && memory.status == Preparing
      requires StagedUpTo(files, memory.paths, i, memory.operation, origin, wanted)
      requires var t := memory.paths[i].target;
        t in files && StagedPath(t, memory.operation) !in files && PreviousPath(t, memory.operation) !in files
      requires forall k :: 0 <= k < i ==> memory.paths[i].target != StagedPath(memory.paths[k].target, memory.operation)
      modifies this`saved, this`memory, this`trace, this`wanted, this`faults
      ensures Staging() && old(trace) <= trace
      ensures memory == old(memory).(paths := memory.paths, states := memory.states)
      ensures |memory.paths| == |memory.states| == |old(memory).paths|
      ensures memory.states == old(memory).states[i := ItemPreparing]
      ensures var t := old(memory).paths[i].target;
        && t in origin && Same(files, origin, t)
        && memory.paths == old(memory).paths[i := Named(t, memory.operation, files[t].meta)]
        && wanted == old(wanted)[t := node]
      ensures NamesStaged(memory.paths, StagedPath(memory.paths[i].target, memory.operation))
      ensures Plan(memory.paths[..i + 1], memory.operation, origin, wanted)
      ensures AllPrepared(files, memory.paths[..i], origin, wanted)
      ensures forall k :: 0 <= k < i ==> memory.paths[k].target != memory.paths[i].target
      ensures forall k :: i < k < |memory.paths| ==> memory.paths[k].siblings.None?
      ensures o.Ok? ==> saved == Some(memory)
      ensures Routine(o) && Blamed(o, old(faults))
    {
      hide Consistent, StageInv, Plan, AllPrepared, ItemPreparedIn, StagedPath, PreviousPath;
      var op, target := memory.operation, memory.paths[i].target;
      NameItem(files, memory.paths, i, op, origin, wanted, node);
      Widen(wanted[target := node]);
      memory := memory.(
        paths := memory.paths[i := Named(target, op, files[target].meta)],
        states := memory.states[i := ItemPreparing]);
      PlanTargetsDiffer(memory.paths[..i + 1], i, op, origin, wanted);
      assert forall k :: 0 <= k < i ==> memory.paths[k].target == memory.paths[..i + 1][k].target;
      StagingIsConsistent(files, memory, origin, wanted);
      o := Save();
    }

    // -------------------------------------------------------------- the operation

    /** The guarded body of `restore`.  `stopped` is set just before the journal
        says so, and stays set however the body ends. */
    method Attempt(enrolled: seq<Enrolled>, c: Capture, qualifyOnly: bool) returns (o: Ending, stopped: bool)
      requires Staging() && saved == Some(memory) && memory.status == Preparing && files == origin
      requires memory.paths == [] && memory.states == []
      modifies this`files, this`saved, this`memory, this`trace, this`wanted, this`faults, this`healthy, this`running
      ensures Safe() && old(trace) <= trace && saved.Some?
      ensures memory.operation == old(memory.operation) && |memory.paths| == |memory.states|
      ensures !stopped ==> Staging()
      ensures stopped ==> PlanHolds() && !qualifyOnly
      ensures stopped && !memory.productionStopped ==> AllPrepared(files, memory.paths, origin, wanted)
      ensures qualifyOnly ==> files == origin
      ensures o.Ok? && !qualifyOnly ==>
                && stopped && saved == Some(memory) && memory.status == Done && memory.healthVerified
                && memory.productionStopped && WantsFirst(|enrolled|, enrolled, c)
      ensures o.Ok? ==>
                && AllExtract(c, enrolled)
                && (qualifyOnly || (!Missing(enrolled, origin) && !Occupied(enrolled, memory.operation, origin)))
      ensures Routine(o) && old(faults) <= faults
      ensures || Blamed(o, old(faults))
              || (!stopped && o == Raised(SourceAbsent) && !AllExtract(c, enrolled))
              || (!stopped && o == Raised(TargetMissing) && !qualifyOnly && Missing(enrolled, origin))
              || (!stopped && o == Raised(SiblingExists) && !qualifyOnly
                    && Occupied(enrolled, memory.operation, origin))
    {
      hide Consistent, StageInv, SwitchInv, Plan, ItemPreparedIn, ItemSwitchedIn, ItemParkedIn, StagedPath;
      hide Offers, AllExtract, NoneIsSibling, Missing, Occupied, HealthIsTrue;
      stopped := false;
      o := External(); // scratch directory, download, unpack, compatibility, database staging
      if !o.Ok? { return; }
      o := Unpack(enrolled, c);
      if !o.Ok? { return; }
      o := External(); // on the way to the qualification proof
      if !o.Ok? || qualifyOnly { return; }
      ExtractedAreNoSiblings(c, enrolled, memory.operation);
      o := StageSiblings(enrolled, c);
      if !o.Ok? { return; }
      StagedWasInPlace(enrolled);
      o := External(); // profile revalidation
      if !o.Ok? { return; }
      stopped := true;
      o := External(); // an interrupting signal may arrive here
      if !o.Ok? { return; }
      o := SwitchOver();
    }

    lemma StagedWasInPlace(enrolled: seq<Enrolled>)
      requires |memory.paths| == |enrolled|
      requires forall k :: 0 <= k < |enrolled| ==> memory.paths[k].target == enrolled[k].target
      requires SwitchInv(files, memory.paths, memory.operation, origin, wanted)
      ensures !Missing(enrolled, origin) && !Occupied(enrolled, memory.operation, origin)
    {
      PlanMeansStageable(memory.paths, memory.operation, origin, wanted);
      hide StagedPath, PreviousPath, SwitchInv;
    }

    /** `extract_subset` for one enrolled path after the other; `items` grows with them. */
    method Unpack(enrolled: seq<Enrolled>, c: Capture) returns (o: Ending)
      requires Staging() && memory.paths == [] && memory.states == [] && files == origin
      modifies this`memory, this`faults
      ensures Staging()
      ensures memory == old(memory).(paths := memory.paths, states := memory.states)
      ensures o.Ok? ==> AllExtract(c, enrolled)
      ensures o.Ok? ==> |memory.paths| == |memory.states| == |enrolled|
      ensures o.Ok? ==> forall k :: 0 <= k < |enrolled| ==> memory.paths[k] == Item(enrolled[k].target, None)
      ensures Routine(o) && old(faults) <= faults
      ensures Blamed(o, old(faults)) || (o == Raised(SourceAbsent) && !AllExtract(c, enrolled))
    {
      hide Consistent, StageInv, Extracts, Offers;
      var i := 0;
      while i < |enrolled|
        invariant 0 <= i <= |enrolled| && old(faults) <= faults
        invariant Staging() && |memory.paths| == |memory.states| == i
        invariant memory == old(memory).(paths := memory.paths, states := memory.states)
        invariant forall k :: 0 <= k < i ==> memory.paths[k] == Item(enrolled[k].target, None)
        invariant forall k :: 0 <= k < i ==> Offers(c, enrolled[k])
      {
        ExtractsMeans(c, enrolled[i]);
        if !Extracts(c, enrolled[i]) { return Raised(SourceAbsent); } // selected recovery path absent
        o := External(); // unpack
        if !o.Ok? { return; }
        memory := memory.(paths := memory.paths + [Item(enrolled[i].target, None)],
                          states := memory.states + [ItemPlanned]);
        NothingStaged(memory.paths, origin, memory.operation);
        i := i + 1;
      }
      o := Ok;
    }

    /** The part of `restore` from the stop of production to its verified restart. */
    method SwitchOver() returns (o: Ending)
      requires Safe() && saved.Some? && PlanHolds() && |memory.paths| == |memory.states|
      requires AllPrepared(files, memory.paths, origin, wanted)
      modifies this`files, this`saved, this`memory, this`trace, this`faults, this`healthy, this`running
      ensures Safe() && old(trace) <= trace && saved.Some? && PlanHolds() && memory.productionStopped
      ensures memory.operation == old(memory.operation) && memory.paths == old(memory.paths)
      ensures |memory.paths| == |memory.states|
      ensures o.Ok? ==> saved == Some(memory) && memory.status == Done && memory.healthVerified
      ensures Routine(o) && Blamed(o, old(faults))
    {
      hide Consistent, SwitchInv, AllPrepared, AllSwitched;
      o := StopProduction();
      if !o.Ok? { return; }
      o := SwitchPaths();
      if !o.Ok? { return; }
      o := Restart();
    }

    /** Save a journal whose items are still prepared. */
    method SavePrepared(status: Status) returns (o: Ending)
      requires Safe() && PlanHolds() && AllPrepared(files, memory.paths, origin, wanted)
      requires status != Done && status != RolledBack
      modifies this`saved, this`memory, this`trace, this`faults
      ensures Safe() && old(trace) <= trace && PlanHolds() && (old(saved).Some? ==> saved.Some?)
      ensures memory == old(memory).(status := status)
      ensures o.Ok? ==> saved == Some(memory)
      ensures Routine(o) && Blamed(o, old(faults))
    {
      hide Consistent, SwitchInv, StageInv, AllPrepared;
      memory := memory.(status := status);
      PreparedIsConsistent(files, memory, origin, wanted);
      o := Save();
    }

    /** The journal says `productionStopped` before anything is stopped or moved. */
    method StopProduction() returns (o: Ending)
      requires Safe() && saved.Some? && PlanHolds() && |memory.paths| == |memory.states|
      requires AllPrepared(files, memory.paths, origin, wanted)
      modifies this`saved, this`memory, this`trace, this`faults, this`running
      ensures Safe() && old(trace) <= trace && saved.Some? && PlanHolds() && memory.productionStopped
      ensures memory == old(memory).(status := memory.status, productionStopped := true)
      ensures o.Ok? ==> saved == Some(memory) && memory.status == Switching && !running
      ensures Routine(o) && Blamed(o, old(faults))
    {
      hide Consistent, SwitchInv, StageInv, AllPrepared;
      memory := memory.(productionStopped := true);
      o := SavePrepared(Stopping);
      if !o.Ok? { return; }
      o := StopContainers(); // clients before databases
      if !o.Ok? { return; }
      o := SavePrepared(Switching);
    }

    method Restart() returns (o: Ending)
      requires Safe() && saved.Some? && PlanHolds() && memory.productionStopped && memory.status != RolledBack
      requires AllSwitched(files, memory.paths, origin, wanted)
      modifies this`saved, this`memory, this`trace, this`faults, this`healthy, this`running
      ensures Safe() && old(trace) <= trace && saved.Some? && PlanHolds() && memory.productionStopped
      ensures memory == old(memory).(status := memory.status, healthVerified := memory.healthVerified)
      ensures o.Ok? ==> saved == Some(memory) && memory.status == Done && memory.healthVerified
      ensures Routine(o) && Blamed(o, old(faults))
    {
      hide Consistent, SwitchInv, AllSwitched, HealthIsTrue;
      o := MarkStarting();
      if !o.Ok? { return; }
      o := Boot();
      if !o.Ok? { return; }
      o := MarkDone();
      if !o.Ok? { return; }
      o := External(); // latest-production-restore.json
    }

    method MarkStarting() returns (o: Ending)
      requires Safe() && saved.Some? && PlanHolds() && memory.productionStopped && memory.status != RolledBack
      requires AllSwitched(files, memory.paths, origin, wanted)
      modifies this`saved, this`memory, this`trace, this`faults
      ensures Safe() && old(trace) <= trace && saved.Some? && PlanHolds()
      ensures memory == old(memory).(status := Starting)
      ensures o.Ok? ==> saved == Some(memory)
      ensures Routine(o) && Blamed(o, old(faults))
    {
      hide Consistent, SwitchInv, AllSwitched;
      memory := memory.(status := Starting);
      SwitchedIsConsistent(files, memory, origin, wanted);
      o := Save();
    }

    /** The end of a restore, once everything runs and is well. */
    method MarkDone() returns (o: Ending)
      requires Safe() && saved.Some? && PlanHolds() && memory.productionStopped && healthy && running
      requires AllSwitched(files, memory.paths, origin, wanted)
      modifies this`saved, this`memory, this`trace, this`faults
      ensures Safe() && old(trace) <= trace && saved.Some? && PlanHolds()
      ensures memory == old(memory).(status := Done, healthVerified := true)
      ensures o.Ok? ==> saved == Some(memory)
      ensures Routine(o) && Blamed(o, old(faults))
    {
      hide Consistent, SwitchInv, AllSwitched;
      memory := memory.(status := Done, healthVerified := true);
      SwitchedIsConsistent(files, memory, origin, wanted);
      o := Save();
    }

    /** `restore`. */
    method Restore(op: string, enrolled: seq<Enrolled>, c: Capture, qualifyOnly: bool) returns (o: Ending)
      requires Safe()
      modifies this
      ensures Safe() && old(trace) <= trace
      ensures o.Ok? && !qualifyOnly ==>
                && saved.Some? && saved.value.status == Done && saved.value.healthVerified
                && (forall k :: 0 <= k < |enrolled| ==>
                      enrolled[k].target in files && files[enrolled[k].target] == NodeFor(c, enrolled[k]))
      ensures o.Ok? && qualifyOnly ==>
                saved.Some? && saved.value.status == RolledBack && saved.value.healthVerified && files == old(files)
      ensures forall a :: a in old(archive) ==> a in archive && archive[a] == old(archive)[a]
      ensures Routine(o) && old(faults) <= faults
      // Without a fault it succeeds, or refuses for the reason it gives and leaves every
      // file as it was.
      ensures || Blamed(o, old(faults))
              || (o.Raised? && files == old(files)
                    && TurnedDown(o.error, old(saved), old(archive), old(files), op, enrolled, c, qualifyOnly))
      // So without a fault it succeeds exactly when this was so beforehand.
      ensures faults == old(faults) ==>
                (o.Ok? <==> Restorable(old(saved), old(archive), old(files), op, enrolled, c, qualifyOnly))
      ensures faults == old(faults) && o.Raised? && o.error in {SourceAbsent, TargetMissing, SiblingExists} ==>
                saved.Some? && saved.value.status == RolledBack && saved.value.healthVerified
    {
      hide Consistent, StageInv, SwitchInv, Plan, AllPrepared, ItemPreparedIn, ItemSwitchedIn;
      hide AllExtract, Missing, Occupied, HealthIsTrue;
      o := Admit(op);
      if !o.Ok? { return; }
      var stopped;
      o, stopped := Attempt(enrolled, c, qualifyOnly);
      if o.Crashed? { return; }
      if stopped {
        if o.Ok? {
          DoneMeans(Now());
        } else {
          var undone := GiveBack();
          if !undone.Ok? { o := undone; }
        }
      } else {
        var cleaned := FinishStaging();
        if !cleaned.Ok? { o := cleaned; }
      }
    }

    /** What precedes the guarded body: the settlement gate, the checks and the durable
        intent, without which nothing is decrypted or staged. */
    method Admit(op: string) returns (o: Ending)
      requires Safe()
      modifies this
      ensures Safe() && old(trace) <= trace && files == old(files)
      ensures o.Ok? ==>
                && Staging() && saved == Some(memory) && files == origin
                && memory == Journal(op, Preparing, false, false, [], [])
      ensures forall a :: a in old(archive) ==> a in archive && archive[a] == old(archive)[a]
      ensures Routine(o) && old(faults) <= faults
      ensures || Blamed(o, old(faults))
              || (o == Raised(IncompleteRestore) && old(saved).Some?
                    && ((old(saved).value.status != Done && old(saved).value.status != RolledBack)
                        || !old(saved).value.healthVerified))
              || (o == Raised(AlreadyArchived) && old(saved).Some? && old(saved).value.operation in old(archive))
              || (o == Raised(InvalidOperation) && !OperationName(op))
      ensures o.Ok? ==> SettlementAllows(old(saved), old(archive)) && OperationName(op)
    {
      hide Consistent, StageInv;
      o := Settle();
      if !o.Ok? { return; }
      if !OperationName(op) { return Raised(InvalidOperation); }
      o := External(); // profile, authorization and digest checks
      if !o.Ok? { return; }
      Begin(op);
      o := Save();
    }

    /** A fresh journal; from here on `origin` is what the operation found. */
    method Begin(op: string)
      requires Safe() && saved.None? && OperationName(op)
      modifies this`memory, this`origin, this`wanted, this`trace
      ensures Safe() && old(trace) <= trace && origin == files
      ensures memory == Journal(op, Preparing, false, false, [], [])
      ensures Consistent(Now().(journal := Some(memory))) && StageInv(files, [], op, origin)
    {
      memory := Journal(op, Preparing, false, false, [], []);
      origin, wanted := files, map[];
      trace := trace + [Now()];
    }

    /** The exception handler of `restore` after production may have been stopped. */
    method GiveBack() returns (o: Ending)
      requires Safe() && saved.Some? && PlanHolds() && |memory.paths| == |memory.states|
      requires !memory.productionStopped ==> AllPrepared(files, memory.paths, origin, wanted)
      modifies this`files, this`saved, this`memory, this`trace, this`faults, this`healthy, this`running
      ensures Safe() && old(trace) <= trace
      ensures o.Ok? ==> saved.Some? && saved.value.status == RolledBack && saved.value.healthVerified
      ensures Routine(o) && Blamed(o, old(faults))
    {
      hide Consistent, StageInv, SwitchInv, AllPrepared, ItemPreparedIn;
      memory := memory.(status := RollbackRequired);
      if memory.productionStopped {
        MovingIsConsistent(files, memory, origin, wanted);
      } else {
        PreparedIsConsistent(files, memory, origin, wanted);
      }
      o := Save();
      if !o.Ok? { return; }
      o := StopContainers();
      if !o.Ok? { return; }
      o := Rollback();
      if !o.Ok? { return; }
      o := Reverify();
    }

    /** Boot, health check and the verified mark after a completed rollback. */
    method Reverify() returns (o: Ending)
      requires Safe() && PlanHolds() && saved == Some(memory) && memory.status == RolledBack
      requires AllPrepared(files, memory.paths, origin, wanted)
      modifies this`saved, this`memory, this`trace, this`faults, this`healthy, this`running
      ensures Safe() && old(trace) <= trace
      ensures o.Ok? ==> saved.Some? && saved.value.status == RolledBack && saved.value.healthVerified
      ensures Routine(o) && Blamed(o, old(faults))
    {
      hide Consistent, StageInv, SwitchInv, AllPrepared, ItemPreparedIn;
      o := Boot();
      if !o.Ok? { return; }
      memory := memory.(healthVerified := true);
      PreparedIsConsistent(files, memory, origin, wanted);
      o := Save();
    }

    /** The clean-up of `restore`, and of a recovery, when production never stopped. */
    method FinishStaging() returns (o: Ending)
      requires Staging()
      modifies this`files, this`saved, this`memory, this`trace, this`faults, this`healthy, this`running
      ensures Safe() && old(trace) <= trace
      ensures forall p :: p in origin ==> p in files && files[p] == origin[p]
      ensures o.Ok? ==> saved.Some? && saved.value.status == RolledBack && saved.value.healthVerified && files == origin
      ensures Routine(o) && Blamed(o, old(faults))
    {
      hide Consistent, StageInv;
      o := CleanupStaging();
      if !o.Ok? { return; }
      o := CheckHealth();
      if !o.Ok? { return; }
      memory := memory.(status := RolledBack, healthVerified := true);
      StagingIsConsistent(files, memory, origin, wanted);
      o := Save();
    }

    /** `recover_rollback`, run by root after a crash on nothing but the disk. */
    method RecoverRollback() returns (o: Ending)
      requires Safe()
      modifies this`files, this`saved, this`memory, this`trace, this`faults, this`healthy, this`running, this`redone
      ensures Safe() && old(trace) <= trace
      ensures o.Ok? ==>
                && saved.Some? && saved.value.status == RolledBack && saved.value.healthVerified
                && AllOriginal(Now(), saved.value.paths)
      // A journal already rolled back: no file is touched again.
      ensures old(saved).Some? && old(saved).value.productionStopped && old(saved).value.status == RolledBack ==>
                files == old(files)
      ensures Routine(o) && old(faults) <= faults
      // Without a fault it succeeds on every journal that is not done.
      ensures old(saved).Some? && old(saved).value.status != Done ==> Blamed(o, old(faults))
      ensures redone == old(redone) || (old(saved).Some? && SaysHealthy(old(saved).value))
    {
      hide Consistent, StageInv, SwitchInv, AllPrepared, ItemPreparedIn;
      if saved.None? { return Raised(NoJournal); }
      memory := saved.value;
      ReadBack(Now());
      if memory.status == Done { return Raised(CompletedRestore); }
      o := External(); // signature, runtime inspection
      if !o.Ok? { return; }
      if !memory.productionStopped {
        o := FinishStaging();
      } else {
        o := StopForRollback();
        if !o.Ok? { return; }
        o := Rollback();
        if !o.Ok? { return; }
        o := Reverify();
      }
      if o.Ok? { SettledIsWhole(Now()); }
    }

    /** The stop before a rollback.  A journal that is rolled back and verified already goes
        on saying so while the containers are down. */
    method StopForRollback() returns (o: Ending)
      requires Safe() && saved == Some(memory) && memory.productionStopped
      modifies this`faults, this`running, this`redone
      ensures Safe() && !running
      ensures redone == old(redone) + if SaysHealthy(memory) then 1 else 0
      ensures Routine(o) && Blamed(o, old(faults))
    {
      hide Consistent;
      if SaysHealthy(memory) { redone := redone + 1; }
      o := StopContainers();
    }

    /** Any life of the host: operations, recoveries and settlements in any order, each
        ending well, failing or crashing anywhere, recoveries included. */
    method Live(requests: seq<Request>)
      requires Safe()
      modifies this
      ensures forall i :: 0 <= i < |trace| ==> Consistent(trace[i]) && Whole(trace[i])
      ensures old(trace) <= trace && Whole(Now())
      // What says that its health was verified was found healthy after the last move, and
      // has been up since unless a verified journal was rolled back once more.
      ensures saved.Some? && (saved.value.status == Done || saved.value.status == RolledBack)
                && saved.value.healthVerified ==>
                healthy && (running || redone > 0)
    {
      hide Consistent, Whole;
      for i := 0 to |requests|
        invariant Safe() && old(trace) <= trace && old(faults) <= faults
      {
        var o;
        match requests[i] {
          case RestoreRequest(op, enrolled, c, qualifyOnly) => o := Restore(op, enrolled, c, qualifyOnly);
          case RecoverRequest => o := RecoverRollback();
          case SettleRequest => o := Settle();
        }
      }
      forall i | 0 <= i < |trace| ensures Whole(trace[i]) {
        SettledIsWhole(trace[i]);
      }
      SettledIsWhole(Now());
    }
  }
}
