/**
 Pausing writers for a consistent capture.

 The containers to unpause are written to a journal before they are paused, the capture
 undoes its own pauses on the way out, and `recover_unpause` finishes the work of a
 capture that was killed.  A step may fail before or after it took effect, and the
 process may die at any step.
 */
module PauseJournal {

  import opened Sequences
  import opened Wrappers

  /** `wanted`: on the pause list and running. */
  datatype Container = Container(id: string, wanted: bool)

  datatype PauseError = Unreconciled | AlreadyPaused | StillPaused | Unrecognized | HostFailed

  /** What outlives the process. */
  datatype Durable = Durable(paused: set<string>, journal: Option<seq<string>>)

  /** `start` was paused before the capture.  Whatever else is paused is in the journal,
      and the journal names nothing that was paused before. */
  ghost predicate Accounted(d: Durable, start: set<string>) {
    && start <= d.paused
    && match d.journal
       case None => d.paused == start
       case Some(ids) => d.paused <= start + Elements(ids) && Elements(ids) !! start
  }

  /** Unpausing exactly what the journal names gives back the state before the capture. */
  lemma JournalIsEnough(d: Durable, start: set<string>)
    requires Accounted(d, start)
    ensures d.journal.None? ==> d.paused == start
    ensures d.journal.Some? ==> d.paused - Elements(d.journal.value) == start
  {
    if d.journal.Some? {
      var ids := Elements(d.journal.value);
      assert start - ids == start;
    }
  }

  ghost predicate NoneTwice(ids: seq<string>) {
    forall i, j :: 0 <= i < j < |ids| ==> ids[i] != ids[j]
  }

  ghost predicate Distinct(containers: seq<Container>) {
    forall i, j :: 0 <= i < j < |containers| ==> containers[i].id != containers[j].id
  }

  ghost predicate AllPaused(containers: seq<Container>, d: Durable) {
    forall c :: c in containers && c.wanted ==> c.id in d.paused
  }

  lemma AddNew(memory: seq<string>, id: string, containers: seq<Container>, i: nat)
    requires Distinct(containers) && i < |containers| && containers[i].id == id && NoneTwice(memory)
    requires forall x :: x in memory ==> exists k :: 0 <= k < i && containers[k].id == x
    ensures NoneTwice(memory + [id])
  {
    forall k | 0 <= k < |memory| ensures memory[k] != id {
      assert memory[k] in memory;
    }
  }

  class Host {
    var paused: set<string>
    var journal: Option<seq<string>>
    ghost var start: set<string>
    /** Every durable state so far, each with what was paused before. */
    ghost var trace: seq<(Durable, set<string>)>
    /** How many steps failed on their own. */
    ghost var faults: nat

    /** Anything but success has a step to blame that failed since then. */
    ghost predicate Blamed(o: Outcome<PauseError>, before: nat)
      reads this`faults
    {
      before <= faults && (o.Ok? || before < faults)
    }

    ghost predicate Valid()
      reads this`paused, this`journal, this`start, this`trace
    {
      && Accounted(Now(), start)
      && trace != [] && trace[|trace| - 1] == (Now(), start)
      && forall i :: 0 <= i < |trace| ==> Accounted(trace[i].0, trace[i].1)
    }

    ghost function Now(): Durable
      reads this`paused, this`journal
    {
      Durable(paused, journal)
    }

    constructor (initially: set<string>)
      ensures Valid() && paused == start == initially && journal == None
    {
      paused, journal, start := initially, None, initially;
      trace, faults := [(Durable(initially, None), initially)], 0;
    }

    /** The durable state as it is now joins the trace. */
    ghost method Record()
      requires Accounted(Now(), start) && forall i :: 0 <= i < |trace| ==> Accounted(trace[i].0, trace[i].1)
      modifies this`trace
      ensures Valid() && trace == old(trace) + [(Now(), start)]
    {
      trace := trace + [(Now(), start)];
    }

    // -------------------------------------------------------------- durable steps

    /** Replaces the journal atomically. */
    method Save(ids: seq<string>) returns (o: Outcome<PauseError>)
      requires Valid() && Accounted(Durable(paused, Some(ids)), start)
      modifies this`journal, this`trace, this`faults
      ensures Valid() && old(trace) <= trace && |old(trace)| < |trace|
      ensures o.Ok? ==> journal == Some(ids)
      ensures journal == Some(ids) || journal == old(journal)
      ensures o.Raised? ==> o.error == HostFailed
      ensures Blamed(o, old(faults))
    {
      var done: bool := *;
      o := Finish(done);
      faults := if o.Ok? then faults else faults + 1;
      if done { journal := Some(ids); }
      Record();
    }

    method Unlink() returns (o: Outcome<PauseError>)
      requires Valid() && paused == start
      modifies this`journal, this`trace, this`faults
      ensures Valid() && old(trace) <= trace
      ensures o.Ok? ==> journal == None
      ensures journal == None || journal == old(journal)
      ensures o.Raised? ==> o.error == HostFailed
      ensures Blamed(o, old(faults))
    {
      var done: bool := *;
      o := Finish(done);
      faults := if o.Ok? then faults else faults + 1;
      if done { journal := None; }
      Record();
    }

    method Pause(id: string) returns (o: Outcome<PauseError>)
      requires Valid() && journal.Some? && id in journal.value
      modifies this`paused, this`trace, this`faults
      ensures Valid() && old(trace) <= trace
      ensures o.Ok? ==> paused == old(paused) + {id}
      ensures paused == old(paused) || paused == old(paused) + {id}
      ensures o.Raised? ==> o.error == HostFailed
      ensures Blamed(o, old(faults))
    {
      var done: bool := *;
      o := Finish(done);
      faults := if o.Ok? then faults else faults + 1;
      if done { paused := paused + {id}; }
      Record();
    }

    /** Fails on a container that is not paused. */
    method Unpause(id: string) returns (o: Outcome<PauseError>)
      requires Valid() && id !in start
      modifies this`paused, this`trace, this`faults
      ensures Valid() && old(trace) <= trace
      ensures o.Ok? ==> id in old(paused) && paused == old(paused) - {id}
      ensures paused == old(paused) || paused == old(paused) - {id}
      ensures o.Raised? ==> o.error == HostFailed
      ensures old(faults) <= faults && (id in old(paused) ==> Blamed(o, old(faults)))
    {
      if id !in paused { return Raised(HostFailed); }
      var done: bool := *;
      o := Finish(done);
      faults := if o.Ok? then faults else faults + 1;
      if done { paused := paused - {id}; }
      Record();
    }

    /** How a step ends for its caller: success only if it took effect. */
    static method Finish(done: bool) returns (o: Outcome<PauseError>)
      ensures o.Ok? ==> done
      ensures o.Raised? ==> o.error == HostFailed
    {
      var fate: int := *;
      o := if fate == 0 && done then Ok else if fate == 1 then Crashed else Raised(HostFailed);
    }

    // -------------------------------------------------------------- the capture

    /** Pauses the wanted containers, each only after the journal names it.  `memory` is
        the list the process keeps. */
    method PauseWanted(containers: seq<Container>) returns (o: Outcome<PauseError>, memory: seq<string>)
      requires Valid() && paused == start && journal == Some([])
      modifies this`paused, this`journal, this`trace, this`faults
      ensures Valid() && old(trace) <= trace && journal.Some?
      ensures paused <= start + Elements(memory) && Elements(memory) !! start
      ensures o.Ok? ==> forall c :: c in containers && c.wanted ==> c.id in memory && c.id in paused
      ensures old(faults) <= faults
      ensures || Blamed(o, old(faults))
              || (o == Raised(AlreadyPaused) && exists c :: c in containers && c.wanted && c.id in old(paused))
      ensures o.Ok? || o == Raised(AlreadyPaused) ==>
                Elements(memory) <= paused && (Distinct(containers) ==> NoneTwice(memory))
    {
      memory := [];
      var seen := paused;
      for i := 0 to |containers|
        invariant Valid() && old(trace) <= trace && journal == Some(memory)
        invariant old(faults) <= faults
        invariant Distinct(containers) ==> NoneTwice(memory)
        invariant forall id :: id in memory ==> exists k :: 0 <= k < i && containers[k].id == id
        invariant seen == start
        invariant start + Elements(memory) == paused && Elements(memory) !! start
        invariant forall k :: 0 <= k < i && containers[k].wanted ==> containers[k].id in memory
      {
        var c := containers[i];
        if c.wanted {
          if c.id in seen { return Raised(AlreadyPaused), memory; }
          ghost var before := memory;
          if Distinct(containers) { AddNew(memory, c.id, containers, i); }
          memory := memory + [c.id];
          assert Elements(memory) == Elements(before) + {c.id};
          o := Save(memory);
          if !o.Ok? { return; }
          o := Pause(c.id);
          if !o.Ok? { return; }
        }
      }
      o := Ok;
    }

    /** Unpauses the containers of `memory` from the last to the first, stopping at a failure. */
    method UnpauseAll(memory: seq<string>) returns (o: Outcome<PauseError>)
      requires Valid() && Elements(memory) !! start && paused <= start + Elements(memory)
      modifies this`paused, this`trace, this`faults
      ensures Valid() && old(trace) <= trace && paused <= old(paused)
      ensures o.Ok? ==> paused == start
      ensures old(faults) <= faults && (NoneTwice(memory) && Elements(memory) <= old(paused) ==> Blamed(o, old(faults)))
    {
      var k := |memory|;
      while k > 0
        invariant 0 <= k <= |memory| && Valid() && old(trace) <= trace
        invariant paused <= start + Elements(memory[..k]) && paused <= old(paused) && old(faults) <= faults
        invariant NoneTwice(memory) && Elements(memory) <= old(paused) ==> Elements(memory[..k]) <= paused
      {
        k := k - 1;
        assert memory[k] in Elements(memory);
        o := Unpause(memory[k]);
        if !o.Ok? { return; }
        assert memory[..k + 1] == memory[..k] + [memory[k]];
      }
      o := Ok;
    }

    /** The `finally` section: unpause what is left, and keep the rest in the journal. */
    method Compensate(memory: seq<string>) returns (o: Outcome<PauseError>)
      requires Valid() && Elements(memory) !! start && paused <= start + Elements(memory)
      modifies this`paused, this`journal, this`trace, this`faults
      ensures Valid() && old(trace) <= trace
      ensures o.Ok? ==> journal == None && paused == start
      ensures paused <= old(paused)
      ensures old(faults) <= faults && (NoneTwice(memory) && Elements(memory) <= old(paused) ==> Blamed(o, old(faults)))
      // What cannot be unpaused stays in the journal, and nothing else does.
      ensures o == Raised(StillPaused) && NoneTwice(memory) && Elements(memory) <= old(paused) ==>
                journal.Some? && 0 < |journal.value| <= faults - old(faults)
    {
      var failures := [];
      var k := |memory|;
      while k > 0
        invariant 0 <= k <= |memory| && Valid() && old(trace) <= trace && journal == old(journal)
        invariant paused <= start + Elements(memory[..k]) + Elements(failures) && paused <= old(paused)
        invariant Elements(failures) <= Elements(memory) && old(faults) <= faults
        invariant NoneTwice(memory) && Elements(memory) <= old(paused) ==>
                    Elements(memory[..k]) <= paused && |failures| <= faults - old(faults)
      {
        k := k - 1;
        assert memory[k] in Elements(memory);
        o := Unpause(memory[k]);
        if o.Crashed? { return; }
        ghost var before := failures;
        if o.Raised? { failures := failures + [memory[k]]; }
        assert Elements(failures) == Elements(before) + if o.Raised? then {memory[k]} else {};
        assert memory[..k + 1] == memory[..k] + [memory[k]];
      }
      if failures != [] {
        o := Save(failures);
        if o.Ok? { o := Raised(StillPaused); }
        return;
      }
      o := Unlink();
    }

    /** A prior journal, or a wanted container paused by somebody else. */
    ghost predicate Refused(o: Outcome<PauseError>, containers: seq<Container>, before: Durable)
      reads this`paused, this`journal
    {
      || (o == Raised(Unreconciled) && before.journal.Some? && Now() == before)
      || (o == Raised(AlreadyPaused) && before.journal.None? && Now() == before
            && exists c :: c in containers && c.wanted && c.id in before.paused)
    }

    /** The pause section of `capture`, entered with the answer of the earlier checks.
        The archiving before and after the unpausing may fail. */
    method Capture(containers: seq<Container>) returns (o: Outcome<PauseError>)
      requires Valid()
      modifies this`paused, this`journal, this`trace, this`faults
      ensures Valid() && old(trace) <= trace
      ensures old(journal).Some? ==>
                && paused == old(paused) && journal == old(journal)
                && (o.Crashed? || o == Raised(Unreconciled) || o == Raised(HostFailed))
      ensures o.Ok? ==> paused == old(paused) && journal == None
      // At some moment every wanted container was paused: the snapshot's.
      ensures o.Ok? ==> exists i :: |old(trace)| <= i < |trace| && AllPaused(containers, trace[i].0)
      // Without a failing step it succeeds, or refuses and leaves nothing paused behind.
      ensures Distinct(containers) ==> Blamed(o, old(faults)) || Refused(o, containers, old(Now()))
    {
      o := Work();
      if !o.Ok? { return; }
      if journal.Some? { return Raised(Unreconciled); }
      o := Save([]);
      if !o.Ok? { return; }
      o := Snapshot(containers);
    }

    /** What runs with the journal in place, and its `finally` section. */
    method Snapshot(containers: seq<Container>) returns (o: Outcome<PauseError>)
      requires Valid() && paused == start && journal == Some([])
      modifies this`paused, this`journal, this`trace, this`faults
      ensures Valid() && old(trace) <= trace
      ensures o.Ok? ==> paused == start && journal == None
      ensures o.Ok? ==> exists i :: |old(trace)| - 1 <= i < |trace| && AllPaused(containers, trace[i].0)
      ensures Distinct(containers) ==>
                || Blamed(o, old(faults))
                || (o == Raised(AlreadyPaused) && paused == start && journal == None
                      && exists c :: c in containers && c.wanted && c.id in old(paused))
    {
      hide Valid, Distinct;
      var memory;
      o, memory := PauseWanted(containers);
      if o.Crashed? { return; }
      LastIsNow();
      ghost var moment := |trace| - 1;
      if o.Ok? {
        assert AllPaused(containers, trace[moment].0);
        o := Work();
      }
      if o.Ok? { o := UnpauseAll(memory); }
      if o.Ok? {
        memory := [];
        o := Unlink();
      }
      if o.Ok? { o := Work(); }
      if o.Crashed? { return; }
      var compensated := Compensate(memory);
      if !compensated.Ok? { o := compensated; }
    }

    lemma LastIsNow()
      requires Valid()
      ensures trace != [] && trace[|trace| - 1] == (Now(), start)
    {}

    method Work() returns (o: Outcome<PauseError>)
      modifies this`faults
      ensures o.Raised? ==> o.error == HostFailed
      ensures Blamed(o, old(faults))
    {
      var done: bool := *;
      o := Finish(done);
      faults := if o.Ok? then faults else faults + 1;
    }

    /** `recover_unpause`. */
    method Recover(recognized: string -> bool) returns (o: Outcome<PauseError>)
      requires Valid()
      modifies this`paused, this`journal, this`trace, this`faults
      ensures Valid() && old(trace) <= trace && start <= paused <= old(paused)
      ensures o.Ok? ==> journal == None && paused == start
      ensures o.Ok? && old(journal).Some? ==> forall id :: id in old(journal).value ==> recognized(id)
      // Without a failing step it completes, unless the journal names a foreign container.
      ensures old(faults) <= faults
      ensures Blamed(o, old(faults))
           || (o == Raised(Unrecognized) && old(journal).Some?
                 && exists id :: id in old(journal).value && !recognized(id))
    {
      o := Ok;
      if journal.None? { return; }
      var ids := journal.value;
      for i := 0 to |ids|
        invariant Valid() && old(trace) <= trace && journal == old(journal) && paused <= old(paused)
        invariant paused <= start + Elements(ids[i..]) && old(faults) <= faults
        invariant forall k :: 0 <= k < i ==> recognized(ids[k])
      {
        assert ids[i..] == [ids[i]] + ids[i + 1..];
        if !recognized(ids[i]) { return Raised(Unrecognized); }
        o := Work(); // docker inspect
        if !o.Ok? { return; }
        if ids[i] in paused {
          assert ids[i] in Elements(ids);
          o := Unpause(ids[i]);
          if !o.Ok? { return; }
        }
      }
      o := Unlink();
    }

    // -------------------------------------------------------------- any run

    /** Captures and recoveries in any order, each possibly cut short, with anybody free
        to pause and unpause while no journal is pending. */
    method Live(script: seq<Action>) returns (endings: seq<Outcome<PauseError>>)
      requires Valid()
      modifies this
      ensures Valid() && old(trace) <= trace && |endings| == |script|
      ensures forall i :: 0 <= i < |trace| ==> Accounted(trace[i].0, trace[i].1)
    {
      endings := [];
      for i := 0 to |script|
        invariant Valid() && old(trace) <= trace && |endings| == i
      {
        var o: Outcome<PauseError> := Ok;
        match script[i] {
          case TryCapture(containers) => o := Capture(containers);
          case TryRecover(recognized) => o := Recover(recognized);
          case Outside(others) => if journal.None? { paused, start := others, others; Record(); }
        }
        endings := endings + [o];
      }
    }
  }

  datatype Action =
    | TryCapture(containers: seq<Container>)
    | TryRecover(recognized: string -> bool)
    | Outside(others: set<string>)
}
