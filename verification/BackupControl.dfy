/**
 The root switch for backups.

 A request names the revision it was made against; OFF writes the switch before it stops
 the schedule, ON starts the schedule before it writes the switch and takes everything
 back when a later step fails.  The revision is a digest of the stored body, modelled as
 a constructor.  Any step may fail before or after it took effect, or kill the process.
 */
module BackupControl {

  import opened Texts
  import opened Wrappers

  datatype Body = Body(enabled: bool, updatedAt: string, requestId: string)

  datatype Revision = Legacy(profileSha: string) | Of(body: Body) | Unknown(text: string)

  /** The protected file: a body and the revision stored with it. */
  datatype Switch = Switch(body: Body, revision: Revision)

  datatype Job = Job(enabled: bool, expected: Revision, id: string)

  datatype ControlError = InvalidRequest | RevisionChanged | NotAuthorized | Unavailable | Incomplete | HostFailed

  datatype Durable = Durable(saved: Option<Switch>, schedule: bool)

  function Stored(body: Body): Switch {
    Switch(body, Of(body))
  }

  class Control {
    /** The profile authorizes capture and off-site publication. */
    const available: bool
    const profileSha: string
    /** The schedule's unit is installed. */
    const loaded: bool

    var saved: Option<Switch>
    var schedule: bool

    ghost var trace: seq<Durable>
    /** Identifiers of the requests so far, and of the one the first switch came from. */
    ghost var used: set<string>
    /** The revision each request that changed the switch was made against. */
    ghost var effective: seq<Revision>
    /** How many steps failed on their own. */
    ghost var faults: nat

    /** Anything but success has a step to blame that failed since then. */
    ghost predicate Blamed(o: Outcome<ControlError>, before: nat)
      reads this`faults
    {
      before <= faults && (o.Ok? || before < faults)
    }

    ghost function Now(): Durable
      reads this`saved, this`schedule
    {
      Durable(saved, schedule)
    }

    /** `require_enabled`: without a switch file an enrolled host keeps capturing. */
    predicate Open(d: Durable) {
      d.saved.None? || (available && d.saved.value.body.enabled && d.saved.value.revision == Of(d.saved.value.body))
    }

    function Current(): Revision
      reads this`saved
    {
      if saved.None? then Legacy(profileSha) else saved.value.revision
    }

    ghost predicate Known(r: Revision)
      reads this`used
    {
      r == Legacy(profileSha) || (r.Of? && r.body.requestId in used)
    }

    ghost predicate Valid()
      reads this`saved, this`schedule, this`trace, this`used, this`effective
    {
      && (saved.Some? ==> saved.value == Stored(saved.value.body) && saved.value.body.requestId in used)
      && (schedule ==> loaded)
      && trace != [] && trace[|trace| - 1] == Now()
      && (forall i :: 0 < i < |trace| ==> OpensOnlyScheduled(trace[i - 1], trace[i]))
      && (forall i :: 0 <= i < |effective| ==> Known(effective[i]) && effective[i] != Current())
      && (forall i, j :: 0 <= i < j < |effective| ==> effective[i] != effective[j])
    }

    /** The gate opens only once the schedule runs. */
    ghost predicate OpensOnlyScheduled(before: Durable, after: Durable) {
      !Open(before) && Open(after) ==> after.schedule
    }

    constructor (available: bool, profileSha: string, loaded: bool, body: Option<Body>, schedule: bool)
      requires schedule ==> loaded
      ensures Valid() && this.available == available && this.profileSha == profileSha && this.loaded == loaded
      ensures this.schedule == schedule && saved == if body.None? then None else Some(Stored(body.value))
      ensures effective == [] && used == if body.None? then {} else {body.value.requestId}
    {
      this.available, this.profileSha, this.loaded := available, profileSha, loaded;
      this.schedule := schedule;
      saved := if body.None? then None else Some(Stored(body.value));
      used := if body.None? then {} else {body.value.requestId};
      effective, faults := [], 0;
      trace := [Durable(if body.None? then None else Some(Stored(body.value)), schedule)];
    }

    // -------------------------------------------------------------- durable steps

    static method Finish(done: bool) returns (o: Outcome<ControlError>)
      ensures o.Ok? ==> done
      ensures o.Raised? ==> o.error == HostFailed
    {
      var fate: int := *;
      o := if fate == 0 && done then Ok else if fate == 1 then Crashed else Raised(HostFailed);
    }

    /** No revision that an effective request was made against came from request `id`. */
    ghost predicate Fresh(id: string)
      reads this`effective
    {
      forall i :: 0 <= i < |effective| ==> !(effective[i].Of? && effective[i].body.requestId == id)
    }

    /** Replaces the switch atomically. */
    method Save(body: Body) returns (o: Outcome<ControlError>)
      requires Valid() && body.requestId in used && Fresh(body.requestId)
      requires body.enabled ==> schedule
      modifies this`saved, this`trace, this`faults
      ensures Valid() && old(trace) <= trace && |trace| == |old(trace)| + 1
      ensures saved == old(saved) || saved == Some(Stored(body))
      ensures o.Ok? ==> saved == Some(Stored(body))
      ensures o.Raised? ==> o.error == HostFailed
      ensures Blamed(o, old(faults))
    {
      var done: bool := *;
      o := Finish(done);
      faults := if o.Ok? then faults else faults + 1;
      if done { saved := Some(Stored(body)); }
      trace := trace + [Now()];
    }

    /** Enables or disables the schedule and keeps the queue worker running. */
    method Timers(enabled: bool) returns (o: Outcome<ControlError>)
      requires Valid()
      modifies this`schedule, this`trace, this`faults
      ensures Valid() && old(trace) <= trace
      ensures forall i :: |old(trace)| <= i < |trace| ==> trace[i].saved == saved
      ensures schedule == old(schedule) || schedule == enabled
      ensures o.Ok? ==> schedule == enabled
      ensures o.Raised? ==> o.error == HostFailed || (o.error == Unavailable && enabled && !loaded)
      ensures old(faults) <= faults && (Blamed(o, old(faults)) || o == Raised(Unavailable))
    {
      o := Attempt();
      if !o.Ok? { return; }
      if !loaded {
        if enabled { return Raised(Unavailable); }
      } else {
        var done: bool := *;
        o := Finish(done);
        faults := if o.Ok? then faults else faults + 1;
        if done { schedule := enabled; }
        trace := trace + [Now()];
        if !o.Ok? { return; }
      }
      o := Attempt();
    }

    /** A step that changes nothing modelled here. */
    method Attempt() returns (o: Outcome<ControlError>)
      modifies this`faults
      ensures o.Raised? ==> o.error == HostFailed
      ensures Blamed(o, old(faults))
    {
      var done: bool := *;
      o := Finish(done);
      faults := if o.Ok? then faults else faults + 1;
    }

    // -------------------------------------------------------------- requests

    ghost predicate IsOff(d: Durable) {
      d.saved.Some? && !d.saved.value.body.enabled && !d.schedule
    }

    ghost predicate Refused(job: Job, o: Outcome<ControlError>, before: Durable)
      reads this`saved, this`schedule
    {
      || (Now() == before
            && (|| o == Raised(InvalidRequest) || o == Raised(RevisionChanged)
                || (o == Raised(NotAuthorized) && job.enabled)))
      || (o == Raised(Unavailable) && job.enabled && !loaded && IsOff(Now()))
    }

    /** `force_off`: both parts are tried, whatever becomes of the first. */
    method ForceOff(id: string, now: string) returns (o: Outcome<ControlError>)
      requires Valid() && id in used && Fresh(id)
      modifies this`saved, this`schedule, this`trace, this`faults
      ensures Valid() && old(trace) <= trace
      ensures saved == old(saved) || saved == Some(Stored(Body(false, now, id)))
      ensures o.Ok? ==> IsOff(Now())
      ensures o.Raised? && o.error != Incomplete ==> IsOff(Now())
      ensures Blamed(o, old(faults))
    {
      var failed := false;
      o := Save(Body(false, now, id));
      if o.Crashed? { return; }
      if o.Raised? { failed := true; }
      o := Timers(false);
      if o.Crashed? { return; }
      if o.Raised? { failed := true; }
      if failed { return Raised(Incomplete); }
      o := Attempt();
    }

    /** `apply`. */
    method Apply(job: Job, now: string, later: string) returns (o: Outcome<ControlError>)
      requires Valid() && job.id in used && Fresh(job.id)
      modifies this`saved, this`schedule, this`trace, this`faults
      ensures Valid() && old(trace) <= trace
      ensures ByRequest(old(Now()), job.id)
      ensures job.expected != old(Current()) ==> !o.Ok? && Now() == old(Now())
      ensures !job.enabled ==> StaysClosed(old(trace), old(Now())) && (o.Ok? ==> IsOff(Now()))
      ensures job.enabled && o.Ok? ==> saved == Some(Stored(Body(true, now, job.id))) && schedule && Open(Now())
      ensures job.enabled && o.Raised? && o.error != Incomplete ==> Now() == old(Now()) || IsOff(Now())
      // Without a failing step it succeeds, or refuses with nothing changed, or turns
      // everything off for want of a schedule.
      ensures old(faults) <= faults && (Blamed(o, old(faults)) || Refused(job, o, old(Now())))
      ensures !OperationName(job.id) || (job.enabled && !available) ==> !o.Ok? && Now() == old(Now())
    {
      if !OperationName(job.id) { return Raised(InvalidRequest); }
      o := Attempt();
      if !o.Ok? { return; }
      if job.expected != Current() { return Raised(RevisionChanged); }
      if job.enabled && !available { return Raised(NotAuthorized); }
      if !job.enabled {
        o := TurnOff(job.id, now);
      } else {
        o := TurnOn(job.id, now, later);
      }
    }

    method TurnOff(id: string, now: string) returns (o: Outcome<ControlError>)
      requires Valid() && id in used && Fresh(id)
      modifies this`saved, this`schedule, this`trace, this`faults
      ensures Valid() && old(trace) <= trace
      ensures ByRequest(old(Now()), id)
      ensures StaysClosed(old(trace), old(Now()))
      ensures o.Ok? ==> IsOff(Now())
      ensures Blamed(o, old(faults))
    {
      o := Save(Body(false, now, id));
      assert forall i :: |old(trace)| <= i < |trace| ==> trace[i] == Now();
      if o.Ok? { o := Timers(false); }
      if o.Ok? { o := Attempt(); }
    }

    method TurnOn(id: string, now: string, later: string) returns (o: Outcome<ControlError>)
      requires Valid() && id in used && Fresh(id) && available
      modifies this`saved, this`schedule, this`trace, this`faults
      ensures Valid() && old(trace) <= trace
      ensures ByRequest(old(Now()), id)
      ensures o.Ok? ==> saved == Some(Stored(Body(true, now, id))) && schedule && Open(Now())
      ensures o.Raised? && o.error != Incomplete ==> IsOff(Now())
      ensures old(faults) <= faults
      ensures Blamed(o, old(faults)) || (o == Raised(Unavailable) && !loaded && IsOff(Now()))
    {
      hide OpensOnlyScheduled;
      o := Timers(true);
      if o.Ok? { o := Save(Body(true, now, id)); }
      if o.Ok? { o := Attempt(); }
      if o.Raised? {
        var compensated := ForceOff(id, later);
        if !compensated.Ok? { o := compensated; }
      }
    }

    /** The switch is as before or was written by request `id`. */
    ghost predicate ByRequest(before: Durable, id: string)
      reads this`saved
    {
      saved == before.saved || (saved.Some? && saved.value.body.requestId == id)
    }

    /** From the first state that differs from `before` on, the gate is closed. */
    ghost predicate StaysClosed(earlier: seq<Durable>, before: Durable)
      reads this`trace
    {
      forall i, j :: |earlier| <= i <= j < |trace| && trace[i] != before ==> !Open(trace[j])
    }

    /** `apply_and_publish`. */
    method ApplyAndPublish(job: Job, now: string, later: string) returns (o: Outcome<ControlError>)
      requires Valid() && job.id in used && Fresh(job.id)
      modifies this`saved, this`schedule, this`trace, this`faults
      ensures Valid() && old(trace) <= trace
      ensures ByRequest(old(Now()), job.id)
      ensures job.expected != old(Current()) ==> !o.Ok? && Now() == old(Now())
      ensures !job.enabled ==> StaysClosed(old(trace), old(Now())) && (o.Ok? ==> IsOff(Now()))
      ensures job.enabled && o.Ok? ==> saved == Some(Stored(Body(true, now, job.id))) && schedule && Open(Now())
      ensures job.enabled && o.Raised? && o.error != Incomplete ==> Now() == old(Now()) || IsOff(Now())
      // Without a failing step it succeeds, or refuses with nothing changed, or turns
      // everything off for want of a schedule.
      ensures old(faults) <= faults && (Blamed(o, old(faults)) || Refused(job, o, old(Now())))
      ensures !OperationName(job.id) || (job.enabled && !available) ==> !o.Ok? && Now() == old(Now())
    {
      hide StaysClosed, Open, OpensOnlyScheduled, IsOff;
      o := Apply(job, now, later);
      if o.Ok? {
        o := Attempt();
        if o.Raised? && job.enabled {
          var compensated := ForceOff(job.id, later);
          if !compensated.Ok? { o := compensated; }
        }
      }
    }

    /** One request against the switch, identified by a fresh name. */
    method Request(job: Job, now: string, later: string) returns (o: Outcome<ControlError>)
      requires Valid() && job.id !in used
      modifies this`saved, this`schedule, this`trace, this`used, this`effective, this`faults
      ensures Valid() && old(trace) <= trace && used == old(used) + {job.id}
      // A request that changes the switch was made against the current revision, and is
      // the only one ever made against it that does.
      ensures effective == if saved == old(saved) then old(effective) else old(effective) + [job.expected]
      ensures saved != old(saved) ==> job.expected == old(Current())
      ensures job.expected != old(Current()) ==> !o.Ok? && Now() == old(Now())
      // OFF: from the first change on, the gate is closed whatever fails.
      ensures !job.enabled ==> StaysClosed(old(trace), old(Now())) && (o.Ok? ==> IsOff(Now()))
      // ON: complete, or taken back, or reported as incomplete.
      ensures job.enabled && o.Ok? ==> saved == Some(Stored(Body(true, now, job.id))) && schedule && Open(Now())
      ensures job.enabled && o.Raised? && o.error != Incomplete ==> Now() == old(Now()) || IsOff(Now())
      // Without a failing step it succeeds, or refuses with nothing changed, or turns
      // everything off for want of a schedule.
      ensures old(faults) <= faults && (Blamed(o, old(faults)) || Refused(job, o, old(Now())))
      ensures !OperationName(job.id) || (job.enabled && !available) ==> !o.Ok? && Now() == old(Now())
    {
      hide StaysClosed, Open, OpensOnlyScheduled, IsOff;
      used := used + {job.id};
      o := ApplyAndPublish(job, now, later);
      if saved != old(saved) { effective := effective + [job.expected]; }
    }

    /** Any sequence of requests, each possibly cut short. */
    method Live(jobs: seq<Job>, times: seq<(string, string)>) returns (endings: seq<Outcome<ControlError>>)
      requires Valid() && |times| == |jobs|
      requires forall i :: 0 <= i < |jobs| ==> jobs[i].id !in used
      requires forall i, j :: 0 <= i < j < |jobs| ==> jobs[i].id != jobs[j].id
      modifies this
      ensures Valid() && |endings| == |jobs|
      ensures forall i :: 0 < i < |trace| ==> OpensOnlyScheduled(trace[i - 1], trace[i])
      ensures forall i, j :: 0 <= i < j < |effective| ==> effective[i] != effective[j]
      // However many OFF requests fail or die, none of them reopens a closed gate.
      ensures old(trace) <= trace
      ensures (forall i :: 0 <= i < |jobs| ==> !jobs[i].enabled) ==> ClosedForGood(trace, |old(trace)| - 1)
    {
      endings := [];
      for i := 0 to |jobs|
        invariant Valid() && |endings| == i && old(trace) <= trace
        invariant forall k :: i <= k < |jobs| ==> jobs[k].id !in used
        invariant (forall k :: 0 <= k < i ==> !jobs[k].enabled) ==> ClosedForGood(trace, |old(trace)| - 1)
      {
        hide Open, OpensOnlyScheduled, IsOff, ClosedForGood, Refused;
        ghost var earlier, before := trace, Now();
        var o := Request(jobs[i], times[i].0, times[i].1);
        endings := endings + [o];
        KeepsClosed(earlier, trace, before, |old(trace)| - 1);
      }
    }

    /** A gate once closed since state `from` is closed ever after. */
    ghost predicate ClosedForGood(states: seq<Durable>, from: int) {
      forall i, j :: 0 <= from <= i <= j < |states| && !Open(states[i]) ==> !Open(states[j])
    }

    lemma KeepsClosed(earlier: seq<Durable>, states: seq<Durable>, before: Durable, from: int)
      requires earlier <= states && 0 <= from < |earlier| && before == earlier[|earlier| - 1]
      ensures ClosedForGood(earlier, from)
           && (forall i, j :: |earlier| <= i <= j < |states| && states[i] != before ==> !Open(states[j]))
           ==> ClosedForGood(states, from)
    {
      hide Open;
    }
  }
}
