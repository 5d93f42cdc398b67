/**
 Two writers, one remote lock directory, one byte quota.

 The state machine interleaves the steps of both writers and lets replies, sessions
 and processes be lost anywhere.  A writer's publication moves its own namespace only
 through the states that `OffsiteSync.Namespace.SyncOnce` guarantees for its cap.
 */
module SharedLease {
  import opened OffsitePoints
  import opened OffsiteState

  /** Where a writer stands in `writer_budget`.  `lost` is the keeper's lease error. */
  datatype Writer =
    | Outside
    | Acquired
    | Publishing(cap: nat, base: Remote, bundle: string, lost: bool)
    | Leaving(lost: bool)

  datatype State = State(lock: bool, writers: seq<Writer>, folders: seq<Remote>)

  type Side = i: nat | i < 2

  predicate WellFormed(s: State) {
    |s.writers| == 2 && |s.folders| == 2
  }

  function Peer(i: Side): Side {
    1 - i
  }

  ghost function Combined(s: State): nat
    requires WellFormed(s)
  {
    Total(s.folders[0]) + Total(s.folders[1])
  }

  datatype Step =
    | Mkd(i: Side, replyLost: bool)
    | Measure(i: Side, bundle: string)
    | MeasureFails(i: Side)
    | SessionLost(i: Side)
    | Remote(i: Side, next: Remote)
    | Finish(i: Side)
    | Rmd(i: Side, effect: bool)
    | KeepLock(i: Side)
    | Crash(i: Side)
    | OperatorClears

  function Put(s: State, i: Side, w: Writer): State
    requires WellFormed(s)
  {
    s.(writers := s.writers[i := w])
  }

  /** One step is enabled, and what it leaves. */
  ghost predicate Next(s: State, a: Step, t: State) {
    && WellFormed(s)
    && match a
       // MKD is exclusive: it fails while the directory exists.
       case Mkd(i, replyLost) =>
         && s.writers[i] == Outside && !s.lock
         && t == Put(s, i, if replyLost then Outside else Acquired).(lock := true)
       // Both trees are counted; the body runs only within the limit, with the rest as cap.
       case Measure(i, bundle) =>
         && s.writers[i] == Acquired
         && var own, peer := Total(s.folders[i]), Total(s.folders[Peer(i)]);
         if own + peer <= LIMIT
         then t == Put(s, i, Publishing(LIMIT - peer, s.folders[i], bundle, false))
         else t == Put(s, i, Leaving(false))
       case MeasureFails(i) =>
         s.writers[i] == Acquired && t == Put(s, i, Leaving(false))
       case SessionLost(i) =>
         s.writers[i].Publishing? && t == Put(s, i, s.writers[i].(lost := true))
       case Remote(i, next) =>
         && s.writers[i].Publishing?
         && SafeState(s.writers[i].base, next, s.writers[i].bundle, s.writers[i].cap)
         && t == s.(folders := s.folders[i := next])
       case Finish(i) =>
         s.writers[i].Publishing? && t == Put(s, i, Leaving(s.writers[i].lost))
       // Without a lease error the lock is removed; the removal may fail.
       case Rmd(i, effect) =>
         && s.writers[i] == Leaving(false)
         && t == Put(s, i, Outside).(lock := if effect then false else s.lock)
       case KeepLock(i) =>
         s.writers[i] == Leaving(true) && t == Put(s, i, Outside)
       case Crash(i) =>
         t == Put(s, i, Outside)
       // Only after confirming that neither writer is running.
       case OperatorClears =>
         s.writers == [Outside, Outside] && t == s.(lock := false)
  }

  /** A run of the two writers from a state in which neither is active. */
  ghost predicate IsRun(states: seq<State>, steps: seq<Step>) {
    && |states| == |steps| + 1
    && WellFormed(states[0]) && states[0].writers == [Outside, Outside] && Combined(states[0]) <= LIMIT
    && forall k :: 0 <= k < |steps| ==> Next(states[k], steps[k], states[k + 1])
  }

  ghost predicate Inv(s: State) {
    && WellFormed(s)
    && (s.writers[0] == Outside || s.writers[1] == Outside)
    && (s.writers[0] != Outside || s.writers[1] != Outside ==> s.lock)
    && Combined(s) <= LIMIT
    && (forall i: Side :: s.writers[i].Publishing? ==>
          && s.writers[i].cap == LIMIT - Total(s.folders[Peer(i)])
          && Total(s.writers[i].base) <= s.writers[i].cap
          && SafeState(s.writers[i].base, s.folders[i], s.writers[i].bundle, s.writers[i].cap))
  }

  lemma StepKeepsInv(s: State, a: Step, t: State)
    requires Inv(s) && Next(s, a, t)
    ensures Inv(t)
  {
    hide SafeState, Total;
    if a.Measure? {
      MeasureKeepsInv(s, a.i, a.bundle, t);
    } else if a.Remote? {
      RemoteKeepsInv(s, a.i, a.next, t);
    }
  }

  lemma MeasureKeepsInv(s: State, i: Side, bundle: string, t: State)
    requires Inv(s) && Next(s, Measure(i, bundle), t)
    ensures Inv(t)
  {
    hide SafeState, Total;
    var own, peer := Total(s.folders[i]), Total(s.folders[Peer(i)]);
    if own + peer <= LIMIT {
      UntouchedIsSafe(s.folders[i], bundle, LIMIT - peer);
    }
  }

  lemma RemoteKeepsInv(s: State, i: Side, next: OffsitePoints.Remote, t: State)
    requires Inv(s) && Next(s, Remote(i, next), t)
    ensures Inv(t)
  {
    hide SafeState, Total;
    SafeFits(s.writers[i].base, next, s.writers[i].bundle, s.writers[i].cap);
  }

  lemma UntouchedIsSafe(r: Remote, b: string, cap: nat)
    ensures SafeState(r, r, b, cap)
  {
    ExtendsIsSafe(r, r, b, cap);
  }

  lemma SafeFits(base: Remote, t: Remote, b: string, cap: nat)
    requires SafeState(base, t, b, cap) && Total(base) <= cap
    ensures Total(t) <= cap
  {}

  lemma {:induction false} RunKeepsInv(states: seq<State>, steps: seq<Step>, k: nat)
    requires IsRun(states, steps) && k < |states|
    ensures Inv(states[k])
  {
    if k > 0 {
      RunKeepsInv(states, steps, k - 1);
      StepKeepsInv(states[k - 1], steps[k - 1], states[k]);
    }
  }

  /** Over every interleaving, with lost replies, lost sessions and crashes: at most one
      writer is inside, the lock exists while one is, and the two folders together never
      exceed the limit. */
  lemma QuotaIsSafe(states: seq<State>, steps: seq<Step>)
    requires IsRun(states, steps)
    ensures forall k :: 0 <= k < |states| ==>
              && WellFormed(states[k])
              && (states[k].writers[0] == Outside || states[k].writers[1] == Outside)
              && (states[k].writers != [Outside, Outside] ==> states[k].lock)
              && Combined(states[k]) <= LIMIT
  {
    hide SafeState;
    forall k | 0 <= k < |states| ensures Inv(states[k]) {
      RunKeepsInv(states, steps, k);
    }
  }

  /** Nobody moves a folder but its own writer, while it publishes under the lock. */
  lemma FolderMovesOnlyUnderLease(s: State, a: Step, t: State, i: Side)
    requires Inv(s) && Next(s, a, t) && t.folders[i] != s.folders[i]
    ensures a.Remote? && a.i == i && s.writers[i].Publishing? && s.writers[Peer(i)] == Outside && s.lock
  {
    hide SafeState;
  }

  // ---------------------------------------------------------------- the lock after a loss

  /** The lock falls only by the operator, or by a writer that leaves with its session. */
  lemma LockFallsOnlyInOrder(s: State, a: Step, t: State)
    requires Next(s, a, t) && s.lock && !t.lock
    ensures a == OperatorClears || (a.Rmd? && s.writers[a.i] == Leaving(false))
  {
    hide SafeState, Total;
  }

  /** The lock stands, and nobody is inside but writer `i`, whose session is lost. */
  ghost predicate Stranded(s: State, i: Side) {
    && WellFormed(s) && s.lock && s.writers[Peer(i)] == Outside
    && (|| s.writers[i] == Outside || s.writers[i] == Leaving(true)
        || (s.writers[i].Publishing? && s.writers[i].lost))
  }

  /** The session, the process, the reply to MKD or the removal is lost. */
  ghost predicate Loses(s: State, a: Step, i: Side) {
    && WellFormed(s)
    && (|| a == SessionLost(i) || (a == Crash(i) && s.writers[i] != Outside)
        || a == Mkd(i, true) || a == Rmd(i, false))
  }

  lemma LossStrands(s: State, a: Step, t: State, i: Side)
    requires Inv(s) && Next(s, a, t) && Loses(s, a, i)
    ensures Stranded(t, i)
  {
    hide SafeState, Total;
  }

  lemma StrandedStays(s: State, a: Step, t: State, i: Side)
    requires Stranded(s, i) && Next(s, a, t) && a != OperatorClears
    ensures Stranded(t, i) && !a.Mkd?
  {
    hide SafeState, Total;
  }

  /** Once a writer inside has lost its session or crashed, or a lock request its reply, or a
      removal has failed, the lock stands and nobody gets in, in every interleaving, until
      the operator clears it. */
  lemma {:induction false} LostLockStands(states: seq<State>, steps: seq<Step>, i: Side, k: nat, m: nat)
    requires IsRun(states, steps) && k < m < |states|
    requires Loses(states[k], steps[k], i)
    requires forall l :: k < l < m ==> steps[l] != OperatorClears
    ensures Stranded(states[m], i)
    ensures forall l :: k < l < m ==> !steps[l].Mkd?
    decreases m
  {
    hide Inv, Next, Stranded, Loses;
    if m == k + 1 {
      RunKeepsInv(states, steps, k);
      LossStrands(states[k], steps[k], states[m], i);
    } else {
      LostLockStands(states, steps, i, k, m - 1);
      StrandedStays(states[m - 1], steps[m - 1], states[m], i);
    }
  }

  // ---------------------------------------------------------------- leaving in order

  /** Writer `i` is inside and has its session. */
  ghost predicate InOrder(s: State, i: Side) {
    && WellFormed(s)
    && var w := s.writers[i]; w == Acquired || (w.Publishing? && !w.lost) || w == Leaving(false)
  }

  /** A writer that is inside with its session can leave and remove the lock, whether it
      was still counting, publishing, or on its way out. */
  lemma CanLeaveInOrder(s: State, i: Side) returns (states: seq<State>, steps: seq<Step>)
    requires Inv(s) && InOrder(s, i)
    ensures |states| == |steps| + 1 && states[0] == s
    ensures forall k :: 0 <= k < |steps| ==> Next(states[k], steps[k], states[k + 1])
    ensures forall k :: 0 <= k < |steps| ==> steps[k] in {MeasureFails(i), Finish(i), Rmd(i, true)}
    ensures var last := states[|states| - 1];
            last.writers == [Outside, Outside] && !last.lock && last.folders == s.folders
  {
    hide SafeState, Total;
    var out := s.(writers := [Outside, Outside], lock := false);
    if s.writers[i] == Leaving(false) {
      states, steps := [s, out], [Rmd(i, true)];
    } else {
      var leaving := Put(s, i, Leaving(false));
      states := [s, leaving, out];
      steps := [if s.writers[i] == Acquired then MeasureFails(i) else Finish(i), Rmd(i, true)];
    }
  }

  /** A step of a writer inside that is no loss, crash or failed removal. */
  predicate Orderly(a: Step, i: Side) {
    a != SessionLost(i) && a != Crash(i) && a != Rmd(i, false)
  }

  lemma OrderlyStep(s: State, a: Step, t: State, i: Side)
    requires Inv(s) && Next(s, a, t) && InOrder(s, i) && Orderly(a, i)
    ensures InOrder(t, i) || (t.writers == [Outside, Outside] && !t.lock)
  {
    hide SafeState, Total;
  }

  /** A writer that came in and lost nothing is still inside, or has removed the lock at
      some point on the way. */
  lemma {:induction false} OrderlyExitFreesLock(states: seq<State>, steps: seq<Step>, i: Side, k: nat, m: nat)
    requires IsRun(states, steps) && k <= m < |states|
    requires InOrder(states[k], i) && forall l :: k <= l < m ==> Orderly(steps[l], i)
    ensures || InOrder(states[m], i)
            || exists l :: k < l <= m && states[l].writers == [Outside, Outside] && !states[l].lock
    decreases m
  {
    hide Inv, Next, Orderly;
    if k < m {
      OrderlyExitFreesLock(states, steps, i, k, m - 1);
      if InOrder(states[m - 1], i) {
        RunKeepsInv(states, steps, m - 1);
        OrderlyStep(states[m - 1], steps[m - 1], states[m], i);
      }
    }
  }

  // ---------------------------------------------------------------- recoverable points

  ghost predicate HasPoint(r: Remote) {
    exists p: Point :: Recoverable(r, p)
  }

  /** The point a publication started from, or a later one, is always there. */
  ghost predicate Covered(s: State, i: Side) {
    && WellFormed(s)
    && HasPoint(s.folders[i])
    && (s.writers[i].Publishing? ==> HasPoint(s.writers[i].base))
  }

  lemma StepKeepsCover(s: State, a: Step, t: State, i: Side)
    requires Inv(s) && Next(s, a, t) && Covered(s, i)
    ensures Covered(t, i)
  {
    hide SafeState, Recoverable;
    if a.Remote? && a.i == i {
      SafeCovers(s.writers[i].base, a.next, s.writers[i].bundle, s.writers[i].cap);
    }
  }

  lemma SafeCovers(base: Remote, t: Remote, b: string, cap: nat)
    requires SafeState(base, t, b, cap) && HasPoint(base)
    ensures HasPoint(t)
  {}

  /** Once a folder holds a recoverable point it holds one in every later state, through
      any number of publications, failures and crashes of either writer. */
  lemma {:induction false} AlwaysRecoverable(states: seq<State>, steps: seq<Step>, i: Side, k: nat)
    requires IsRun(states, steps) && k < |states|
    requires HasPoint(states[0].folders[i])
    ensures Covered(states[k], i)
  {
    hide SafeState, Recoverable, Next, Inv;
    if k > 0 {
      AlwaysRecoverable(states, steps, i, k - 1);
      RunKeepsInv(states, steps, k - 1);
      StepKeepsCover(states[k - 1], steps[k - 1], states[k], i);
    }
  }
}
