/**
 A publication under the lease.

 The lease lets a writer move its folder only through safe states.  Here the states that
 a publication of `OffsiteSync` passes through are shown to be such moves, and a whole
 session of a writer, from taking the lock to removing it, to be a run of the lease.
 */
module LeasedSync {
  import opened Wrappers
  import opened OffsitePoints
  import opened OffsiteState
  import opened OffsiteSync
  import opened SharedLease
  import QuotaTree

  function WithFolder(s: State, i: Side, r: OffsitePoints.Remote): State
    requires WellFormed(s)
  {
    s.(folders := s.folders[i := r])
  }

  ghost predicate AllSafe(base: OffsitePoints.Remote, trace: seq<OffsitePoints.Remote>, bundle: string, cap: nat) {
    forall k :: 0 <= k < |trace| ==> SafeState(base, trace[k], bundle, cap)
  }

  /** Each state of the trace follows the one before it by a step of the lease. */
  ghost predicate StepByStep(s: State, i: Side, trace: seq<OffsitePoints.Remote>)
    requires WellFormed(s)
  {
    forall k :: 0 < k < |trace| ==>
      Next(WithFolder(s, i, trace[k - 1]), Step.Remote(i, trace[k]), WithFolder(s, i, trace[k]))
  }

  lemma SafeTraceIsSteps(s: State, i: Side, trace: seq<OffsitePoints.Remote>)
    requires WellFormed(s) && s.writers[i].Publishing?
    requires AllSafe(s.writers[i].base, trace, s.writers[i].bundle, s.writers[i].cap)
    ensures StepByStep(s, i, trace)
  {
    hide SafeState;
    forall k | 0 < k < |trace|
      ensures Next(WithFolder(s, i, trace[k - 1]), Step.Remote(i, trace[k]), WithFolder(s, i, trace[k]))
    {
      assert WithFolder(s, i, trace[k]) == WithFolder(s, i, trace[k - 1]).(folders := s.folders[i := trace[k]]);
      assert s.folders[i := trace[k - 1]][i := trace[k]] == s.folders[i := trace[k]];
    }
  }

  lemma {:induction false} StepsKeepInv(s: State, i: Side, trace: seq<OffsitePoints.Remote>, k: nat)
    requires Inv(s) && StepByStep(s, i, trace) && k < |trace| && trace[0] == s.folders[i]
    ensures Inv(WithFolder(s, i, trace[k]))
  {
    hide Inv, Next;
    assert WellFormed(s) && WithFolder(s, i, trace[0]) == s by { InvIsWellFormed(s, i); }
    if k > 0 {
      StepsKeepInv(s, i, trace, k - 1);
      StepKeepsInv(WithFolder(s, i, trace[k - 1]), Step.Remote(i, trace[k]), WithFolder(s, i, trace[k]));
    }
  }

  lemma InvIsWellFormed(s: State, i: Side)
    requires Inv(s)
    ensures WellFormed(s) && s.(folders := s.folders[i := s.folders[i]]) == s
  {
    assert s.folders[i := s.folders[i]] == s.folders;
  }

  /** `sync_once` inside `writer_budget`: every remote state of the publication, however it
      ends, is reached by enabled steps of the lease, and both folders stay in the limit. */
  method PublishUnderLease(ns: Namespace, ghost s: State, i: Side, data: seq<Byte>, proof: Proof, cap: nat, now: int)
    returns (o: Ending, report: Option<seq<Point>>)
    requires ns.ReceiptsFit() && BoundToManifests(ns.files)
    requires Inv(s) && s.folders[i] == ns.files != map[]
    requires s.writers[i] == Publishing(cap, ns.files, BundleName(proof.manifestId), false)
    modifies ns
    ensures |ns.trace| > 0 && ns.trace[0] == old(ns.files) && ns.trace[|ns.trace| - 1] == ns.files
    ensures AllSafe(old(ns.files), ns.trace, BundleName(proof.manifestId), cap)
    ensures StepByStep(s, i, ns.trace)
    ensures forall k :: 0 <= k < |ns.trace| ==> Inv(WithFolder(s, i, ns.trace[k]))
  {
    ghost var before := ns.files;
    o, report := ns.SyncOnce(data, proof, cap, now);
    ghost var trace := ns.trace;
    hide SafeState, Inv;
    UntouchedIsSafe(before, BundleName(proof.manifestId), cap);
    SafeTraceIsSteps(s, i, trace);
    forall k | 0 <= k < |trace| ensures Inv(WithFolder(s, i, trace[k])) {
      StepsKeepInv(s, i, trace, k);
    }
  }

  // ---------------------------------------------------------------- the count at the start

  /** How a folder of plain objects shows in the tree that is counted. */
  function AsTree(r: OffsitePoints.Remote, names: seq<string>): seq<QuotaTree.Entry>
    requires forall k :: 0 <= k < |names| ==> names[k] in r
  {
    if names == [] then []
    else [QuotaTree.File(names[0], Some(Size(r[names[0]])))] + AsTree(r, names[1..])
  }

  lemma {:induction false} TreeWithout(r: OffsitePoints.Remote, n: string, names: seq<string>)
    requires n !in names && forall k :: 0 <= k < |names| ==> names[k] in r
    ensures AsTree(r - {n}, names) == AsTree(r, names)
  {
    if names != [] {
      assert names[0] in names;
      TreeWithout(r, n, names[1..]);
    }
  }

  lemma FirstOfTree(r: OffsitePoints.Remote, names: seq<string>)
    requires names != [] && forall k :: 0 <= k < |names| ==> names[k] in r
    ensures var all, rest := AsTree(r, names), AsTree(r, names[1..]);
            && QuotaTree.Bytes(all) == Size(r[names[0]]) + QuotaTree.Bytes(rest)
            && QuotaTree.Entries(all) == 1 + QuotaTree.Entries(rest)
            && (forall d :: QuotaTree.Within(rest, d) ==> QuotaTree.Within(all, d))
  {
    assert AsTree(r, names)[1..] == AsTree(r, names[1..]);
  }

  /** What the count of a folder finds is the sum that the lease limits, in whatever order
      its objects are listed. */
  lemma {:induction false} CountIsTotal(r: OffsitePoints.Remote, names: seq<string>)
    requires forall n :: n in names <==> n in r
    requires forall i, j :: 0 <= i < j < |names| ==> names[i] != names[j]
    ensures QuotaTree.Bytes(AsTree(r, names)) == Total(r)
    ensures QuotaTree.Entries(AsTree(r, names)) == |r|
    ensures QuotaTree.Within(AsTree(r, names), QuotaTree.MAX_DEPTH)
    decreases |names|
  {
    hide Total, Size, AsTree, QuotaTree.Bytes, QuotaTree.Entries, QuotaTree.Within;
    if names == [] {
      EmptyTree(r);
    } else {
      var n, rest := names[0], names[1..];
      FirstIsTaken(r, names);
      CountIsTotal(r - {n}, rest);
      TreeWithout(r, n, rest);
      TotalWithout(r, n);
      FirstOfTree(r, names);
    }
  }

  lemma EmptyTree(r: OffsitePoints.Remote)
    requires forall n :: n !in r
    ensures QuotaTree.Bytes(AsTree(r, [])) == 0 == Total(r) && QuotaTree.Entries(AsTree(r, [])) == 0 == |r|
    ensures QuotaTree.Within(AsTree(r, []), QuotaTree.MAX_DEPTH)
  {
    assert r == map[];
  }

  lemma FirstIsTaken(r: OffsitePoints.Remote, names: seq<string>)
    requires names != [] && (forall n :: n in names <==> n in r)
    requires forall i, j :: 0 <= i < j < |names| ==> names[i] != names[j]
    ensures names[0] in r && names[0] !in names[1..] && |r - {names[0]}| == |r| - 1
    ensures forall n :: n in names[1..] <==> n in r - {names[0]}
  {
    var first := names[0];
    assert first in names;
    assert (r - {first}).Keys == r.Keys - {first};
    forall n ensures n in names[1..] <==> n in r - {first} {
      assert n in names <==> n == first || n in names[1..];
    }
  }

  // ---------------------------------------------------------------- a whole session

  function Inside(i: Side, w: Writer): seq<Writer> {
    if i == 0 then [w, Outside] else [Outside, w]
  }

  /** The states of a session whose publication passes through `trace`: the lock is taken,
      the folders are counted, the publication moves, ends, and the lock is removed. */
  ghost function SessionStates(i: Side, folders: seq<OffsitePoints.Remote>, cap: nat, bundle: string,
                               trace: seq<OffsitePoints.Remote>): (states: seq<State>)
    requires |folders| == 2 && trace != []
    ensures |states| == |trace| + 4
  {
    var publishing := Publishing(cap, folders[i], bundle, false);
    var last := folders[i := trace[|trace| - 1]];
    [State(false, [Outside, Outside], folders), State(true, Inside(i, Acquired), folders)]
    + seq(|trace|, k requires 0 <= k < |trace| => State(true, Inside(i, publishing), folders[i := trace[k]]))
    + [State(true, Inside(i, Leaving(false)), last), State(false, [Outside, Outside], last)]
  }

  function SessionSteps(i: Side, bundle: string, trace: seq<OffsitePoints.Remote>): (steps: seq<Step>)
    requires trace != []
    ensures |steps| == |trace| + 3
  {
    [Mkd(i, false), Measure(i, bundle)]
    + seq(|trace| - 1, k requires 0 <= k < |trace| - 1 => Step.Remote(i, trace[k + 1]))
    + [Finish(i), Rmd(i, true)]
  }

  ghost predicate CanPublish(i: Side, folders: seq<OffsitePoints.Remote>, cap: nat, bundle: string,
                             trace: seq<OffsitePoints.Remote>)
  {
    && |folders| == 2 && Total(folders[0]) + Total(folders[1]) <= LIMIT
    && trace != [] && trace[0] == folders[i]
    && cap == LIMIT - Total(folders[Peer(i)]) && AllSafe(folders[i], trace, bundle, cap)
  }

  /** A session is a run, so what holds of every run holds of every publication's session:
      exclusion, the byte limit, and a recoverable point at every moment. */
  lemma SessionIsRun(i: Side, folders: seq<OffsitePoints.Remote>, cap: nat, bundle: string,
                     trace: seq<OffsitePoints.Remote>)
    requires CanPublish(i, folders, cap, bundle, trace)
    ensures IsRun(SessionStates(i, folders, cap, bundle, trace), SessionSteps(i, bundle, trace))
    ensures forall k :: 0 <= k < |trace| ==>
              SessionStates(i, folders, cap, bundle, trace)[k + 2].folders == folders[i := trace[k]]
  {
    hide SafeState, Total, Next;
    var states, steps := SessionStates(i, folders, cap, bundle, trace), SessionSteps(i, bundle, trace);
    forall k | 0 <= k < |steps| ensures Next(states[k], steps[k], states[k + 1]) {
      if k < 2 {
        SessionEnters(i, folders, cap, bundle, trace);
      } else if k < |trace| + 1 {
        SessionMoves(i, folders, cap, bundle, trace, k - 1);
      } else {
        SessionLeaves(i, folders, cap, bundle, trace);
      }
    }
  }

  lemma SessionEnters(i: Side, folders: seq<OffsitePoints.Remote>, cap: nat, bundle: string,
                      trace: seq<OffsitePoints.Remote>)
    requires CanPublish(i, folders, cap, bundle, trace)
    ensures var states, steps := SessionStates(i, folders, cap, bundle, trace), SessionSteps(i, bundle, trace);
            Next(states[0], steps[0], states[1]) && Next(states[1], steps[1], states[2])
  {
    hide SafeState, Total;
    WritersChange(i);
    assert folders[i := trace[0]] == folders;
  }

  lemma SessionMoves(i: Side, folders: seq<OffsitePoints.Remote>, cap: nat, bundle: string,
                     trace: seq<OffsitePoints.Remote>, k: nat)
    requires CanPublish(i, folders, cap, bundle, trace) && 0 < k < |trace|
    ensures var states, steps := SessionStates(i, folders, cap, bundle, trace), SessionSteps(i, bundle, trace);
            Next(states[k + 1], steps[k + 1], states[k + 2])
  {
    hide SafeState, Total;
    WritersChange(i);
    assert folders[i := trace[k - 1]][i := trace[k]] == folders[i := trace[k]];
    assert SafeState(folders[i], trace[k], bundle, cap);
  }

  lemma SessionLeaves(i: Side, folders: seq<OffsitePoints.Remote>, cap: nat, bundle: string,
                      trace: seq<OffsitePoints.Remote>)
    requires CanPublish(i, folders, cap, bundle, trace)
    ensures var states, steps := SessionStates(i, folders, cap, bundle, trace), SessionSteps(i, bundle, trace);
            var n := |trace|;
            Next(states[n + 1], steps[n + 1], states[n + 2]) && Next(states[n + 2], steps[n + 2], states[n + 3])
  {
    hide SafeState, Total;
    WritersChange(i);
  }

  lemma WritersChange(i: Side)
    ensures forall w: Writer :: [Outside, Outside][i := w] == Inside(i, w)
    ensures forall v: Writer, w: Writer :: Inside(i, v)[i := w] == Inside(i, w)
    ensures Inside(i, Outside) == [Outside, Outside]
  {}
}
