/**
 The activation broker: a compare-and-swap state machine over two files.

 `journal.json` and `active.json` are replaced one after the other, so a crash can
 leave a commit half done.  `Effects` is what one request decides to write; an event
 is a request together with how many of its writes landed, and `Run` is the store
 after any sequence of such events.
 */
module ActivationBroker {
  import opened Wrappers
  import opened PosixPaths
  import opened Texts

  // ---------------------------------------------------------------- documents

  datatype Provenance = Provenance(
    repository: string,
    commitSha: string,
    treeSha: string,
    sourceArchiveSha256: string,
    releaseId: string,
    stateId: string,
    decisionId: string,
    runtimeIntentSha256: string)

  datatype Context = Context(
    provenance: Provenance,
    stateRoot: string,
    releaseRoot: string,
    noHosted: bool,
    hostedLockSha256: Option<Digest>,
    sourceRenderSha256: string,
    combinedRenderSha256: string,
    subjects: seq<string>)

  /** SHA-256 as a free constructor: digests of different documents differ. */
  datatype Digest = OfContext(context: Context) | OfReceipt(receipt: Receipt) | Text(text: string)

  datatype ActualState = Hosted | NoHosted | Stopped

  datatype Receipt = Receipt(
    state: ActualState,
    daemonId: string,
    contextSha: Digest,
    contextPath: string,
    provenance: Provenance,
    lockPath: Option<string>,
    lockSha256: Option<Digest>,
    coreRenderSha256: string,
    combinedRenderSha256: string,
    modelSha256: Option<string>,
    serviceNames: seq<string>,
    containerReceipts: seq<string>,
    networkReceipts: seq<string>,
    volumeReceipts: seq<string>)

  datatype Progress = Pending | Complete

  datatype Journal = Journal(
    state: Progress,
    transactionId: string,
    phase: string,
    detail: string,
    daemonId: string,
    contextSha: Digest,
    contextPath: string,
    provenance: Provenance,
    targetState: string,
    actualState: Option<ActualState>,
    lockPath: Option<string>,
    previousLockPath: Option<string>,
    activeReceiptSha256: Option<Digest>)

  /** The two files of the coordinator. */
  datatype Store = Store(journal: Option<Journal>, active: Option<Receipt>)

  /** What the broker reads and never writes: the retained release contexts by absolute
      path, the no-hosted locks by release root, how a path is made absolute, and how many
      bytes a document takes when it is written. */
  datatype Env = Env(
    contexts: map<string, Context>,
    noHostedLocks: map<string, Digest>,
    abspath: string -> string,
    size: Write -> nat)

  datatype Evidence = Evidence(
    serviceNames: seq<string>,
    containerReceipts: seq<string>,
    networkReceipts: seq<string>,
    volumeReceipts: seq<string>)

  datatype Request =
    | Ping
    | Snapshot
    | Begin(transactionId: string, contextPath: string, daemonId: string, targetState: string,
            lockPath: string, previousLockPath: string, detail: string, expectedPrevious: Digest)
    | Advance(transactionId: string, from: string, next: string, detail: string)
    | Commit(transactionId: string, from: string, contextPath: string, daemonId: string, actualState: string,
             lockPath: string, modelSha: string, detail: string, evidence: Option<Evidence>)
    | RecoverStop(transactionId: string, from: string, contextPath: string, daemonId: string, detail: string)
    | Firewall

  datatype Write = WriteActive(receipt: Receipt) | WriteJournal(journal: Journal)

  datatype BrokerError =
    | InvalidState
    | TooLarge
    | InvalidContext
    | InvalidTransaction
    | PendingTransaction
    | TargetMismatch
    | CompareAndSwap
    | ForbiddenTransition
    | ContextMismatch
    | InvalidEvidence
    | InvalidReceipt
    | NotJournalDerived

  // ---------------------------------------------------------------- validators

  predicate Letter(c: char) {
    'a' <= c <= 'z' || 'A' <= c <= 'Z' || '0' <= c <= '9'
  }

  predicate ReleaseIdentifier(s: string) {
    && 8 <= |s| <= 255 && Letter(s[0])
    && forall k :: 1 <= k < |s| ==> Letter(s[k]) || s[k] in "._:-"
  }

  predicate ServiceName(s: string) {
    && 1 <= |s| <= 128 && AlphaNumeric(s[0])
    && forall k :: 1 <= k < |s| ==> AlphaNumeric(s[k]) || s[k] in "_.-"
  }

  /** `value == sorted(set(value))`. */
  predicate SortedSet(names: seq<string>) {
    forall k :: 0 < k < |names| ==> Lexicographic(names[k - 1], names[k])
  }

  const CONTEXT_NAME := "trusted-release-context.json"

  predicate ValidContext(c: Context, path: string) {
    && c.sourceRenderSha256 != c.combinedRenderSha256
    && (c.noHosted <==> c.hostedLockSha256.None?)
    && ReleaseIdentifier(c.provenance.stateId)
    && Join(c.stateRoot, CONTEXT_NAME) == path
    && Basename(c.stateRoot) == c.provenance.stateId
    && ValidSubjects(c.subjects)
  }

  /** The services of the release, sorted by name, the scheduler of backups among them. */
  predicate ValidSubjects(subjects: seq<string>) {
    && SortedSet(subjects) && (forall n :: n in subjects ==> ServiceName(n)) && "backup-scheduler" in subjects
  }

  /** load_context. */
  function LoadContext(env: Env, path: string): Result<Context, BrokerError> {
    var candidate := env.abspath(path);
    if candidate in env.contexts && ValidContext(env.contexts[candidate], candidate)
    then Success(env.contexts[candidate])
    else Failure(InvalidContext)
  }

  predicate ValidJournal(j: Journal) {
    && Hex64(j.transactionId)
    && (j.targetState == "hosted" || j.targetState == "no-hosted")
  }

  predicate ValidActive(r: Receipt) {
    SortedSet(r.serviceNames)
  }

  /** The longest file that stable_read_file returns; requests may be longer. */
  const MAX_DOCUMENT: nat := 16 * 1024 * 1024

  predicate Fits(env: Env, w: Write) {
    env.size(w) <= MAX_DOCUMENT
  }

  predicate Readable(env: Env, s: Store) {
    && (s.journal.Some? ==> Fits(env, WriteJournal(s.journal.value)))
    && (s.active.Some? ==> Fits(env, WriteActive(s.active.value)))
  }

  /** validate_state_pair, with the validation of each file that precedes it. */
  predicate ValidPair(env: Env, s: Store) {
    && (s.journal.Some? ==> ValidJournal(s.journal.value))
    && (s.active.Some? ==> ValidActive(s.active.value))
    && (s.journal.Some? && s.journal.value.state == Complete ==>
          && s.active.Some?
          && s.journal.value.activeReceiptSha256 == Some(OfReceipt(s.active.value))
          && s.journal.value.actualState == Some(s.active.value.state))
    && (s.active.Some? ==>
          var r := s.active.value;
          var c := LoadContext(env, r.contextPath);
          c.Success? && r.provenance == c.value.provenance && r.contextSha == OfContext(c.value))
  }

  predicate ContextMatchesJournal(c: Context, path: string, j: Journal) {
    j.contextPath == path && j.contextSha == OfContext(c) && j.provenance == c.provenance
  }

  function Transitions(phase: string): set<string> {
    if phase == "intent" then {"core-validated"}
    else if phase == "core-validated" then {"quiesced"}
    else if phase == "quiesced" then {"creating"}
    else if phase == "creating" then {"created"}
    else if phase == "created" then {"firewall-active", "firewall-inactive"}
    else if phase == "firewall-active" || phase == "firewall-inactive" then {"runtime-verified"}
    else if phase == "runtime-verified" then {"postdeploy-verified"}
    else {}
  }

  function Optional(s: string): Option<string> {
    if s == "" then None else Some(s)
  }

  function JournalForContext(c: Context, b: Request): Journal
    requires b.Begin?
  {
    Journal(Pending, b.transactionId, "intent", b.detail, b.daemonId, OfContext(c), b.contextPath, c.provenance,
            b.targetState, None, Optional(b.lockPath), Optional(b.previousLockPath), None)
  }

  function ReceiptFromCommit(env: Env, c: Context, path: string, daemonId: string, actualState: string,
                             lockPath: Option<string>, modelSha: Option<string>, e: Evidence)
    : Result<Receipt, BrokerError>
  {
    if modelSha.Some? && actualState != "stopped" && !Hex64(modelSha.value) then Failure(InvalidReceipt)
    else if actualState == "hosted" then
      if c.noHosted || e.serviceNames != c.subjects then Failure(InvalidReceipt)
      else
        var lock := c.hostedLockSha256;
        Success(NewReceipt(Hosted, c, path, daemonId, lockPath, lock, c.combinedRenderSha256, modelSha, e))
    else if actualState == "no-hosted" then
      if c.releaseRoot !in env.noHostedLocks then Failure(InvalidReceipt)
      else if e.serviceNames == [] || exists n :: n in e.serviceNames && n !in c.subjects then Failure(InvalidReceipt)
      else
        var combined := if c.noHosted then c.combinedRenderSha256 else c.sourceRenderSha256;
        var lock := Some(env.noHostedLocks[c.releaseRoot]);
        Success(NewReceipt(NoHosted, c, path, daemonId, lockPath, lock, combined, modelSha, e))
    else if actualState == "stopped" then
      if e != Evidence([], [], [], []) then Failure(InvalidReceipt)
      else
        Success(NewReceipt(Stopped, c, path, daemonId, lockPath, c.hostedLockSha256, c.combinedRenderSha256, None, e))
    else Failure(InvalidReceipt)
  }

  function NewReceipt(state: ActualState, c: Context, path: string, daemonId: string, lockPath: Option<string>,
                      lockSha: Option<Digest>, combined: string, modelSha: Option<string>, e: Evidence): Receipt
  {
    Receipt(state, daemonId, OfContext(c), path, c.provenance, lockPath, lockSha, c.sourceRenderSha256, combined,
            modelSha, e.serviceNames, e.containerReceipts, e.networkReceipts, e.volumeReceipts)
  }

  /** The journal that commit_pair writes after the receipt. */
  function Completed(j: Journal, r: Receipt, detail: string): Journal {
    j.(state := Complete, phase := "complete", detail := detail,
       actualState := Some(r.state), activeReceiptSha256 := Some(OfReceipt(r)))
  }

  function CommitPair(j: Journal, r: Receipt, detail: string): Result<seq<Write>, BrokerError> {
    if !ValidActive(r) || !ValidJournal(Completed(j, r, detail)) then Failure(InvalidReceipt)
    else Success([WriteActive(r), WriteJournal(Completed(j, r, detail))])
  }

  // ---------------------------------------------------------------- requests

  /** The pending journal that transaction and phase select, by compare-and-swap. */
  predicate Selects(s: Store, transactionId: string, from: string) {
    && s.journal.Some? && s.journal.value.state == Pending
    && s.journal.value.transactionId == transactionId && s.journal.value.phase == from
  }

  function RecoveryPath(j: Journal): string {
    Derived(j.contextPath, j.provenance.stateId, CONTEXT_NAME)
  }

  /** The context digest that a begin is compared with. */
  function PreviousSha(s: Store): Digest {
    if s.active.Some? then s.active.value.contextSha else Text("")
  }

  function BeginEffects(env: Env, s: Store, q: Request): Result<seq<Write>, BrokerError>
    requires q.Begin?
  {
    if !Hex64(q.transactionId) || (q.targetState != "hosted" && q.targetState != "no-hosted") then
      Failure(InvalidTransaction)
    else if s.journal.Some? && s.journal.value.state == Pending then Failure(PendingTransaction)
    else
      var c := LoadContext(env, q.contextPath);
      if c.Failure? then Failure(c.error)
      else if c.value.noHosted != (q.targetState == "no-hosted") then Failure(TargetMismatch)
      else if q.expectedPrevious != PreviousSha(s) then Failure(CompareAndSwap)
      else Success([WriteJournal(JournalForContext(c.value, q))])
  }

  function AdvanceEffects(s: Store, q: Request): Result<seq<Write>, BrokerError>
    requires q.Advance?
  {
    if !Selects(s, q.transactionId, q.from) then Failure(CompareAndSwap)
    else if q.next !in Transitions(q.from) then Failure(ForbiddenTransition)
    else Success([WriteJournal(s.journal.value.(phase := q.next, detail := q.detail))])
  }

  function CommitEffects(env: Env, s: Store, q: Request): Result<seq<Write>, BrokerError>
    requires q.Commit?
  {
    if !Selects(s, q.transactionId, q.from) then Failure(CompareAndSwap)
    else
      var c := LoadContext(env, q.contextPath);
      if c.Failure? then Failure(c.error)
      else if !ContextMatchesJournal(c.value, q.contextPath, s.journal.value) then Failure(ContextMismatch)
      else if q.evidence.None? then Failure(InvalidEvidence)
      else if !SortedSet(q.evidence.value.serviceNames)
              || exists n :: n in q.evidence.value.serviceNames && !ServiceName(n) then Failure(InvalidEvidence)
      else
        var r := ReceiptFromCommit(env, c.value, q.contextPath, q.daemonId, q.actualState,
                                   Optional(q.lockPath), Optional(q.modelSha), q.evidence.value);
        if r.Failure? then Failure(r.error) else CommitPair(s.journal.value, r.value, q.detail)
  }

  function RecoverEffects(env: Env, s: Store, q: Request): Result<seq<Write>, BrokerError>
    requires q.RecoverStop?
  {
    if !Selects(s, q.transactionId, q.from) then Failure(CompareAndSwap)
    else if q.contextPath != RecoveryPath(s.journal.value) then Failure(NotJournalDerived)
    else
      var c := LoadContext(env, q.contextPath);
      if c.Failure? then Failure(c.error)
      else if !ContextMatchesJournal(c.value, q.contextPath, s.journal.value) then Failure(ContextMismatch)
      else
        var r := ReceiptFromCommit(env, c.value, q.contextPath, q.daemonId, "stopped",
                                   s.journal.value.lockPath, None, Evidence([], [], [], []));
        if r.Failure? then Failure(r.error) else CommitPair(s.journal.value, r.value, q.detail)
  }

  /** dispatch: the writes a request decides on, in order, or its refusal. */
  function Effects(env: Env, s: Store, q: Request): Result<seq<Write>, BrokerError> {
    if !Readable(env, s) then Failure(TooLarge)
    else if !ValidPair(env, s) then Failure(InvalidState)
    else match q
      case Ping => Success([])
      case Snapshot => Success([])
      case Firewall => Success([])
      case Begin(_, _, _, _, _, _, _, _) => BeginEffects(env, s, q)
      case Advance(_, _, _, _) => AdvanceEffects(s, q)
      case Commit(_, _, _, _, _, _, _, _, _) => CommitEffects(env, s, q)
      case RecoverStop(_, _, _, _, _) => RecoverEffects(env, s, q)
  }

  function ApplyOne(s: Store, w: Write): Store {
    match w
    case WriteActive(r) => s.(active := Some(r))
    case WriteJournal(j) => s.(journal := Some(j))
  }

  function Apply(s: Store, ws: seq<Write>): Store
    decreases |ws|
  {
    if ws == [] then s else Apply(ApplyOne(s, ws[0]), ws[1..])
  }

  /** A request and the number of its writes that landed before the supervisor died;
      a number beyond the last write means that it did not die. */
  datatype Event = Event(request: Request, landed: nat)

  function After(env: Env, s: Store, e: Event): Store {
    match Effects(env, s, e.request)
    case Failure(_) => s
    case Success(ws) => Apply(s, if e.landed < |ws| then ws[..e.landed] else ws)
  }

  const EMPTY := Store(None, None)

  function Run(env: Env, events: seq<Event>): Store
    decreases |events|
  {
    if events == [] then EMPTY else After(env, Run(env, events[..|events| - 1]), events[|events| - 1])
  }

  // ---------------------------------------------------------------- invariant

  ghost predicate Bound(env: Env, path: string, sha: Digest, p: Provenance) {
    var c := LoadContext(env, path);
    c.Success? && sha == OfContext(c.value) && p == c.value.provenance
  }

  ghost predicate Inv(env: Env, s: Store) {
    && ValidPair(env, s)
    && (s.journal.Some? ==>
          var j := s.journal.value;
          && Bound(env, j.contextPath, j.contextSha, j.provenance)
          && (j.state == Pending ==> j.actualState == None && j.activeReceiptSha256 == None && Rank(j.phase) <= 7)
          && (j.state == Complete ==>
                && s.active.Some? && s.active.value.contextPath == j.contextPath
                && s.active.value.contextSha == j.contextSha && s.active.value.provenance == j.provenance))
  }

  /** Distance of a phase from "intent"; 8 for a string that is no phase. */
  function Rank(phase: string): nat {
    if phase == "intent" then 0
    else if phase == "core-validated" then 1
    else if phase == "quiesced" then 2
    else if phase == "creating" then 3
    else if phase == "created" then 4
    else if phase == "firewall-active" || phase == "firewall-inactive" then 5
    else if phase == "runtime-verified" then 6
    else if phase == "postdeploy-verified" then 7
    else 8
  }

  lemma TransitionsClimbByOne(from: string, next: string)
    requires next in Transitions(from)
    ensures Rank(next) == Rank(from) + 1 && Rank(next) <= 7
  {}

  lemma PhasesEndAtPostdeploy(from: string)
    requires Rank(from) <= 7
    ensures Transitions(from) == {} <==> Rank(from) == 7
    ensures Rank(from) == 7 <==> from == "postdeploy-verified"
  {}

  /** A receipt is always of the context it was asked for. */
  lemma ReceiptIsOfContext(env: Env, c: Context, path: string, daemonId: string, actual: string,
                           lockPath: Option<string>, modelSha: Option<string>, e: Evidence)
    requires ReceiptFromCommit(env, c, path, daemonId, actual, lockPath, modelSha, e).Success?
    ensures var r := ReceiptFromCommit(env, c, path, daemonId, actual, lockPath, modelSha, e).value;
      && r.contextPath == path && r.contextSha == OfContext(c) && r.provenance == c.provenance
      && r.serviceNames == e.serviceNames
      && (actual == "stopped" ==> r.state == Stopped)
  {}

  /** The two writes of an accepted commit or recovery: a receipt of the pending
      transaction's own context, then the journal that carries its digest. */
  ghost predicate IsCommitOf(env: Env, j: Journal, detail: string, ws: seq<Write>) {
    && |ws| == 2 && ws[0].WriteActive?
    && ws[1] == WriteJournal(Completed(j, ws[0].receipt, detail))
    && ValidActive(ws[0].receipt)
    && Bound(env, ws[0].receipt.contextPath, ws[0].receipt.contextSha, ws[0].receipt.provenance)
    && ws[0].receipt.contextPath == j.contextPath
    && ws[0].receipt.contextSha == j.contextSha
    && ws[0].receipt.provenance == j.provenance
  }

  lemma AcceptedCommit(env: Env, s: Store, q: Request)
    requires (q.Commit? || q.RecoverStop?) && Effects(env, s, q).Success?
    ensures Selects(s, q.transactionId, q.from)
    ensures IsCommitOf(env, s.journal.value, q.detail, Effects(env, s, q).value)
  {
    hide ValidPair, ReceiptFromCommit, LoadContext, Derived, SortedSet, ServiceName;
    var c := LoadContext(env, q.contextPath).value;
    if q.Commit? {
      ReceiptIsOfContext(env, c, q.contextPath, q.daemonId, q.actualState, Optional(q.lockPath), Optional(q.modelSha),
                         q.evidence.value);
    } else {
      ReceiptIsOfContext(env, c, q.contextPath, q.daemonId, "stopped", s.journal.value.lockPath, None,
                         Evidence([], [], [], []));
    }
  }

  lemma ApplyNone(s: Store)
    ensures Apply(s, []) == s
  {}

  lemma ApplyTwo(s: Store, a: Write, b: Write)
    ensures Apply(s, [a, b]) == ApplyOne(ApplyOne(s, a), b)
    ensures Apply(s, [a]) == ApplyOne(s, a)
    ensures Apply(s, []) == s
  {
    assert [a, b][1..] == [b] && [b][1..] == [] && [a][1..] == [];
    assert Apply(ApplyOne(s, a), [b]) == Apply(ApplyOne(ApplyOne(s, a), b), []);
  }

  /** What the store may be after an event: as it was, or with the one write of a begin
      or an advance, or with the first or both writes of a commit. */
  ghost predicate Landed(s: Store, t: Store, ws: seq<Write>) {
    || t == s
    || (|ws| == 1 && ws[0].WriteJournal? && t == s.(journal := Some(ws[0].journal)))
    || (|ws| == 2 && ws[0].WriteActive? && ws[1].WriteJournal?
          && (t == s.(active := Some(ws[0].receipt)) || t == Store(Some(ws[1].journal), Some(ws[0].receipt))))
  }

  lemma AfterLands(env: Env, s: Store, e: Event)
    ensures Effects(env, s, e.request).Failure? ==> After(env, s, e) == s
    ensures Effects(env, s, e.request).Success? ==> Landed(s, After(env, s, e), Effects(env, s, e.request).value)
  {
    hide ValidPair, BeginEffects, AdvanceEffects, CommitEffects, RecoverEffects, Landed, Apply;
    var q := e.request;
    if Effects(env, s, q).Success? {
      var ws := Effects(env, s, q).value;
      if q.Commit? || q.RecoverStop? {
        AcceptedCommit(env, s, q);
        assert ws == [ws[0], ws[1]];
        ApplyTwo(s, ws[0], ws[1]);
        LandsOfTwo(s, ws[0], ws[1], e.landed);
      } else if q.Begin? || q.Advance? {
        SingleWrite(env, s, q);
        LandsOfOne(s, ws[0], e.landed);
      } else {
        LandsOfNone(s);
      }
    }
  }

  lemma LandsOfNone(s: Store)
    ensures Landed(s, Apply(s, []), [])
  {}

  lemma SingleWrite(env: Env, s: Store, q: Request)
    requires (q.Begin? || q.Advance?) && Effects(env, s, q).Success?
    ensures var ws := Effects(env, s, q).value;
      |ws| == 1 && ws[0].WriteJournal? && ws == [ws[0]]
  {}

  lemma LandsOfOne(s: Store, a: Write, n: nat)
    requires a.WriteJournal?
    ensures Landed(s, Apply(s, if n < 1 then [a][..n] else [a]), [a])
  {
    ApplyTwo(s, a, a);
    assert [a][..0] == [];
  }

  lemma LandsOfTwo(s: Store, a: Write, b: Write, n: nat)
    requires a.WriteActive? && b.WriteJournal?
    ensures Landed(s, Apply(s, if n < 2 then [a, b][..n] else [a, b]), [a, b])
  {
    ApplyTwo(s, a, b);
    assert [a, b][..0] == [] && [a, b][..1] == [a];
  }

  lemma StepKeepsInv(env: Env, s: Store, e: Event)
    requires Inv(env, s)
    ensures Inv(env, After(env, s, e))
  {
    AfterLands(env, s, e);
    var q := e.request;
    if Effects(env, s, q).Success? {
      var ws := Effects(env, s, q).value;
      if q.Commit? || q.RecoverStop? {
        AcceptedCommit(env, s, q);
        CommitKeepsInv(env, s, After(env, s, e), q.detail, ws);
      } else if q.Advance? {
        TransitionsClimbByOne(q.from, q.next);
      }
    }
  }

  lemma CommitKeepsInv(env: Env, s: Store, t: Store, detail: string, ws: seq<Write>)
    requires Inv(env, s) && s.journal.Some? && s.journal.value.state == Pending
    requires IsCommitOf(env, s.journal.value, detail, ws) && Landed(s, t, ws)
    ensures Inv(env, t)
  {}

  /** Over every sequence of requests, half commits included, the pair on disk passes
      validation and a complete journal carries the digest and state of the receipt. */
  lemma {:induction false} PairAlwaysValid(env: Env, events: seq<Event>)
    ensures Inv(env, Run(env, events))
    ensures ValidPair(env, Run(env, events))
  {
    if events != [] {
      PairAlwaysValid(env, events[..|events| - 1]);
      StepKeepsInv(env, Run(env, events[..|events| - 1]), events[|events| - 1]);
    }
  }

  // ---------------------------------------------------------------- documents too long to read

  /** Every write of the event that landed can be read back. */
  ghost predicate LandedFits(env: Env, s: Store, e: Event) {
    Effects(env, s, e.request).Success? ==>
      var ws := Effects(env, s, e.request).value;
      forall i :: 0 <= i < |ws| && i < e.landed ==> Fits(env, ws[i])
  }

  /** From a store that cannot be read nothing is accepted and nothing changes. */
  lemma UnreadableIsFinal(env: Env, s: Store, e: Event)
    requires !Readable(env, s)
    ensures Effects(env, s, e.request) == Failure(TooLarge) && After(env, s, e) == s
  {}

  /** One event leaves a readable store exactly when what it wrote fits. */
  lemma ReadableStep(env: Env, s: Store, e: Event)
    requires Readable(env, s)
    ensures Readable(env, After(env, s, e)) <==> LandedFits(env, s, e)
  {
    hide ValidPair, BeginEffects, AdvanceEffects, CommitEffects, RecoverEffects, Apply;
    AfterLands(env, s, e);
    var q := e.request;
    if Effects(env, s, q).Success? {
      var ws := Effects(env, s, q).value;
      if q.Commit? || q.RecoverStop? {
        AcceptedCommit(env, s, q);
        assert ws == [ws[0], ws[1]] && ws[..1] == [ws[0]] && ws[..0] == [];
        ApplyTwo(s, ws[0], ws[1]);
      } else if q.Begin? || q.Advance? {
        SingleWrite(env, s, q);
        assert ws[..0] == [];
        ApplyTwo(s, ws[0], ws[0]);
      }
    }
  }

  /** The store at the end of a run can be read exactly when every document that landed
      in it fits: the first one that does not is never replaced. */
  lemma {:induction false} RunIsReadableIff(env: Env, events: seq<Event>)
    ensures Readable(env, Run(env, events)) <==>
            forall k :: 0 <= k < |events| ==> LandedFits(env, Run(env, events[..k]), events[k])
    decreases |events|
  {
    hide Effects, After, Readable, LandedFits;
    if events != [] {
      var n := |events| - 1;
      var before := events[..n];
      RunIsReadableIff(env, before);
      forall k | 0 <= k < n ensures before[..k] == events[..k] && before[k] == events[k] {}
      if Readable(env, Run(env, before)) {
        ReadableStep(env, Run(env, before), events[n]);
      } else {
        UnreadableIsFinal(env, Run(env, before), events[n]);
        var k :| 0 <= k < n && !LandedFits(env, Run(env, before[..k]), before[k]);
        assert !LandedFits(env, Run(env, events[..k]), events[k]);
      }
    } else {
      NothingIsReadable(env);
    }
  }

  lemma NothingIsReadable(env: Env)
    ensures Readable(env, EMPTY)
  {}

  /** After a document that does not fit every later request is refused. */
  lemma {:induction false} UnreadableStays(env: Env, events: seq<Event>, more: seq<Event>)
    requires !Readable(env, Run(env, events))
    ensures Run(env, events + more) == Run(env, events)
    decreases |more|
  {
    hide Effects, After, Readable;
    if more == [] {
      assert events + more == events;
    } else {
      var n := |more| - 1;
      var all := events + more;
      UnreadableStays(env, events, more[..n]);
      assert all[..|all| - 1] == events + more[..n] && all[|all| - 1] == more[n];
      UnreadableIsFinal(env, Run(env, events), more[n]);
    }
  }

  // ---------------------------------------------------------------- who may change the receipt

  /** The active receipt changes only while a transaction is pending, by the commit or
      recovery of that transaction, and then records that transaction's own context. */
  lemma ReceiptChangesOnlyByPending(env: Env, s: Store, e: Event)
    requires Inv(env, s) && After(env, s, e).active != s.active
    ensures s.journal.Some? && s.journal.value.state == Pending
    ensures e.request.Commit? || e.request.RecoverStop?
    ensures e.request.transactionId == s.journal.value.transactionId && e.request.from == s.journal.value.phase
    ensures After(env, s, e).active.Some?
    ensures var r := After(env, s, e).active.value;
      && r.contextPath == s.journal.value.contextPath
      && r.contextSha == s.journal.value.contextSha
      && r.provenance == s.journal.value.provenance
  {
    AfterLands(env, s, e);
    if e.request.Commit? || e.request.RecoverStop? {
      AcceptedCommit(env, s, e.request);
    } else if e.request.Begin? || e.request.Advance? {
      SingleWrite(env, s, e.request);
    }
  }

  // ---------------------------------------------------------------- half commits

  /** Only the first of the two writes of an accepted commit landed. */
  function HalfCommit(env: Env, s: Store, q: Request): Store {
    After(env, s, Event(q, 1))
  }

  function FullEffect(env: Env, s: Store, q: Request): Store {
    After(env, s, Event(q, 2))
  }

  /** Retrying the same commit or recovery after a half commit gives the pair that it
      would have given in one go, provided that the receipt can be read back; retrying it
      once more is refused and writes nothing. */
  lemma RetryCompletesHalfCommit(env: Env, s: Store, q: Request)
    requires Inv(env, s) && (q.Commit? || q.RecoverStop?) && Effects(env, s, q).Success?
    ensures FullEffect(env, HalfCommit(env, s, q), q) == FullEffect(env, s, q) <==> Readable(env, HalfCommit(env, s, q))
    ensures Effects(env, FullEffect(env, s, q), q).Failure?
    ensures FullEffect(env, FullEffect(env, s, q), q) == FullEffect(env, s, q)
  {
    hide Inv, ValidPair, IsCommitOf, Effects, Readable, HalfCommit, FullEffect;
    HalfCommitIsPending(env, s, q);
    FullCommitIsRefused(env, s, q);
    if Readable(env, HalfCommit(env, s, q)) {
      RetryOfReadable(env, s, q);
    } else {
      UnreadableIsFinal(env, HalfCommit(env, s, q), Event(q, 2));
    }
  }

  lemma HalfCommitIsPending(env: Env, s: Store, q: Request)
    requires (q.Commit? || q.RecoverStop?) && Effects(env, s, q).Success?
    ensures HalfCommit(env, s, q).journal == s.journal && FullEffect(env, s, q) != HalfCommit(env, s, q)
    ensures FullEffect(env, HalfCommit(env, s, q), q) == After(env, HalfCommit(env, s, q), Event(q, 2))
  {
    hide Effects, HalfCommit, After, IsCommitOf;
    BothWrites(env, s, q);
  }

  lemma FullCommitIsRefused(env: Env, s: Store, q: Request)
    requires (q.Commit? || q.RecoverStop?) && Effects(env, s, q).Success?
    ensures Effects(env, FullEffect(env, s, q), q).Failure?
    ensures FullEffect(env, FullEffect(env, s, q), q) == FullEffect(env, s, q)
  {
    hide ValidPair, Readable;
    BothWrites(env, s, q);
  }

  lemma RetryOfReadable(env: Env, s: Store, q: Request)
    requires Inv(env, s) && (q.Commit? || q.RecoverStop?) && Effects(env, s, q).Success?
    requires Readable(env, HalfCommit(env, s, q))
    ensures FullEffect(env, HalfCommit(env, s, q), q) == FullEffect(env, s, q)
  {
    hide Inv, ValidPair, IsCommitOf, Readable, FullEffect, HalfCommit;
    BothWrites(env, s, q);
    var h := HalfCommit(env, s, q);
    HalfKeepsInv(env, s, q);
    InvIsValid(env, s);
    InvIsValid(env, h);
    AcceptedIsReadable(env, s, q);
    SameDecision(env, s, h, q);
    BothWrites(env, h, q);
  }

  lemma HalfKeepsInv(env: Env, s: Store, q: Request)
    requires Inv(env, s)
    ensures Inv(env, HalfCommit(env, s, q))
  {
    hide Inv, Effects;
    StepKeepsInv(env, s, Event(q, 1));
  }

  lemma AcceptedIsReadable(env: Env, s: Store, q: Request)
    requires Effects(env, s, q).Success?
    ensures Readable(env, s)
  {}

  lemma InvIsValid(env: Env, s: Store)
    requires Inv(env, s)
    ensures ValidPair(env, s)
  {}

  /** A commit reads the journal and the context, never the receipt it replaces. */
  lemma SameDecision(env: Env, s: Store, h: Store, q: Request)
    requires ValidPair(env, s) && ValidPair(env, h) && s.journal == h.journal && (q.Commit? || q.RecoverStop?)
    requires Readable(env, s) && Readable(env, h)
    ensures Effects(env, s, q) == Effects(env, h, q)
  {
    hide ValidPair, ReceiptFromCommit, LoadContext, Derived, ServiceName, SortedSet, ContextMatchesJournal, CommitPair;
  }

  // ---------------------------------------------------------------- recoverability

  /** The recovery request that the journal itself dictates. */
  function RecoveryOf(j: Journal, daemonId: string, detail: string): Request {
    RecoverStop(j.transactionId, j.phase, RecoveryPath(j), daemonId, detail)
  }

  /** Some recovery of this transaction is accepted. */
  ghost predicate Recoverable(env: Env, s: Store) {
    exists q: Request :: q.RecoverStop? && Effects(env, s, q).Success?
  }

  /** From every reachable pending store, half commits included, the journal-derived
      recovery is accepted exactly when the store can be read and the context path was begun
      with a clean tail; otherwise no recovery whatever is accepted. */
  lemma RecoverableIffCleanTail(env: Env, s: Store, daemonId: string, detail: string)
    requires Inv(env, s) && s.journal.Some? && s.journal.value.state == Pending
    ensures var j := s.journal.value;
      var stoppable := Readable(env, s) && CleanTail(j.contextPath, j.provenance.stateId, CONTEXT_NAME);
      && (Effects(env, s, RecoveryOf(j, daemonId, detail)).Success? <==> stoppable)
      && (Recoverable(env, s) <==> stoppable)
  {
    hide CleanTail, Derived, ValidPair;
    var j := s.journal.value;
    StateIdHasNoSlash(j.provenance.stateId);
    DerivedIffCleanTail(j.contextPath, j.provenance.stateId, CONTEXT_NAME);
    var q := RecoveryOf(j, daemonId, detail);
    if Effects(env, s, q).Success? {
      AcceptedCommit(env, s, q);
    }
    if Recoverable(env, s) {
      var other: Request :| other.RecoverStop? && Effects(env, s, other).Success?;
      AcceptedCommit(env, s, other);
    }
    if Readable(env, s) && RecoveryPath(j) == j.contextPath {
      AcceptRecovery(env, s, daemonId, detail);
    }
  }

  lemma StateIdHasNoSlash(id: string)
    requires ReleaseIdentifier(id)
    ensures id != [] && NoSlash(id) && NoSlash(CONTEXT_NAME) && CONTEXT_NAME != []
  {}

  lemma AcceptRecovery(env: Env, s: Store, daemonId: string, detail: string)
    requires Inv(env, s) && s.journal.Some? && s.journal.value.state == Pending
    requires Readable(env, s) && RecoveryPath(s.journal.value) == s.journal.value.contextPath
    ensures Effects(env, s, RecoveryOf(s.journal.value, daemonId, detail)).Success?
  {
    hide Derived, LoadContext;
    assert SortedSet([]);
  }

  /** A complete journal and a stopped receipt without services. */
  ghost predicate StoppedPair(t: Store, transactionId: string) {
    && t.journal.Some? && t.journal.value.state == Complete && t.journal.value.actualState == Some(Stopped)
    && t.journal.value.transactionId == transactionId
    && t.active.Some? && t.active.value.state == Stopped && t.active.value.serviceNames == []
  }

  /** What an accepted recovery leaves, whatever half commit it started from. */
  lemma RecoveryStops(env: Env, s: Store, q: Request)
    requires Inv(env, s) && q.RecoverStop? && Effects(env, s, q).Success?
    ensures Inv(env, FullEffect(env, s, q)) && StoppedPair(FullEffect(env, s, q), q.transactionId)
  {
    AcceptedCommit(env, s, q);
    var ws := Effects(env, s, q).value;
    assert ws[0].receipt.state == Stopped && ws[0].receipt.serviceNames == [] by {
      StoppedReceipt(env, s, q);
    }
    BothWrites(env, s, q);
    StepKeepsInv(env, s, Event(q, 2));
  }

  lemma StoppedReceipt(env: Env, s: Store, q: Request)
    requires q.RecoverStop? && Effects(env, s, q).Success?
    ensures var ws := Effects(env, s, q).value;
      |ws| == 2 && ws[0].WriteActive? && ws[0].receipt.state == Stopped && ws[0].receipt.serviceNames == []
  {
    hide ValidPair, ReceiptFromCommit, LoadContext, Derived;
    var c := LoadContext(env, q.contextPath).value;
    ReceiptIsOfContext(env, c, q.contextPath, q.daemonId, "stopped", s.journal.value.lockPath, None,
                       Evidence([], [], [], []));
  }

  /** The two outcomes of a commit by number of landed writes. */
  lemma BothWrites(env: Env, s: Store, q: Request)
    requires (q.Commit? || q.RecoverStop?) && Effects(env, s, q).Success?
    ensures Selects(s, q.transactionId, q.from)
    ensures var ws := Effects(env, s, q).value;
      && IsCommitOf(env, s.journal.value, q.detail, ws)
      && HalfCommit(env, s, q) == s.(active := Some(ws[0].receipt))
      && FullEffect(env, s, q) == Store(Some(Completed(s.journal.value, ws[0].receipt, q.detail)), Some(ws[0].receipt))
  {
    hide ValidPair, CommitEffects, RecoverEffects, Apply, Completed;
    AcceptedCommit(env, s, q);
    var ws := Effects(env, s, q).value;
    assert ws == [ws[0], ws[1]] && ws[..1] == [ws[0]];
    ApplyTwo(s, ws[0], ws[1]);
  }

  /** The same over whole runs: whatever requests and crashes came before, a pending
      transaction with a clean context path is stopped by the recovery its journal
      dictates, unless a document that landed was too long, and the result is a valid
      complete pair. */
  lemma EveryPendingRunRecovers(env: Env, events: seq<Event>, daemonId: string, detail: string)
    requires var s := Run(env, events);
      && s.journal.Some? && s.journal.value.state == Pending
      && CleanTail(s.journal.value.contextPath, s.journal.value.provenance.stateId, CONTEXT_NAME)
    ensures var s := Run(env, events);
      var q := RecoveryOf(s.journal.value, daemonId, detail);
      && (Effects(env, s, q).Success? <==>
            forall k :: 0 <= k < |events| ==> LandedFits(env, Run(env, events[..k]), events[k]))
      && (Effects(env, s, q).Success? ==>
            Inv(env, FullEffect(env, s, q)) && StoppedPair(FullEffect(env, s, q), s.journal.value.transactionId))
  {
    hide Inv, CleanTail, StoppedPair, Effects, After, LandedFits;
    var s := Run(env, events);
    PairAlwaysValid(env, events);
    RunIsReadableIff(env, events);
    RecoverableIffCleanTail(env, s, daemonId, detail);
    if Readable(env, s) {
      RecoveryStops(env, s, RecoveryOf(s.journal.value, daemonId, detail));
    }
  }

  /** A commit of the stopped state, without evidence of anything running, on the path the
      journal records. */
  function StopCommit(j: Journal, daemonId: string, detail: string): Request {
    Commit(j.transactionId, j.phase, j.contextPath, daemonId, "stopped", "", "", detail, Some(Evidence([], [], [], [])))
  }

  /** Whatever its path looks like, a pending transaction is stopped by that commit. */
  lemma StopCommitStops(env: Env, s: Store, daemonId: string, detail: string)
    requires Inv(env, s) && s.journal.Some? && s.journal.value.state == Pending && Readable(env, s)
    ensures var q := StopCommit(s.journal.value, daemonId, detail);
      && Effects(env, s, q).Success?
      && Inv(env, FullEffect(env, s, q))
      && StoppedPair(FullEffect(env, s, q), s.journal.value.transactionId)
  {
    var q := StopCommit(s.journal.value, daemonId, detail);
    assert SortedSet([]);
    StopIsAccepted(env, s, daemonId, detail);
    BothWrites(env, s, q);
    StepKeepsInv(env, s, Event(q, 2));
  }

  lemma StopIsAccepted(env: Env, s: Store, daemonId: string, detail: string)
    requires Inv(env, s) && s.journal.Some? && s.journal.value.state == Pending && Readable(env, s)
    ensures var q := StopCommit(s.journal.value, daemonId, detail);
      && Effects(env, s, q).Success? && |Effects(env, s, q).value| == 2
      && Effects(env, s, q).value[0].WriteActive?
      && Effects(env, s, q).value[0].receipt.state == Stopped && Effects(env, s, q).value[0].receipt.serviceNames == []
  {
    hide LoadContext;
    assert SortedSet([]);
  }

  /** Over whole runs: a pending transaction, half commits included and clean path or not,
      is stopped by the commit that its journal dictates exactly when every document that
      landed can be read back. */
  lemma EveryPendingRunCanBeStopped(env: Env, events: seq<Event>, daemonId: string, detail: string)
    requires var s := Run(env, events); s.journal.Some? && s.journal.value.state == Pending
    ensures var s := Run(env, events);
      var q := StopCommit(s.journal.value, daemonId, detail);
      && (Effects(env, s, q).Success? <==>
            forall k :: 0 <= k < |events| ==> LandedFits(env, Run(env, events[..k]), events[k]))
      && (Effects(env, s, q).Success? ==>
            Inv(env, FullEffect(env, s, q)) && StoppedPair(FullEffect(env, s, q), s.journal.value.transactionId))
  {
    hide Inv, StoppedPair, Effects, After, LandedFits;
    var s := Run(env, events);
    PairAlwaysValid(env, events);
    RunIsReadableIff(env, events);
    if Readable(env, s) {
      StopCommitStops(env, s, daemonId, detail);
    } else {
      UnreadableIsFinal(env, s, Event(StopCommit(s.journal.value, daemonId, detail), 2));
    }
  }

  /** A context begun by its own absolute path has a clean tail. */
  lemma CanonicalPathIsClean(c: Context, path: string)
    requires ValidContext(c, path) && NoDoubledSlash(path)
    ensures CleanTail(path, c.provenance.stateId, CONTEXT_NAME)
  {
    StateIdHasNoSlash(c.provenance.stateId);
    JoinedIsClean(c.stateRoot, c.provenance.stateId, CONTEXT_NAME);
  }

  // A context path with a doubled slash is accepted by `begin`, because it is made
  // absolute before it is compared, and leaves a transaction that no `recover-stop` can
  // end; a commit of the stopped state still can.

  const SAMPLE_ID := "release-1"
  const SAMPLE_ROOT := "/r/" + SAMPLE_ID
  const SAMPLE_PATH := SAMPLE_ROOT + "/" + CONTEXT_NAME
  const SAMPLE_DOUBLED := "/r//" + SAMPLE_ID + "/" + CONTEXT_NAME

  function SampleEnv(c: Context, size: Write -> nat): Env {
    Env(map[SAMPLE_PATH := c], map[], p => SAMPLE_PATH, size)
  }

  lemma DoubledSlashIsUnrecoverable(c: Context, q: Request, size: Write -> nat)
    requires c.stateRoot == SAMPLE_ROOT && c.provenance.stateId == SAMPLE_ID
    requires c.sourceRenderSha256 != c.combinedRenderSha256 && c.noHosted && c.hostedLockSha256.None?
    requires c.subjects == ["backup-scheduler"]
    requires q.Begin? && Hex64(q.transactionId) && q.contextPath == SAMPLE_DOUBLED
    requires q.targetState == "no-hosted" && q.expectedPrevious == Text("")
    requires size(WriteJournal(JournalForContext(c, q))) <= MAX_DOCUMENT
    ensures Effects(SampleEnv(c, size), EMPTY, q).Success?
    ensures After(SampleEnv(c, size), EMPTY, Event(q, 1)).journal.Some?
    ensures !Recoverable(SampleEnv(c, size), After(SampleEnv(c, size), EMPTY, Event(q, 1)))
    ensures var s := After(SampleEnv(c, size), EMPTY, Event(q, 1));
      Effects(SampleEnv(c, size), s, StopCommit(s.journal.value, "", "")).Success?
  {
    hide CleanTail, ValidContext, Derived;
    var env := SampleEnv(c, size);
    SampleIsValid(c, size);
    var s := EMPTY.(journal := Some(JournalForContext(c, q)));
    ApplyTwo(EMPTY, WriteJournal(JournalForContext(c, q)), WriteJournal(JournalForContext(c, q)));
    assert After(env, EMPTY, Event(q, 1)) == s;
    DoubledIsNotClean();
    StepKeepsInv(env, EMPTY, Event(q, 1));
    RecoverableIffCleanTail(env, s, "", "");
    StopCommitStops(env, s, "", "");
  }

  /** A begin with more than 16 MiB of detail is accepted, and is the last request that
      ever is: no commit, no recovery, not even a snapshot. */
  lemma LongDetailIsFinal(c: Context, q: Request, size: Write -> nat, more: seq<Event>, next: Request)
    requires c.stateRoot == SAMPLE_ROOT && c.provenance.stateId == SAMPLE_ID
    requires c.sourceRenderSha256 != c.combinedRenderSha256 && c.noHosted && c.hostedLockSha256.None?
    requires c.subjects == ["backup-scheduler"]
    requires q.Begin? && Hex64(q.transactionId) && q.contextPath == SAMPLE_PATH
    requires q.targetState == "no-hosted" && q.expectedPrevious == Text("")
    requires |q.detail| > MAX_DOCUMENT && forall j: Journal :: size(WriteJournal(j)) >= |j.detail|
    ensures var env, begun := SampleEnv(c, size), [Event(q, 1)];
      && Effects(env, EMPTY, q).Success?
      && Run(env, begun).journal == Some(JournalForContext(c, q))
      && Run(env, begun + more) == Run(env, begun)
      && Effects(env, Run(env, begun + more), next) == Failure(TooLarge)
  {
    hide ValidContext;
    var env, begun := SampleEnv(c, size), [Event(q, 1)];
    SampleIsValid(c, size);
    var j := JournalForContext(c, q);
    assert Effects(env, EMPTY, q) == Success([WriteJournal(j)]);
    ApplyTwo(EMPTY, WriteJournal(j), WriteJournal(j));
    assert begun[..0] == [] && Run(env, begun) == After(env, EMPTY, Event(q, 1));
    assert size(WriteJournal(j)) >= |j.detail|;
    UnreadableStays(env, begun, more);
    UnreadableIsFinal(env, Run(env, begun), Event(next, 0));
  }

  lemma DoubledIsNotClean()
    ensures !CleanTail(SAMPLE_DOUBLED, SAMPLE_ID, CONTEXT_NAME)
  {
    var tail := "/" + SAMPLE_ID + "/" + CONTEXT_NAME;
    assert SAMPLE_DOUBLED == "/r/" + tail;
    assert SAMPLE_DOUBLED[..|SAMPLE_DOUBLED| - |tail|] == "/r/";
    assert "/r/"[1] == 'r' && "/r/"[2] == SLASH;
    assert |SAMPLE_DOUBLED| == |SAMPLE_ID + "/" + CONTEXT_NAME| + 4;
  }

  lemma SampleIsValid(c: Context, size: Write -> nat)
    requires c.stateRoot == SAMPLE_ROOT && c.provenance.stateId == SAMPLE_ID
    requires c.sourceRenderSha256 != c.combinedRenderSha256 && c.noHosted && c.hostedLockSha256.None?
    requires c.subjects == ["backup-scheduler"]
    ensures forall path :: LoadContext(SampleEnv(c, size), path) == Success(c)
  {
    assert ReleaseIdentifier(SAMPLE_ID);
    StateIdHasNoSlash(SAMPLE_ID);
    assert SAMPLE_ROOT == "/r" + "/" + SAMPLE_ID;
    BasenameOfJoined("/r", SAMPLE_ID);
    assert SAMPLE_ROOT[|SAMPLE_ROOT| - 1] == SAMPLE_ID[|SAMPLE_ID| - 1];
  }

  // ---------------------------------------------------------------- one transaction at a time

  /** `t` has the pending transaction of `s`, possibly further on, or has just ended it. */
  ghost predicate Continues(s: Store, t: Store) {
    && s.journal.Some? && t.journal.Some?
    && t.journal.value.transactionId == s.journal.value.transactionId
    && t.journal.value.contextPath == s.journal.value.contextPath
    && t.journal.value.contextSha == s.journal.value.contextSha
    && t.journal.value.provenance == s.journal.value.provenance
  }

  /** A pending transaction is never replaced: every begin is refused, and only its own
      commit or recovery ends it. */
  lemma PendingIsNeverReplaced(env: Env, s: Store, e: Event)
    requires Inv(env, s) && s.journal.Some? && s.journal.value.state == Pending
    ensures e.request.Begin? ==> Effects(env, s, e.request).Failure?
    ensures Continues(s, After(env, s, e))
    ensures After(env, s, e).journal.value.state == Complete ==>
              && (e.request.Commit? || e.request.RecoverStop?)
              && e.request.transactionId == s.journal.value.transactionId && e.request.from == s.journal.value.phase
  {
    hide Inv, ValidPair, CommitEffects, RecoverEffects, Bound;
    AfterLands(env, s, e);
    var q := e.request;
    if Effects(env, s, q).Success? {
      if q.Commit? || q.RecoverStop? {
        AcceptedCommit(env, s, q);
      } else if q.Advance? {
        SingleWrite(env, s, q);
      }
    }
  }

  /** The transaction stays pending after each of the further events. */
  ghost predicate PendingThroughout(env: Env, events: seq<Event>, more: seq<Event>) {
    forall k :: 0 <= k <= |more| ==>
      var s := Run(env, events + more[..k]);
      s.journal.Some? && s.journal.value.state == Pending
  }

  /** Over runs: as long as something is pending it is one and the same transaction, with
      one and the same context. */
  lemma {:induction false} PendingRunIsOneTransaction(env: Env, events: seq<Event>, more: seq<Event>)
    requires PendingThroughout(env, events, more)
    ensures Continues(Run(env, events), Run(env, events + more))
    decreases |more|
  {
    hide Inv, After, Effects;
    assert more[..|more|] == more && events + more[..0] == events;
    if more == [] {
      assert events + more == events;
    } else {
      var n := |more| - 1;
      var before := events + more[..n];
      forall k | 0 <= k <= n
        ensures var s := Run(env, events + more[..n][..k]); s.journal.Some? && s.journal.value.state == Pending
      {
        assert more[..n][..k] == more[..k];
      }
      PendingRunIsOneTransaction(env, events, more[..n]);
      assert events + more == before + [more[n]];
      assert (before + [more[n]])[..|before|] == before;
      PairAlwaysValid(env, before);
      PendingIsNeverReplaced(env, Run(env, before), more[n]);
    }
  }

  // ---------------------------------------------------------------- phases

  predicate Accepted(env: Env, s: Store, e: Event) {
    Effects(env, s, e.request).Success? && e.landed > 0
  }

  /** Advances accepted since the last accepted begin. */
  function Advances(env: Env, events: seq<Event>): nat
    decreases |events|
  {
    if events == [] then 0
    else
      var before, e := events[..|events| - 1], events[|events| - 1];
      if !Accepted(env, Run(env, before), e) then Advances(env, before)
      else if e.request.Begin? then 0
      else if e.request.Advance? then Advances(env, before) + 1
      else Advances(env, before)
  }

  /** The phase of a pending transaction is counted by its advances, so no phase comes
      back, and the last phase is reached in exactly seven. */
  lemma {:induction false} PhaseCountsAdvances(env: Env, events: seq<Event>)
    ensures var s := Run(env, events);
      s.journal.Some? && s.journal.value.state == Pending ==>
        && Rank(s.journal.value.phase) == Advances(env, events) <= 7
        && (s.journal.value.phase == "postdeploy-verified" <==> Advances(env, events) == 7)
  {
    if events != [] {
      var before, e := events[..|events| - 1], events[|events| - 1];
      PhaseCountsAdvances(env, before);
      PhaseStep(env, Run(env, before), e, Advances(env, before));
    }
  }

  lemma IntentIsFirst()
    ensures Rank("intent") == 0
  {}

  lemma PhaseStep(env: Env, s: Store, e: Event, n: nat)
    requires s.journal.Some? && s.journal.value.state == Pending ==> Rank(s.journal.value.phase) == n <= 7
    ensures var t := After(env, s, e);
      t.journal.Some? && t.journal.value.state == Pending ==>
        var m := if !Accepted(env, s, e) then n
                 else if e.request.Begin? then 0 else if e.request.Advance? then n + 1 else n;
        && Rank(t.journal.value.phase) == m <= 7
        && (t.journal.value.phase == "postdeploy-verified" <==> m == 7)
  {
    hide ValidPair, CommitEffects, RecoverEffects, Bound, Rank, Transitions;
    assert Rank("intent") == 0 by { IntentIsFirst(); }
    AfterLands(env, s, e);
    var q := e.request;
    if s.journal.Some? && s.journal.value.state == Pending {
      PhasesEndAtPostdeploy(s.journal.value.phase);
    }
    if Effects(env, s, q).Success? {
      var ws := Effects(env, s, q).value;
      if q.Commit? || q.RecoverStop? {
        AcceptedCommit(env, s, q);
      } else if q.Begin? || q.Advance? {
        SingleWrite(env, s, q);
        ApplyTwo(s, ws[0], ws[0]);
        assert ws[..0] == [];
        if q.Advance? {
          TransitionsClimbByOne(q.from, q.next);
          PhasesEndAtPostdeploy(q.next);
        }
      }
    }
  }

  // ---------------------------------------------------------------- what a transaction replaces

  /** The digest that the last accepted begin expected. */
  function BegunAgainst(env: Env, events: seq<Event>): Digest
    decreases |events|
  {
    if events == [] then Text("")
    else
      var before, e := events[..|events| - 1], events[|events| - 1];
      if Accepted(env, Run(env, before), e) && e.request.Begin? then e.request.expectedPrevious
      else BegunAgainst(env, before)
  }

  /** No lost update: while a transaction is pending the receipt is still the one it was
      begun against, or already its own from a half commit. */
  lemma {:induction false} PendingReplacesWhatItExpected(env: Env, events: seq<Event>)
    ensures var s := Run(env, events);
      s.journal.Some? && s.journal.value.state == Pending ==>
        || PreviousSha(s) == BegunAgainst(env, events)
        || (s.active.Some? && s.active.value.contextSha == s.journal.value.contextSha)
  {
    if events != [] {
      var before, e := events[..|events| - 1], events[|events| - 1];
      PendingReplacesWhatItExpected(env, before);
      ReplacementStep(env, Run(env, before), e, BegunAgainst(env, before));
    }
  }

  lemma ReplacementStep(env: Env, s: Store, e: Event, expected: Digest)
    requires s.journal.Some? && s.journal.value.state == Pending ==>
               || PreviousSha(s) == expected
               || (s.active.Some? && s.active.value.contextSha == s.journal.value.contextSha)
    ensures var t := After(env, s, e);
      t.journal.Some? && t.journal.value.state == Pending ==>
        || PreviousSha(t) == (if Accepted(env, s, e) && e.request.Begin? then e.request.expectedPrevious else expected)
        || (t.active.Some? && t.active.value.contextSha == t.journal.value.contextSha)
  {
    hide ValidPair, CommitEffects, RecoverEffects, Bound, Transitions;
    AfterLands(env, s, e);
    var q := e.request;
    if Effects(env, s, q).Success? {
      var ws := Effects(env, s, q).value;
      if q.Commit? || q.RecoverStop? {
        AcceptedCommit(env, s, q);
      } else if q.Begin? || q.Advance? {
        SingleWrite(env, s, q);
        ApplyTwo(s, ws[0], ws[0]);
        assert ws[..0] == [];
      }
    }
  }

  /** A receipt claims no more than the context it names: a hosted one exactly the
      trusted subjects, a core-only one some of them, a stopped one nothing. */
  ghost predicate Honest(env: Env, r: Receipt) {
    var c := LoadContext(env, r.contextPath);
    && c.Success?
    && match r.state
       case Hosted =>
         !c.value.noHosted && r.serviceNames == c.value.subjects && r.lockSha256 == c.value.hostedLockSha256
       case NoHosted => r.serviceNames != [] && forall n :: n in r.serviceNames ==> n in c.value.subjects
       case Stopped =>
         && r.serviceNames == [] && r.containerReceipts == [] && r.networkReceipts == [] && r.volumeReceipts == []
         && r.modelSha256 == None
  }

  lemma CommitIsHonest(env: Env, s: Store, q: Request)
    requires (q.Commit? || q.RecoverStop?) && Effects(env, s, q).Success?
    ensures var ws := Effects(env, s, q).value; |ws| == 2 && ws[0].WriteActive? && Honest(env, ws[0].receipt)
  {
    hide ValidPair, SortedSet, ServiceName, ContextMatchesJournal, Derived, LoadContext;
    AcceptedCommit(env, s, q);
  }

  /** Whatever requests and crashes came before, the active receipt is honest. */
  lemma {:induction false} ActiveIsHonest(env: Env, events: seq<Event>)
    ensures Run(env, events).active.Some? ==> Honest(env, Run(env, events).active.value)
  {
    if events != [] {
      var before, e := events[..|events| - 1], events[|events| - 1];
      ActiveIsHonest(env, before);
      HonestStep(env, Run(env, before), e);
    }
  }

  lemma HonestStep(env: Env, s: Store, e: Event)
    requires s.active.Some? ==> Honest(env, s.active.value)
    ensures After(env, s, e).active.Some? ==> Honest(env, After(env, s, e).active.value)
  {
    hide Honest, ValidPair, BeginEffects, AdvanceEffects, CommitEffects, RecoverEffects;
    AfterLands(env, s, e);
    var q := e.request;
    if (q.Commit? || q.RecoverStop?) && Effects(env, s, q).Success? {
      CommitIsHonest(env, s, q);
    } else if (q.Begin? || q.Advance?) && Effects(env, s, q).Success? {
      SingleWrite(env, s, q);
    }
  }

  // ---------------------------------------------------------------- the supervisor

  /** The coordinator's directory and the atomic replacement of its files. */
  class Broker {
    const env: Env
    var journal: Option<Journal>
    var active: Option<Receipt>

    constructor (e: Env)
      ensures env == e && journal == None && active == None
    {
      env, journal, active := e, None, None;
    }

    /** atomic_write: the new file is in place before or after a crash, never partly. */
    method AtomicWrite(w: Write) returns (o: Outcome<BrokerError>)
      modifies this
      ensures Store(journal, active) == old(Store(journal, active))
           || Store(journal, active) == ApplyOne(old(Store(journal, active)), w)
      ensures o.Ok? ==> Store(journal, active) == ApplyOne(old(Store(journal, active)), w)
      ensures o.Raised? ==> o.error == InvalidState
    {
      var landed: bool := *;
      o := *;
      if o.Ok? || landed {
        match w {
          case WriteActive(r) => active := Some(r);
          case WriteJournal(j) => journal := Some(j);
        }
      }
      if o.Raised? { o := Raised(InvalidState); }
    }

    /** One request: it is refused without a write, or its writes land in order up to
        where the supervisor dies.  Either way this is one event of `Run`. */
    method Dispatch(q: Request) returns (o: Outcome<BrokerError>, landed: nat)
      modifies this
      ensures Store(journal, active) == After(env, old(Store(journal, active)), Event(q, landed))
      ensures var decision := Effects(env, old(Store(journal, active)), q);
        && (decision.Failure? ==> o == Raised(decision.error))
        && (o.Ok? ==> decision.Success? && landed == |decision.value|)
    {
      hide Effects, Apply;
      landed := 0;
      var s := Store(journal, active);
      var decision := Effects(env, s, q);
      if decision.Failure? { return Raised(decision.error), 0; }
      var ws := decision.value;
      assert ws[..|ws|] == ws;
      ApplyNone(s);
      o := Ok;
      while landed < |ws|
        invariant 0 <= landed <= |ws|
        invariant Store(journal, active) == Apply(s, ws[..landed]) && o.Ok?
      {
        ApplyMore(s, ws[..landed], ws[landed]);
        assert ws[..landed + 1] == ws[..landed] + [ws[landed]];
        var before := Store(journal, active);
        o := AtomicWrite(ws[landed]);
        if !o.Ok? {
          landed := if Store(journal, active) == before then landed else landed + 1;
          return;
        }
        landed := landed + 1;
      }
    }
  }

  lemma {:induction false} ApplyMore(s: Store, ws: seq<Write>, w: Write)
    ensures Apply(s, ws + [w]) == ApplyOne(Apply(s, ws), w)
    decreases |ws|
  {
    if ws == [] {
      assert [] + [w] == [w] && [w][1..] == [];
    } else {
      assert (ws + [w])[1..] == ws[1..] + [w];
      ApplyMore(ApplyOne(s, ws[0]), ws[1..], w);
    }
  }
}
