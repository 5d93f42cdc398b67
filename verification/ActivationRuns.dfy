/**
 Which requests the activation broker accepts, what they write, and that a transaction
 gets through.

 Each condition is stated on the fields of request, journal and context, beside the
 functions that decide; the last lemma runs a hosted transaction from its begin to its
 commit.
 */
module ActivationRuns {
  import opened Wrappers
  import opened PosixPaths
  import opened Texts
  import opened ActivationBroker

  // ---------------------------------------------------------------- conditions on fields

  const CAPITALS := "ABCDEFGHIJKLMNOPQRSTUVWXYZ"

  /** A lower-case letter or digit, then such or one of the three signs, 128 at most. */
  ghost predicate IsServiceText(s: string) {
    && 1 <= |s| <= 128 && (s[0] in LETTERS || s[0] in DIGITS)
    && forall c :: c in s ==> c in LETTERS || c in DIGITS || c == '_' || c == '.' || c == '-'
  }

  lemma ServiceNameMeans(s: string)
    ensures ServiceName(s) <==> IsServiceText(s)
  {
    forall c ensures AlphaNumeric(c) <==> c in LETTERS || c in DIGITS {
      AlphaNumericMeans(c);
    }
    hide AlphaNumeric;
    if |s| > 0 { assert s[0] in s; }
    if ServiceName(s) {
      forall c | c in s ensures c in LETTERS || c in DIGITS || c == '_' || c == '.' || c == '-' {
        var k :| 0 <= k < |s| && s[k] == c;
      }
    }
  }

  /** A letter of either case or a digit, then such or one of the four signs, 8 to 255. */
  ghost predicate IsStateText(s: string) {
    && 8 <= |s| <= 255 && (s[0] in LETTERS || s[0] in CAPITALS || s[0] in DIGITS)
    && forall c :: c in s ==> StateChar(c)
  }

  lemma CapitalMeans(c: char)
    ensures c in CAPITALS <==> 'A' <= c <= 'Z'
  {
    if 'A' <= c <= 'Z' {
      assert CAPITALS[(c - 'A') as int] == c;
    }
  }

  lemma LetterOrDigitMeans(c: char)
    ensures Letter(c) <==> c in LETTERS || c in CAPITALS || c in DIGITS
  {
    LetterMeans(c);
    CapitalMeans(c);
    DigitMeans(c);
  }

  ghost predicate StateChar(c: char) {
    c in LETTERS || c in CAPITALS || c in DIGITS || c == '.' || c == '_' || c == ':' || c == '-'
  }

  lemma StateCharMeans(c: char)
    ensures StateChar(c) <==> Letter(c) || c in "._:-"
  {
    LetterOrDigitMeans(c);
    assert "._:-"[0] == '.' && "._:-"[1] == '_' && "._:-"[2] == ':' && "._:-"[3] == '-';
  }

  lemma ReleaseIdentifierMeans(s: string)
    ensures ReleaseIdentifier(s) <==> IsStateText(s)
  {
    hide Letter, StateChar;
    forall k | 0 <= k < |s| ensures StateChar(s[k]) <==> Letter(s[k]) || s[k] in "._:-" {
      StateCharMeans(s[k]);
    }
    if |s| > 0 { LetterOrDigitMeans(s[0]); }
    if ReleaseIdentifier(s) {
      forall c | c in s ensures StateChar(c) {
        var k :| 0 <= k < |s| && s[k] == c;
      }
    }
    if IsStateText(s) {
      forall k | 0 <= k < |s| ensures StateChar(s[k]) {
        assert s[k] in s;
      }
    }
  }

  /** In rising order without repeats. */
  ghost predicate Rising(names: seq<string>) {
    forall i, k :: 0 <= i < k < |names| ==> Lexicographic(names[i], names[k])
  }

  lemma {:induction false} SortedSetRises(names: seq<string>, i: nat, k: nat)
    requires SortedSet(names) && i < k < |names|
    ensures Lexicographic(names[i], names[k])
    decreases k
  {
    hide Lexicographic;
    if i + 1 < k {
      SortedSetRises(names, i, k - 1);
      LexicographicIsTransitive(names[i], names[k - 1], names[k]);
    }
  }

  lemma SortedSetMeans(names: seq<string>)
    ensures SortedSet(names) <==> Rising(names)
  {
    hide Lexicographic;
    if SortedSet(names) {
      forall i, k | 0 <= i < k < |names| ensures Lexicographic(names[i], names[k]) {
        SortedSetRises(names, i, k);
      }
    }
  }

  /** The retained context that a path leads to, wherever the path is written from: it
      names its own place, its state directory and its services. */
  ghost predicate Trusted(env: Env, path: string, c: Context) {
    var place := env.abspath(path);
    && place in env.contexts && env.contexts[place] == c
    && place == c.stateRoot + "/trusted-release-context.json"
    && EndsInDirectory(c.stateRoot, c.provenance.stateId) && IsStateText(c.provenance.stateId)
    && c.sourceRenderSha256 != c.combinedRenderSha256
    && (c.noHosted <==> c.hostedLockSha256 == None)
    && Rising(c.subjects) && (forall n :: n in c.subjects ==> IsServiceText(n)) && "backup-scheduler" in c.subjects
  }

  ghost predicate EndsInDirectory(root: string, name: string) {
    root == name || exists parent: string :: root == parent + "/" + name
  }

  lemma BasenameMeans(root: string, name: string)
    requires name != [] && NoSlash(name)
    ensures Basename(root) == name <==> EndsInDirectory(root, name)
  {
    if Basename(root) == name {
      var i := AfterLastSlash(root);
      assert root == root[..i] + root[i..];
      if i > 0 {
        assert root[..i] == root[..i - 1] + "/";
        assert root == root[..i - 1] + "/" + name;
      }
    }
    if root == name {
      BasenameOfBare(name);
    } else if EndsInDirectory(root, name) {
      var parent: string :| root == parent + "/" + name;
      BasenameOfJoined(parent, name);
    }
  }

  lemma BasenameOfBare(name: string)
    requires NoSlash(name)
    ensures Basename(name) == name
  {
    var i := AfterLastSlash(name);
    assert i == 0;
  }

  lemma TrustedMeans(env: Env, path: string)
    ensures forall c :: Trusted(env, path, c) <==> LoadContext(env, path) == Success(c)
  {
    hide Rising, SortedSet, ServiceName, IsServiceText, EndsInDirectory, Basename, ReleaseIdentifier, IsStateText;
    forall n ensures ServiceName(n) <==> IsServiceText(n) { ServiceNameMeans(n); }
    forall c ensures Trusted(env, path, c) <==> LoadContext(env, path) == Success(c) {
      ReleaseIdentifierMeans(c.provenance.stateId);
      if ReleaseIdentifier(c.provenance.stateId) {
        StateIdHasNoSlash(c.provenance.stateId);
        BasenameMeans(c.stateRoot, c.provenance.stateId);
        PlaceOfRoot(c.stateRoot, c.provenance.stateId);
      }
      SortedSetMeans(c.subjects);
    }
  }

  lemma PlaceOfRoot(root: string, name: string)
    requires name != [] && NoSlash(name)
    ensures EndsInDirectory(root, name) ==> Join(root, CONTEXT_NAME) == root + "/trusted-release-context.json"
  {
    if EndsInDirectory(root, name) {
      assert root[|root| - 1] == name[|name| - 1];
    }
  }

  // ---------------------------------------------------------------- the pair on disk

  /** A journal of a transaction, a receipt of the trusted context it names, and, once the
      journal is complete, the receipt that the journal vouches for. */
  ghost predicate IsSound(env: Env, s: Store) {
    && (s.journal != None ==>
          var j := s.journal.value;
          IsDigestText(j.transactionId) && (j.targetState == "hosted" || j.targetState == "no-hosted"))
    && (s.active != None ==>
          var r := s.active.value;
          && Rising(r.serviceNames)
          && exists c :: Trusted(env, r.contextPath, c) && r.provenance == c.provenance && r.contextSha == OfContext(c))
    && (s.journal != None && s.journal.value.state == Complete ==>
          && s.active != None && s.journal.value.activeReceiptSha256 == Some(OfReceipt(s.active.value))
          && s.journal.value.actualState == Some(s.active.value.state))
  }

  lemma ValidPairMeans(env: Env, s: Store)
    ensures ValidPair(env, s) <==> IsSound(env, s)
  {
    if s.journal.Some? { Hex64Means(s.journal.value.transactionId); }
    if s.active.Some? {
      SortedSetMeans(s.active.value.serviceNames);
      TrustedMeans(env, s.active.value.contextPath);
    }
    hide Trusted, LoadContext, Rising, SortedSet, Hex64, IsDigestText;
  }

  /** Whatever the files hold, requests are answered only over a readable, sound pair, and
      such a pair is always answered for. */
  lemma OnlySoundPairsAreServed(env: Env, s: Store, q: Request)
    ensures Effects(env, s, q).Success? ==> Readable(env, s) && IsSound(env, s)
    ensures q == Snapshot || q == Ping ==> (Effects(env, s, q).Success? <==> Readable(env, s) && IsSound(env, s))
  {
    ValidPairMeans(env, s);
    hide IsSound, ValidPair, Readable, BeginEffects, AdvanceEffects, CommitEffects, RecoverEffects;
  }

  /** After every run the pair is sound. */
  lemma RunIsSound(env: Env, events: seq<Event>)
    ensures IsSound(env, Run(env, events))
  {
    PairAlwaysValid(env, events);
    ValidPairMeans(env, Run(env, events));
  }

  function OptionalText(s: string): Option<string> {
    if s == "" then None else Some(s)
  }

  ghost predicate IsPending(s: Store) {
    s.journal.Some? && s.journal.value.state == Pending
  }

  // ---------------------------------------------------------------- begin

  /** What `begin` asks for. */
  ghost predicate BeginMeets(env: Env, s: Store, q: Request, c: Context)
    requires q.Begin?
  {
    && IsDigestText(q.transactionId) && !IsPending(s)
    && Trusted(env, q.contextPath, c)
    && (|| (q.targetState == "hosted" && c.hostedLockSha256 != None)
        || (q.targetState == "no-hosted" && c.hostedLockSha256 == None))
    && q.expectedPrevious == if s.active == None then Text("") else s.active.value.contextSha
  }

  /** A begin is accepted exactly when some context meets it, and writes its journal. */
  lemma BeginIsAcceptedIff(env: Env, s: Store, q: Request)
    requires Inv(env, s) && Readable(env, s) && q.Begin?
    ensures Effects(env, s, q).Success? <==> exists c :: BeginMeets(env, s, q, c)
    ensures forall c :: BeginMeets(env, s, q, c) ==>
              Effects(env, s, q) == Success([WriteJournal(Journal(
                Pending, q.transactionId, "intent", q.detail, q.daemonId, OfContext(c), q.contextPath, c.provenance,
                q.targetState, None, OptionalText(q.lockPath), OptionalText(q.previousLockPath), None))])
  {
    hide Trusted, LoadContext, ValidPair, Readable, IsDigestText, Hex64;
    Hex64Means(q.transactionId);
    TrustedMeans(env, q.contextPath);
    InvIsValid(env, s);
    hide Inv;
    if Effects(env, s, q).Success? {
      var c := LoadContext(env, q.contextPath).value;
      assert Trusted(env, q.contextPath, c);
      TrustedIsOne(env, q.contextPath, c);
      assert BeginMeets(env, s, q, c);
    }
    forall c | BeginMeets(env, s, q, c)
      ensures Effects(env, s, q) == Success([WriteJournal(Journal(
                Pending, q.transactionId, "intent", q.detail, q.daemonId, OfContext(c), q.contextPath, c.provenance,
                q.targetState, None, OptionalText(q.lockPath), OptionalText(q.previousLockPath), None))])
    {
      TrustedIsOne(env, q.contextPath, c);
    }
  }

  lemma TrustedIsOne(env: Env, path: string, c: Context)
    requires Trusted(env, path, c)
    ensures c.noHosted <==> c.hostedLockSha256 == None
    ensures forall d :: Trusted(env, path, d) ==> d == c
  {}

  // ---------------------------------------------------------------- advance

  /** The phases in their order; two of them stand side by side. */
  const PHASES: seq<set<string>> := [
    {"intent"}, {"core-validated"}, {"quiesced"}, {"creating"}, {"created"},
    {"firewall-active", "firewall-inactive"}, {"runtime-verified"}, {"postdeploy-verified"}]

  ghost predicate Follows(from: string, next: string) {
    exists k :: 0 <= k < 7 && from in PHASES[k] && next in PHASES[k + 1]
  }

  lemma FollowsMeans(from: string, next: string)
    ensures next in Transitions(from) <==> Follows(from, next)
  {
    assert PHASES[0] == {"intent"} && PHASES[1] == {"core-validated"} && PHASES[2] == {"quiesced"};
    assert PHASES[3] == {"creating"} && PHASES[4] == {"created"};
    assert PHASES[5] == {"firewall-active", "firewall-inactive"};
    assert PHASES[6] == {"runtime-verified"} && PHASES[7] == {"postdeploy-verified"};
  }

  /** The pending journal, by its identifier and phase. */
  ghost predicate IsSelected(s: Store, transactionId: string, from: string) {
    IsPending(s) && s.journal.value.transactionId == transactionId && s.journal.value.phase == from
  }

  /** An advance is accepted exactly from the phase the journal is in to a following one. */
  lemma AdvanceIsAcceptedIff(env: Env, s: Store, q: Request)
    requires Inv(env, s) && Readable(env, s) && q.Advance?
    ensures Effects(env, s, q).Success? <==> IsSelected(s, q.transactionId, q.from) && Follows(q.from, q.next)
    ensures IsSelected(s, q.transactionId, q.from) && Follows(q.from, q.next) ==>
              Effects(env, s, q) == Success([WriteJournal(s.journal.value.(phase := q.next, detail := q.detail))])
  {
    hide Follows, Transitions, ValidPair, Readable;
    FollowsMeans(q.from, q.next);
    InvIsValid(env, s);
    hide Inv;
  }

  // ---------------------------------------------------------------- commit

  /** The evidence proves the claimed state of the services of the context. */
  ghost predicate Proves(env: Env, c: Context, state: string, e: Evidence) {
    || (state == "hosted" && c.hostedLockSha256 != None && e.serviceNames == c.subjects)
    || (state == "no-hosted" && c.releaseRoot in env.noHostedLocks && e.serviceNames != []
          && forall n :: n in e.serviceNames ==> n in c.subjects)
    || (state == "stopped" && e.serviceNames == [] && e.containerReceipts == [] && e.networkReceipts == []
          && e.volumeReceipts == [])
  }

  /** What `commit` asks for, beside the selection of the pending journal. */
  ghost predicate CommitMeets(env: Env, s: Store, q: Request, c: Context)
    requires q.Commit?
  {
    && IsSelected(s, q.transactionId, q.from)
    && q.contextPath == s.journal.value.contextPath && Trusted(env, q.contextPath, c)
    && q.evidence != None
    && Rising(q.evidence.value.serviceNames) && (forall n :: n in q.evidence.value.serviceNames ==> IsServiceText(n))
    && (q.modelSha == "" || q.actualState == "stopped" || IsDigestText(q.modelSha))
    && Proves(env, c, q.actualState, q.evidence.value)
  }

  /** The receipt of a committed state: whose locks and which rendering it vouches for. */
  ghost predicate Vouches(env: Env, c: Context, q: Request, r: Receipt)
    requires q.Commit? && q.evidence != None
  {
    var e := q.evidence.value;
    && r.daemonId == q.daemonId && r.contextPath == q.contextPath && r.contextSha == OfContext(c)
    && r.provenance == c.provenance && r.lockPath == OptionalText(q.lockPath)
    && r.coreRenderSha256 == c.sourceRenderSha256
    && r.serviceNames == e.serviceNames && r.containerReceipts == e.containerReceipts
    && r.networkReceipts == e.networkReceipts && r.volumeReceipts == e.volumeReceipts
    && match r.state
       case Hosted =>
         && q.actualState == "hosted" && r.lockSha256 == c.hostedLockSha256
         && r.combinedRenderSha256 == c.combinedRenderSha256 && r.modelSha256 == OptionalText(q.modelSha)
       case NoHosted =>
         && q.actualState == "no-hosted" && c.releaseRoot in env.noHostedLocks
         && r.lockSha256 == Some(env.noHostedLocks[c.releaseRoot])
         && r.combinedRenderSha256 == (if c.noHosted then c.combinedRenderSha256 else c.sourceRenderSha256)
         && r.modelSha256 == OptionalText(q.modelSha)
       case Stopped =>
         && q.actualState == "stopped" && r.lockSha256 == c.hostedLockSha256
         && r.combinedRenderSha256 == c.combinedRenderSha256 && r.modelSha256 == None
  }

  /** The two writes of a commit: the receipt, then the journal that it completes. */
  ghost predicate Completes(env: Env, j: Journal, c: Context, q: Request, ws: seq<Write>)
    requires q.Commit? && q.evidence != None
  {
    && |ws| == 2 && ws[0].WriteActive? && Vouches(env, c, q, ws[0].receipt)
    && ws[1] == WriteJournal(j.(
         state := Complete, phase := "complete", detail := q.detail,
         actualState := Some(ws[0].receipt.state), activeReceiptSha256 := Some(OfReceipt(ws[0].receipt))))
  }

  /** A commit is accepted exactly when the trusted context of the pending journal and the
      evidence meet it; then it completes the journal with the receipt it asked for. */
  lemma CommitIsAcceptedIff(env: Env, s: Store, q: Request)
    requires Inv(env, s) && Readable(env, s) && q.Commit?
    ensures Effects(env, s, q).Success? <==> exists c :: CommitMeets(env, s, q, c)
    ensures forall c :: CommitMeets(env, s, q, c) ==>
              && Effects(env, s, q).Success?
              && Completes(env, s.journal.value, c, q, Effects(env, s, q).value)
  {
    TrustedMeans(env, q.contextPath);
    hide Trusted, LoadContext, Readable, Hex64, IsDigestText, Rising, SortedSet, ServiceName, IsServiceText;
    InvIsValid(env, s);
    PendingContext(env, s);
    EvidenceMeans(q);
    hide Inv, ValidPair, CommitMeets, Completes, CommitEffects;
    if Effects(env, s, q).Success? {
      var c := LoadContext(env, q.contextPath).value;
      assert Trusted(env, q.contextPath, c);
      AcceptedMeets(env, s, q, c);
    }
    forall c | CommitMeets(env, s, q, c)
      ensures Effects(env, s, q).Success? && Completes(env, s.journal.value, c, q, Effects(env, s, q).value)
    {
      MeetingIsAccepted(env, s, q, c);
    }
  }

  /** The pending journal is of the context that its path leads to. */
  lemma PendingContext(env: Env, s: Store)
    requires Inv(env, s)
    ensures s.journal.Some? ==>
              var j := s.journal.value;
              && LoadContext(env, j.contextPath).Success?
              && ContextMatchesJournal(LoadContext(env, j.contextPath).value, j.contextPath, j)
    ensures s.journal.Some? ==> Hex64(s.journal.value.transactionId) && ValidJournal(s.journal.value)
  {
    hide LoadContext;
  }

  lemma EvidenceMeans(q: Request)
    requires q.Commit?
    ensures q.evidence.Some? ==> (SortedSet(q.evidence.value.serviceNames) <==> Rising(q.evidence.value.serviceNames))
    ensures Hex64(q.modelSha) <==> IsDigestText(q.modelSha)
    ensures forall n :: ServiceName(n) <==> IsServiceText(n)
  {
    forall n ensures ServiceName(n) <==> IsServiceText(n) { ServiceNameMeans(n); }
    Hex64Means(q.modelSha);
    if q.evidence.Some? { SortedSetMeans(q.evidence.value.serviceNames); }
  }

  function Made(env: Env, c: Context, q: Request): Result<Receipt, BrokerError>
    requires q.Commit? && q.evidence.Some?
  {
    ReceiptFromCommit(env, c, q.contextPath, q.daemonId, q.actualState, Optional(q.lockPath), Optional(q.modelSha),
                      q.evidence.value)
  }

  lemma MadeIsProven(env: Env, c: Context, q: Request)
    requires q.Commit? && q.evidence.Some? && Made(env, c, q).Success?
    requires c.noHosted <==> c.hostedLockSha256 == None
    ensures Proves(env, c, q.actualState, q.evidence.value)
    ensures q.modelSha == "" || q.actualState == "stopped" || Hex64(q.modelSha)
  {
    hide Hex64;
  }

  lemma AcceptedIsMade(env: Env, s: Store, q: Request, c: Context)
    requires q.Commit? && CommitEffects(env, s, q).Success? && LoadContext(env, q.contextPath) == Success(c)
    ensures IsSelected(s, q.transactionId, q.from) && q.contextPath == s.journal.value.contextPath
    ensures q.evidence.Some? && Made(env, c, q).Success? && SortedSet(q.evidence.value.serviceNames)
    ensures forall n :: n in q.evidence.value.serviceNames ==> ServiceName(n)
  {
    hide LoadContext, Hex64, SortedSet, ServiceName, ReceiptFromCommit;
  }

  lemma AcceptedMeets(env: Env, s: Store, q: Request, c: Context)
    requires q.Commit? && CommitEffects(env, s, q).Success? && LoadContext(env, q.contextPath) == Success(c)
    requires Trusted(env, q.contextPath, c)
    ensures CommitMeets(env, s, q, c)
  {
    EvidenceMeans(q);
    TrustedIsOne(env, q.contextPath, c);
    hide Trusted, LoadContext, Hex64, IsDigestText, Rising, SortedSet, ServiceName, IsServiceText;
    hide CommitEffects, Made, Proves;
    AcceptedIsMade(env, s, q, c);
    MadeIsProven(env, c, q);
  }

  lemma ProvenIsMade(env: Env, c: Context, q: Request)
    requires q.Commit? && q.evidence.Some? && Proves(env, c, q.actualState, q.evidence.value)
    requires c.noHosted <==> c.hostedLockSha256 == None
    requires q.modelSha == "" || q.actualState == "stopped" || Hex64(q.modelSha)
    ensures Made(env, c, q).Success? && Vouches(env, c, q, Made(env, c, q).value)
  {
    hide Hex64;
  }

  lemma MadeIsCommitted(env: Env, s: Store, q: Request, c: Context, r: Receipt)
    requires ValidPair(env, s) && Readable(env, s) && q.Commit? && q.evidence.Some?
    requires IsSelected(s, q.transactionId, q.from)
    requires LoadContext(env, q.contextPath) == Success(c)
    requires ContextMatchesJournal(c, q.contextPath, s.journal.value) && ValidJournal(s.journal.value)
    requires SortedSet(q.evidence.value.serviceNames)
    requires forall n :: n in q.evidence.value.serviceNames ==> ServiceName(n)
    requires Made(env, c, q) == Success(r) && r.serviceNames == q.evidence.value.serviceNames
    ensures Effects(env, s, q) == Success([WriteActive(r), WriteJournal(Completed(s.journal.value, r, q.detail))])
  {
    hide LoadContext, SortedSet, ServiceName, Readable, ValidPair, ReceiptFromCommit, ContextMatchesJournal, Hex64;
  }

  lemma VouchedNames(env: Env, c: Context, q: Request, r: Receipt)
    requires q.Commit? && q.evidence != None && Vouches(env, c, q, r)
    ensures r.serviceNames == q.evidence.value.serviceNames
  {}

  lemma VouchedCompletes(env: Env, j: Journal, c: Context, q: Request, r: Receipt)
    requires q.Commit? && q.evidence != None && Vouches(env, c, q, r)
    ensures Completes(env, j, c, q, [WriteActive(r), WriteJournal(Completed(j, r, q.detail))])
  {
    hide Vouches;
  }

  lemma MeetingIsAccepted(env: Env, s: Store, q: Request, c: Context)
    requires q.Commit? && CommitMeets(env, s, q, c)
    requires ValidPair(env, s) && Readable(env, s)
    requires LoadContext(env, q.contextPath) == Success(c)
    requires ContextMatchesJournal(c, q.contextPath, s.journal.value) && ValidJournal(s.journal.value)
    ensures Effects(env, s, q).Success? && Completes(env, s.journal.value, c, q, Effects(env, s, q).value)
  {
    EvidenceMeans(q);
    TrustedIsOne(env, q.contextPath, c);
    hide Trusted, LoadContext, Hex64, IsDigestText, Rising, SortedSet, ServiceName, IsServiceText, Readable, ValidPair;
    hide ReceiptFromCommit, ContextMatchesJournal, Effects, Proves, Made, ValidJournal, Completes, Vouches;
    ProvenIsMade(env, c, q);
    var r := Made(env, c, q).value;
    VouchedNames(env, c, q, r);
    MadeIsCommitted(env, s, q, c, r);
    VouchedCompletes(env, s.journal.value, c, q, r);
  }

  // ---------------------------------------------------------------- recover-stop

  /** A recovery is accepted exactly on the recorded path, when that has a clean tail; it
      records a stop by the recovering daemon under the lock of the journal. */
  lemma RecoveryIsAcceptedIff(env: Env, s: Store, q: Request)
    requires Inv(env, s) && Readable(env, s) && q.RecoverStop?
    ensures Effects(env, s, q).Success? <==>
              && IsSelected(s, q.transactionId, q.from) && q.contextPath == s.journal.value.contextPath
              && CleanTail(q.contextPath, s.journal.value.provenance.stateId, CONTEXT_NAME)
    ensures Effects(env, s, q).Success? ==>
              exists c :: Trusted(env, q.contextPath, c) && RecordsStop(s.journal.value, c, q, Effects(env, s, q).value)
  {
    hide CleanTail, Derived, RecordsStop, RecoverEffects, Trusted, LoadContext;
    TrustedMeans(env, q.contextPath);
    InvIsValid(env, s);
    PendingContext(env, s);
    if IsPending(s) {
      var j := s.journal.value;
      RecordedIdHasNoSlash(env, s);
      DerivedIffCleanTail(j.contextPath, j.provenance.stateId, CONTEXT_NAME);
    }
    RecoveryWrites(env, s, q);
  }

  lemma RecordedIdHasNoSlash(env: Env, s: Store)
    requires Inv(env, s) && s.journal.Some?
    ensures var id := s.journal.value.provenance.stateId;
            id != [] && NoSlash(id) && NoSlash(CONTEXT_NAME) && CONTEXT_NAME != []
  {
    StateIdHasNoSlash(s.journal.value.provenance.stateId);
  }

  /** A stop by the recovering daemon: under the lock of the journal, claiming nothing. */
  function StopReceipt(c: Context, q: Request, lockPath: Option<string>): Receipt
    requires q.RecoverStop?
  {
    Receipt(Stopped, q.daemonId, OfContext(c), q.contextPath, c.provenance, lockPath, c.hostedLockSha256,
            c.sourceRenderSha256, c.combinedRenderSha256, None, [], [], [], [])
  }

  ghost predicate RecordsStop(j: Journal, c: Context, q: Request, ws: seq<Write>)
    requires q.RecoverStop?
  {
    var r := StopReceipt(c, q, j.lockPath);
    ws == [WriteActive(r), WriteJournal(j.(
             state := Complete, phase := "complete", detail := q.detail,
             actualState := Some(Stopped), activeReceiptSha256 := Some(OfReceipt(r))))]
  }

  lemma StopIsMade(env: Env, c: Context, q: Request, lockPath: Option<string>)
    requires q.RecoverStop?
    ensures ReceiptFromCommit(env, c, q.contextPath, q.daemonId, "stopped", lockPath, None, Evidence([], [], [], []))
            == Success(StopReceipt(c, q, lockPath))
  {}

  lemma StopIsCommitted(env: Env, s: Store, q: Request, c: Context, r: Receipt)
    requires ValidPair(env, s) && Readable(env, s) && q.RecoverStop? && IsSelected(s, q.transactionId, q.from)
    requires LoadContext(env, q.contextPath) == Success(c) && q.contextPath == RecoveryPath(s.journal.value)
    requires ContextMatchesJournal(c, q.contextPath, s.journal.value) && ValidJournal(s.journal.value)
    requires ReceiptFromCommit(env, c, q.contextPath, q.daemonId, "stopped", s.journal.value.lockPath, None,
                               Evidence([], [], [], [])) == Success(r)
    requires ValidActive(r)
    ensures Effects(env, s, q) == Success([WriteActive(r), WriteJournal(Completed(s.journal.value, r, q.detail))])
  {
    hide LoadContext, Readable, ValidPair, ReceiptFromCommit, ContextMatchesJournal, Hex64, RecoveryPath, ValidActive;
  }

  lemma StopIsWritten(env: Env, s: Store, q: Request, c: Context)
    requires ValidPair(env, s) && Readable(env, s) && q.RecoverStop? && IsSelected(s, q.transactionId, q.from)
    requires LoadContext(env, q.contextPath) == Success(c) && q.contextPath == RecoveryPath(s.journal.value)
    requires ContextMatchesJournal(c, q.contextPath, s.journal.value) && ValidJournal(s.journal.value)
    ensures Effects(env, s, q).Success? && RecordsStop(s.journal.value, c, q, Effects(env, s, q).value)
  {
    hide LoadContext, Readable, ValidPair, ReceiptFromCommit, ContextMatchesJournal, RecoveryPath, Effects;
    hide ValidJournal;
    StopIsMade(env, c, q, s.journal.value.lockPath);
    StopIsCommitted(env, s, q, c, StopReceipt(c, q, s.journal.value.lockPath));
  }

  lemma RecoverySelects(env: Env, s: Store, q: Request)
    requires q.RecoverStop? && Effects(env, s, q).Success?
    ensures IsSelected(s, q.transactionId, q.from) && q.contextPath == s.journal.value.contextPath
    ensures q.contextPath == RecoveryPath(s.journal.value)
  {
    hide LoadContext, Readable, ValidPair, ReceiptFromCommit, Hex64, RecoveryPath;
  }

  lemma RecoveryWrites(env: Env, s: Store, q: Request)
    requires Inv(env, s) && ValidPair(env, s) && Readable(env, s) && q.RecoverStop?
    ensures Effects(env, s, q).Success? <==>
              && IsSelected(s, q.transactionId, q.from) && q.contextPath == s.journal.value.contextPath
              && RecoveryPath(s.journal.value) == s.journal.value.contextPath
    ensures Effects(env, s, q).Success? ==>
              exists c :: Trusted(env, q.contextPath, c) && RecordsStop(s.journal.value, c, q, Effects(env, s, q).value)
  {
    TrustedMeans(env, q.contextPath);
    PendingContext(env, s);
    hide Trusted, LoadContext, RecoveryPath, ValidPair, Readable, Inv, Effects, RecordsStop, ValidJournal;
    if Effects(env, s, q).Success? {
      RecoverySelects(env, s, q);
    }
    if IsSelected(s, q.transactionId, q.from) && q.contextPath == s.journal.value.contextPath
       && RecoveryPath(s.journal.value) == s.journal.value.contextPath
    {
      var c := LoadContext(env, q.contextPath).value;
      StopIsWritten(env, s, q, c);
      assert Trusted(env, q.contextPath, c);
    }
  }

  // ---------------------------------------------------------------- a transaction gets through

  /** The eight phases on the way, through one of the two firewall phases. */
  function Route(firewall: string): seq<string> {
    ["intent", "core-validated", "quiesced", "creating", "created", firewall, "runtime-verified",
     "postdeploy-verified"]
  }

  lemma RouteFollows(firewall: string, k: nat)
    requires (firewall == "firewall-active" || firewall == "firewall-inactive") && k < 7
    ensures Follows(Route(firewall)[k], Route(firewall)[k + 1])
  {
    assert PHASES[0] == {"intent"} && PHASES[1] == {"core-validated"} && PHASES[2] == {"quiesced"};
    assert PHASES[3] == {"creating"} && PHASES[4] == {"created"};
    assert PHASES[5] == {"firewall-active", "firewall-inactive"};
    assert PHASES[6] == {"runtime-verified"} && PHASES[7] == {"postdeploy-verified"};
    assert Route(firewall)[k] in PHASES[k] && Route(firewall)[k + 1] in PHASES[k + 1];
  }

  function Step(b: Request, details: seq<string>, firewall: string, k: nat): Event
    requires b.Begin? && k < 7 == |details|
  {
    Event(Advance(b.transactionId, Route(firewall)[k], Route(firewall)[k + 1], details[k]), 1)
  }

  /** A begin and the first `n` advances after it. */
  function Course(b: Request, details: seq<string>, firewall: string, n: nat): (events: seq<Event>)
    requires b.Begin? && n <= 7 == |details|
    ensures |events| == n + 1
  {
    if n == 0 then [Event(b, 1)] else Course(b, details, firewall, n - 1) + [Step(b, details, firewall, n - 1)]
  }

  /** Every document of the course can be read back. */
  ghost predicate AllReadable(env: Env, events: seq<Event>, b: Request, details: seq<string>, firewall: string)
    requires b.Begin? && |details| == 7
  {
    && Readable(env, Run(env, events))
    && forall n: nat :: n <= 7 ==> Readable(env, Run(env, events + Course(b, details, firewall, n)))
  }

  ghost predicate OnCourse(s: Store, t: Store, b: Request, c: Context, firewall: string, n: nat)
    requires b.Begin? && n <= 7
  {
    && t.active == s.active && t.journal.Some?
    && t.journal.value == JournalForContext(c, b).(phase := Route(firewall)[n], detail := t.journal.value.detail)
  }

  lemma RunOfMore(env: Env, events: seq<Event>, more: seq<Event>, e: Event)
    ensures Run(env, events + (more + [e])) == After(env, Run(env, events + more), e)
  {
    var all := events + (more + [e]);
    assert all[..|all| - 1] == events + more && all[|all| - 1] == e;
  }

  lemma OneWriteLands(env: Env, s: Store, e: Event, j: Journal)
    requires Effects(env, s, e.request) == Success([WriteJournal(j)]) && e.landed == 1
    ensures After(env, s, e) == s.(journal := Some(j))
  {
    hide Effects;
    ApplyTwo(s, WriteJournal(j), WriteJournal(j));
  }

  lemma {:induction false} CourseAdvances(env: Env, events: seq<Event>, b: Request, c: Context, details: seq<string>,
                                          firewall: string, n: nat)
    requires b.Begin? && n <= 7 == |details| && BeginMeets(env, Run(env, events), b, c)
    requires firewall == "firewall-active" || firewall == "firewall-inactive"
    requires AllReadable(env, events, b, details, firewall)
    ensures OnCourse(Run(env, events), Run(env, events + Course(b, details, firewall, n)), b, c, firewall, n)
  {
    hide Effects, Run, After, Inv, Readable, BeginMeets, Follows;
    var s := Run(env, events);
    PairAlwaysValid(env, events);
    if n == 0 {
      BeginIsAcceptedIff(env, s, b);
      RunOfMore(env, events, [], Event(b, 1));
      assert events + [] == events && [] + [Event(b, 1)] == [Event(b, 1)];
      OneWriteLands(env, s, Event(b, 1), JournalForContext(c, b));
    } else {
      CourseAdvances(env, events, b, c, details, firewall, n - 1);
      var before := Course(b, details, firewall, n - 1);
      var e := Step(b, details, firewall, n - 1);
      var t := Run(env, events + before);
      PairAlwaysValid(env, events + before);
      RouteFollows(firewall, n - 1);
      AdvanceIsAcceptedIff(env, t, e.request);
      RunOfMore(env, events, before, e);
      OneWriteLands(env, t, e, t.journal.value.(phase := e.request.next, detail := e.request.detail));
    }
  }

  /** From an accepted begin of a hosted release, its seven advances and the commit of
      its trusted services reach a complete pair of the hosted state, whatever requests and
      crashes came before. */
  lemma HostedRunCompletes(env: Env, events: seq<Event>, b: Request, c: Context, details: seq<string>,
                           firewall: string, q: Request)
    requires b.Begin? && |details| == 7 && b.targetState == "hosted" && BeginMeets(env, Run(env, events), b, c)
    requires firewall == "firewall-active" || firewall == "firewall-inactive"
    requires AllReadable(env, events, b, details, firewall)
    requires q.Commit? && q.transactionId == b.transactionId && q.from == "postdeploy-verified"
    requires q.contextPath == b.contextPath && q.actualState == "hosted" && IsDigestText(q.modelSha)
    requires q.evidence != None && q.evidence.value.serviceNames == c.subjects
    ensures var t := Run(env, events + (Course(b, details, firewall, 7) + [Event(q, 2)]));
            && t.journal.Some? && t.active.Some?
            && t.journal.value.transactionId == b.transactionId && t.journal.value.state == Complete
            && t.journal.value.actualState == Some(Hosted) && t.active.value.state == Hosted
            && t.journal.value.activeReceiptSha256 == Some(OfReceipt(t.active.value))
            && t.active.value.serviceNames == c.subjects && t.active.value.lockSha256 == c.hostedLockSha256
            && t.active.value.modelSha256 == Some(q.modelSha)
  {
    hide Effects, Run, After, Inv, Readable, IsDigestText, Trusted, Rising, IsServiceText, Route, OnCourse;
    var course := Course(b, details, firewall, 7);
    var s := Run(env, events + course);
    CourseAdvances(env, events, b, c, details, firewall, 7);
    AtTheEnd(Run(env, events), s, b, c, firewall);
    TrustedSubjects(env, b.contextPath, c);
    DigestIsSomething(q.modelSha);
    assert CommitMeets(env, s, q, c);
    PairAlwaysValid(env, events + course);
    CommitIsAcceptedIff(env, s, q);
    RunOfMore(env, events, course, Event(q, 2));
    TwoWritesLand(env, s, q, c);
  }

  lemma AtTheEnd(s: Store, t: Store, b: Request, c: Context, firewall: string)
    requires b.Begin? && OnCourse(s, t, b, c, firewall, 7)
    ensures IsSelected(t, b.transactionId, "postdeploy-verified") && t.journal.value.contextPath == b.contextPath
  {}

  lemma TrustedSubjects(env: Env, path: string, c: Context)
    requires Trusted(env, path, c)
    ensures Rising(c.subjects) && forall n :: n in c.subjects ==> IsServiceText(n)
    ensures c.noHosted <==> c.hostedLockSha256 == None
  {}

  lemma DigestIsSomething(s: string)
    requires IsDigestText(s)
    ensures s != ""
  {}

  lemma TwoWritesLand(env: Env, s: Store, q: Request, c: Context)
    requires q.Commit? && q.evidence != None && s.journal.Some? && Effects(env, s, q).Success?
    requires Completes(env, s.journal.value, c, q, Effects(env, s, q).value)
    ensures var ws, t := Effects(env, s, q).value, After(env, s, Event(q, 2));
            t == Store(Some(ws[1].journal), Some(ws[0].receipt))
  {
    hide Effects, Vouches, Apply;
    var ws := Effects(env, s, q).value;
    assert ws == [ws[0], ws[1]];
    ApplyTwo(s, ws[0], ws[1]);
  }
}
