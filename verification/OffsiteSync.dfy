/**
 One publication: quota gate, multipart upload, receipt, retention.

 Every remote operation may complete, or fail with or without effect; an upload that
 fails may leave a shorter object under the name it was sent to.  `trace` records the
 namespace after each operation.
 */
module OffsiteSync {
  import opened Wrappers
  import opened OffsiteNames
  import opened OffsitePoints
  import opened OffsiteState
  import opened OffsiteRetention

  datatype SyncError =
    | RemoteFailed
    | NoOwnerMarker
    | ExcessiveInventory
    | ListingRefused
    | IdentityConflict
    | QuotaExceeded
    | EmptyBundle
    | ReceiptTooLarge

  type Ending = Outcome<SyncError>

  /** The longest listing that is read. */
  const MAX_OBJECTS: nat := 1024

  /** Fourteen days, in microseconds as all times here. */
  const RETENTION: nat := 14 * 86_400 * 1_000_000

  /** What the local capture proves about the bundle to publish. */
  datatype Proof = Proof(manifestId: string, createdAt: int)

  // ---------------------------------------------------------------- when a publication may go on

  /** An empty namespace is marked first. */
  function Marked(r: Remote, markSize: nat): Remote {
    if r == map[] then map[OWNER := OwnerMark(markSize)] else r
  }

  predicate OwnedHere(r: Remote, markSize: nat) {
    r == map[] || (OWNER in r && r[OWNER] == OwnerMark(markSize))
  }

  ghost predicate Knows(r: Remote, manifestId: string) {
    exists q: Point :: Lists(r, q) && q.manifestId == manifestId
  }

  ghost predicate Holds(r: Remote, manifestId: string, sha: Sha) {
    exists q: Point :: Lists(r, q) && q.manifestId == manifestId && q.encryptedSha == sha
  }

  ghost predicate Conflicts(r: Remote, manifestId: string, sha: Sha) {
    exists q: Point :: Lists(r, q) && q.manifestId == manifestId && q.encryptedSha != sha
  }

  ghost predicate Fits(r: Remote, data: seq<Byte>, cap: nat) {
    Total(r) + |data| + RECEIPT_RESERVE <= cap
  }

  /** Everything `sync_once` checks before it uploads, read off the namespace as found. */
  ghost predicate Admits(r: Remote, markSize: nat, data: seq<Byte>, proof: Proof, cap: nat) {
    && PointName(BundleName(proof.manifestId)) && data != []
    && |r| <= MAX_OBJECTS && OwnedHere(r, markSize)
    && Accepts(Marked(r, markSize)) && !Knows(Marked(r, markSize), proof.manifestId)
    && Fits(Marked(r, markSize), data, cap)
  }

  /** The listing after the publication, old points included, can no longer be read. */
  predicate Overfills(base: Remote, data: seq<Byte>) {
    |base| + |Chunks(data, PART)| + 1 > MAX_OBJECTS
  }

  /** A publication turned down before anything is uploaded, and why. */
  ghost predicate TurnedDown(e: SyncError, before: Remote, markSize: nat, data: seq<Byte>, proof: Proof, cap: nat) {
    var base := Marked(before, markSize);
    match e
    case NoOwnerMarker => !OwnedHere(before, markSize)
    case ExcessiveInventory => |before| > MAX_OBJECTS
    case ListingRefused => !PointName(BundleName(proof.manifestId)) || !Accepts(base)
    case IdentityConflict => Conflicts(base, proof.manifestId, Sha256(data))
    case QuotaExceeded => !Fits(base, data, cap)
    case EmptyBundle => data == []
    case _ => false
  }

  /** The new point stands complete beside all the old ones. */
  ghost predicate PublishedBeside(base: Remote, t: Remote, data: seq<Byte>, proof: Proof) {
    && (forall n :: n in base ==> n in t && t[n] == base[n])
    && |t| == |base| + |Chunks(data, PART)| + 1 && Accepts(t)
    && exists p: Point ::
         && p.manifestId == proof.manifestId && p.encryptedSha == Sha256(data) && Recoverable(t, p)
         && forall q: Point :: Lists(t, q) <==> Lists(base, q) || q == p
  }

  /** The new point is recoverable, `order` is the old points and it, newest first, and of
      these exactly it and the two newest inside the cutoff are left.  Whether no more than
      two are left can be read off the listing before. */
  ghost predicate Retained(base: Remote, t: Remote, order: seq<Point>, data: seq<Byte>, proof: Proof, cutoff: int) {
    && Descending(order) && BoundDecided(base, t, proof.createdAt, cutoff) && Accepts(t)
    && exists p: Point ::
         && p.manifestId == proof.manifestId && p.encryptedSha == Sha256(data) && Recoverable(t, p)
         && (forall q: Point :: q in order <==> Lists(base, q) || q == p)
         && (forall q: Point :: Lists(t, q) <==>
               exists i: nat :: i < |order| && order[i] == q && (q == p || (i < 2 && q.backupAt >= cutoff)))
  }

  /** The loop of `inventory`: one entry after the other, and no more than 1024. */
  method Collect(r: Remote) returns (complete: bool, listing: Remote)
    ensures complete <==> |r| <= MAX_OBJECTS
    ensures complete ==> listing == r
  {
    listing := map[];
    var left := r.Keys;
    NothingListed(r);
    while left != {}
      invariant Listed(r, listing, left) && |listing| <= MAX_OBJECTS
      decreases |left|
    {
      var n :| n in left;
      ListedNext(r, listing, left, n);
      if |listing| >= MAX_OBJECTS { return false, listing; }
      listing := listing[n := r[n]];
      left := left - {n};
    }
    complete := true;
  }

  /** All but `left` of the entries stand in the listing. */
  ghost predicate Listed(r: Remote, listing: Remote, left: set<string>) {
    && left <= r.Keys && listing == r - left && |listing| + |left| == |r|
  }

  lemma NothingListed(r: Remote)
    ensures Listed(r, map[], r.Keys)
  {}

  lemma ListedNext(r: Remote, listing: Remote, left: set<string>, n: string)
    requires Listed(r, listing, left) && n in left
    ensures n in r && Listed(r, listing[n := r[n]], left - {n})
    ensures |listing| + 1 <= |r|
  {
    assert listing[n := r[n]] == r - (left - {n});
  }

  lemma TurnedDownIsNotAdmitted(o: Ending, before: Remote, markSize: nat, data: seq<Byte>, proof: Proof, cap: nat)
    ensures o.Raised? && TurnedDown(o.error, before, markSize, data, proof, cap) ==>
              !Admits(before, markSize, data, proof, cap)
    ensures data == [] ==> TurnedDown(EmptyBundle, before, markSize, data, proof, cap)
  {
    hide Accepts, Lists, Fits, PointName;
  }

  class Namespace {
    /** The length of a receipt's canonical JSON, and of the owner marker's. */
    const receiptSize: Point -> nat
    const markSize: nat

    var files: Remote
    ghost var trace: seq<Remote>

    /** How many remote or local steps failed on their own. */
    ghost var faults: nat

    /** Anything but success has a step to blame that failed since then. */
    ghost predicate Blamed(o: Ending, before: nat)
      reads this`faults
    {
      before <= faults && (o.Ok? || before < faults)
    }

    // What the current publication started from, for which bundle, under which cap.
    ghost var base: Remote
    var bundleName: string
    ghost var limit: nat

    constructor (r: Remote, receiptSize: Point -> nat, markSize: nat)
      ensures files == r && trace == [r] && this.receiptSize == receiptSize && this.markSize == markSize
    {
      this.receiptSize, this.markSize := receiptSize, markSize;
      files, trace := r, [r];
      base, bundleName, limit, faults := r, "", 0, 0;
    }

    /** A receipt of at most seventy parts fits the reserve of the quota gate. */
    ghost predicate ReceiptsFit() {
      forall p: Point :: PointName(p.bundle) && |p.parts| <= MAX_PARTS ==> receiptSize(p) <= RECEIPT_RESERVE
    }

    /** Every state since the publication began is safe. */
    ghost predicate Tracked()
      reads this`files, this`trace, this`base, this`bundleName, this`limit
    {
      && |trace| > 0 && trace[|trace| - 1] == files
      && forall i :: 0 <= i < |trace| ==> SafeState(base, trace[i], bundleName, limit)
    }

    /** The preparation of a publication: only new names beside the old listing. */
    ghost predicate Preparing()
      reads this`files, this`trace, this`base, this`bundleName, this`limit
    {
      && Tracked() && Extends(base, files, bundleName) && Total(files) <= limit
      && forall n :: n in base ==> !NewName(bundleName, n)
    }

    // -------------------------------------------------------------- remote operations

    /** STOR of a new object: a failure may leave nothing, or a truncated object. */
    method Store(name: string, blob: Blob) returns (o: Ending)
      requires Preparing() && name !in files && NewName(bundleName, name) && Total(files) + Size(blob) <= limit
      modifies this`files, this`trace, this`faults
      ensures Preparing() && old(trace) <= trace
      ensures o.Ok? ==> files == old(files)[name := blob] && Total(files) == old(Total(files)) + Size(blob)
      ensures o.Raised? ==> o.error == RemoteFailed
      ensures Blamed(o, old(faults))
    {
      hide SafeState, NewName;
      var landed: bool := *;
      var length: int := *;
      o := *;
      faults := if o.Ok? then faults else faults + 1;
      if o.Ok? || landed {
        var put := if o.Ok? then blob else Other(if 0 <= length < Size(blob) then length else Size(blob));
        TotalWith(files, name, put);
        files := files[name := put];
        ExtendsIsSafe(base, files, bundleName, limit);
        trace := trace + [files];
      }
      if o.Raised? { o := Raised(RemoteFailed); }
    }

    /** RNFR/RNTO of a new object to its published name. */
    method Publish(a: string, b: string) returns (o: Ending)
      requires Preparing() && a in files && b !in files && a != b
      requires NewName(bundleName, a) && NewName(bundleName, b)
      modifies this`files, this`trace, this`faults
      ensures Preparing() && old(trace) <= trace
      ensures o.Ok? ==> files == (old(files) - {a})[b := old(files)[a]] && Total(files) == old(Total(files))
      ensures o.Raised? ==> o.error == RemoteFailed
      ensures Blamed(o, old(faults))
    {
      hide SafeState, NewName;
      var landed: bool := *;
      o := *;
      faults := if o.Ok? then faults else faults + 1;
      if o.Ok? || landed {
        TotalRenamed(files, a, b);
        files := (files - {a})[b := files[a]];
        ExtendsIsSafe(base, files, bundleName, limit);
        trace := trace + [files];
      }
      if o.Raised? { o := Raised(RemoteFailed); }
    }

    /** Downloads and local work: no effect on the namespace. */
    method External() returns (o: Ending)
      modifies this`faults
      ensures o.Raised? ==> o.error == RemoteFailed
      ensures Blamed(o, old(faults))
    {
      o := *;
      faults := if o.Ok? then faults else faults + 1;
      if o.Raised? { o := Raised(RemoteFailed); }
    }

    // -------------------------------------------------------------- multipart upload

    /** The inner loop: read blocks until the part is full or the bundle ends. */
    method ReadPart(data: seq<Byte>, start: nat) returns (chunk: seq<Byte>)
      requires start <= |data|
      ensures chunk == data[start..if start + PART < |data| then start + PART else |data|]
    {
      var remaining := PART;
      chunk := [];
      while remaining > 0
        invariant 0 <= remaining && remaining + |chunk| == PART && start + |chunk| <= |data|
        invariant chunk == data[start..start + |chunk|]
        decreases remaining
      {
        var want := if remaining < BLOCK then remaining else BLOCK;
        var at := start + |chunk|;
        var block := data[at..if at + want < |data| then at + want else |data|];
        if block == [] {
          assert start + |chunk| == |data|;
          return;
        }
        chunk := chunk + block;
        remaining := remaining - |block|;
      }
    }

    method UploadParts(data: seq<Byte>) returns (o: Ending, parts: seq<PartRecord>)
      requires Preparing() && files == base && Total(base) + |data| <= limit
      requires |Chunks(data, PART)| <= MAX_PARTS
      modifies this`files, this`trace, this`faults
      ensures Preparing() && old(trace) <= trace
      ensures o.Ok? ==> Uploaded(base, files, bundleName, Chunks(data, PART), |Chunks(data, PART)|)
      ensures o.Ok? ==> Total(files) == Total(base) + |data| && |files| == |base| + |parts|
      ensures o.Ok? ==> |parts| == |Chunks(data, PART)| && forall i :: 0 <= i < |parts| ==>
                var c := Chunks(data, PART)[i]; parts[i] == PartRecord(PartName(bundleName, i), |c|, Sha256(c))
      ensures o.Raised? ==> o.error == RemoteFailed
      ensures Blamed(o, old(faults))
    {
      hide Preparing, Extends, Uploaded, Tracked, PartName, PartialName, Chunks, Total;
      ghost var chunks := Chunks(data, PART);
      parts := [];
      var index, at := 0, 0;
      NothingUploaded(base, bundleName, chunks);
      while true
        invariant Preparing() && old(trace) <= trace && old(faults) <= faults
        invariant 0 <= index <= |chunks| && at <= |data| && index == |parts|
        invariant Chunks(data[at..], PART) == chunks[index..]
        invariant Uploaded(base, files, bundleName, chunks, index)
        invariant Total(files) == Total(base) + at && |files| == |base| + index
        invariant forall i :: 0 <= i < |parts| ==>
                    parts[i] == PartRecord(PartName(bundleName, i), |chunks[i]|, Sha256(chunks[i]))
        decreases |data| - at
      {
        var chunk := ReadPart(data, at);
        NextChunk(data, at, chunk, chunks, index);
        if chunk == [] { break; }
        o := UploadOne(index, chunk, chunks);
        if !o.Ok? { return; }
        parts := parts + [PartRecord(PartName(bundleName, index), |chunk|, Sha256(chunk))];
        index := index + 1;
        at := at + |chunk|;
      }
      o := Ok;
    }

    /** Upload under the partial name, download again, then publish the part. */
    method UploadOne(index: nat, chunk: seq<Byte>, ghost chunks: seq<seq<Byte>>) returns (o: Ending)
      requires Preparing() && index < |chunks| <= MAX_PARTS && chunk == chunks[index]
      requires Uploaded(base, files, bundleName, chunks, index)
      requires Total(files) + |chunk| <= limit
      modifies this`files, this`trace, this`faults
      ensures Preparing() && old(trace) <= trace
      ensures o.Ok? ==> Uploaded(base, files, bundleName, chunks, index + 1)
      ensures o.Ok? ==> Total(files) == old(Total(files)) + |chunk| && |files| == old(|files|) + 1
      ensures o.Raised? ==> o.error == RemoteFailed
      ensures Blamed(o, old(faults))
    {
      hide Extends, Uploaded, SafeState, NewName, PartName, PartialName;
      var name := PartName(bundleName, index);
      var partial := PartialName(name);
      ghost var before := files;
      NextPartIsFree(base, files, bundleName, chunks, index);
      o := Store(partial, Data(chunk));
      if !o.Ok? { return; }
      o := External(); // read the upload back and compare
      if !o.Ok? { return; }
      o := Publish(partial, name);
      if !o.Ok? { return; }
      StoredThenNamed(before, partial, name, Data(chunk));
      UploadNext(base, before, bundleName, chunks, index);
    }

    // -------------------------------------------------------------- receipt

    /** The receipt goes up last, under a partial name first. */
    method PublishReceipt(p: Point, data: seq<Byte>) returns (o: Ending)
      requires Preparing() && ReceiptsFit() && Accepts(base) && PointName(bundleName)
      requires 1 <= |Chunks(data, PART)| <= MAX_PARTS
      requires Uploaded(base, files, bundleName, Chunks(data, PART), |Chunks(data, PART)|)
      requires Total(files) + RECEIPT_RESERVE <= limit
      requires p.bundle == bundleName && p.ours && p.current && p.downloadVerified
      requires Describes(p, Chunks(data, PART)) && p.encryptedSha == Sha256(data)
      modifies this`files, this`trace, this`faults
      ensures Preparing() && old(trace) <= trace
      ensures o.Ok? ==> Recoverable(files, p) && Accepts(files) && |files| == old(|files|) + 1
      ensures o.Ok? ==> forall q: Point :: Lists(files, q) <==> Lists(base, q) || q == p
      ensures o.Raised? ==> o.error == RemoteFailed
      ensures Blamed(o, old(faults))
    {
      hide Tracked, Extends, Uploaded, Accepts, Lists, Recoverable, Describes, PointName;
      hide ReceiptName, PartialName, NewName, Chunks;
      var name := ReceiptName(p.bundle);
      var partial := PartialName(name);
      var blob := Receipt(p, true, receiptSize(p));
      ghost var chunks := Chunks(data, PART);
      ghost var before := files;
      ReceiptIsFree(base, files, bundleName, chunks, |chunks|);
      ReceiptNamesAreNew(bundleName);
      DescribedParts(p, chunks);
      o := Store(partial, blob);
      if !o.Ok? { return; }
      o := External(); // read the document back
      if !o.Ok? { return; }
      if receiptSize(p) > RECEIPT_RESERVE { return Raised(ReceiptTooLarge); }
      o := Publish(partial, name);
      if !o.Ok? { return; }
      StoredThenNamed(before, partial, name, blob);
      ReceiptCompletes(base, before, p, data, receiptSize(p));
      o := External(); // authenticate the published receipt, record it locally
    }

    /** `inventory`: the listing, unless it has more than 1024 objects. */
    method Inventory() returns (o: Ending, listing: Remote)
      modifies this`faults
      ensures o.Ok? ==> listing == files && |files| <= MAX_OBJECTS
      ensures o.Raised? ==> o.error == RemoteFailed || o.error == ExcessiveInventory
      ensures o == Raised(ExcessiveInventory) ==> |files| > MAX_OBJECTS
      ensures old(faults) <= faults && (Blamed(o, old(faults)) || o == Raised(ExcessiveInventory))
    {
      listing := map[];
      o := External(); // MLSD
      if !o.Ok? { return; }
      var complete;
      complete, listing := Collect(files);
      if !complete { o := Raised(ExcessiveInventory); }
    }

    /** `points(f, inventory(f))`, on a fresh listing; the reading itself may fail. */
    method ReadListing() returns (o: Ending, result: seq<Point>)
      modifies this`faults
      ensures o.Ok? ==> |files| <= MAX_OBJECTS
      ensures o.Ok? ==> Accepts(files) && forall p :: p in result <==> Lists(files, p)
      ensures o.Ok? ==> forall i, j :: 0 <= i < j < |result| ==> result[i].bundle != result[j].bundle
      ensures o.Raised? ==> o.error in {RemoteFailed, ListingRefused, ExcessiveInventory}
      ensures o == Raised(ListingRefused) ==> !Accepts(files)
      ensures o == Raised(ExcessiveInventory) ==> |files| > MAX_OBJECTS
      ensures || Blamed(o, old(faults))
              || (old(faults) <= faults && (o == Raised(ListingRefused) || o == Raised(ExcessiveInventory)))
    {
      hide Accepts, Lists;
      var listing;
      result := [];
      o, listing := Inventory();
      if !o.Ok? { return; }
      var read;
      var unfetched: set<string> := *;
      faults := if unfetched == {} then faults else faults + 1;
      read, result := ReadPoints(listing, unfetched);
      o := if read.Ok? then Ok else if read.Crashed? then Crashed
           else Raised(if read.error == Refused then ListingRefused else RemoteFailed);
    }

    // -------------------------------------------------------------- retention

    /** DELE. */
    method Delete(n: string) returns (o: Ending)
      requires Tracked() && n in files && SafeState(base, files - {n}, bundleName, limit)
      modifies this`files, this`trace, this`faults
      ensures Tracked() && old(trace) <= trace
      ensures o.Ok? ==> files == old(files) - {n}
      ensures o.Raised? ==> o.error == RemoteFailed
      ensures Blamed(o, old(faults))
    {
      var landed: bool := *;
      o := *;
      faults := if o.Ok? then faults else faults + 1;
      if o.Ok? || landed {
        files := files - {n};
        trace := trace + [files];
      }
      if o.Raised? { o := Raised(RemoteFailed); }
    }

    /** The listing right after publication, from which retention removes whole points. */
    ghost predicate FullListing(full: Remote, p: Point)
      reads this`files, this`trace, this`base, this`bundleName, this`limit
    {
      && p.bundle == bundleName && Recoverable(full, p) && Total(full) <= limit
      && (forall n :: n in base ==> n in full && full[n] == base[n])
      && (forall q: Point :: Lists(full, q) <==> Lists(base, q) || q == p)
    }

    method DropPoint(ghost full: Remote, p: Point, order: seq<Point>, k: nat, cutoff: int) returns (o: Ending)
      requires Tracked() && FullListing(full, p) && OrderOf(full, order)
      requires Swept(full, files, order, k, bundleName, cutoff) && Dropped(order, k, bundleName, cutoff)
      modifies this`files, this`trace, this`faults
      ensures Tracked() && old(trace) <= trace
      ensures o.Ok? ==> Swept(full, files, order, k + 1, bundleName, cutoff)
      ensures o.Raised? ==> o.error == RemoteFailed
      ensures Blamed(o, old(faults))
    {
      hide SafeState, Recoverable, Swept, SweptParts, OrderOf, Trimmed, ReceiptName;
      var j := 0;
      PartsStart(full, files, order, k, bundleName, cutoff);
      while j < |order[k].parts|
        invariant 0 <= j <= |order[k].parts|
        invariant Tracked() && old(trace) <= trace && old(faults) <= faults
        invariant SweptParts(full, files, order, k, j, bundleName, cutoff)
      {
        var n := order[k].parts[j].name;
        NextPartToDrop(full, files, order, k, j, bundleName, cutoff);
        SweptPartsIsTrimmed(full, files - {n}, order, k, j + 1, bundleName, cutoff);
        TrimmedIsSafe(base, full, files - {n}, p, limit);
        o := Delete(n);
        if !o.Ok? { return; }
        j := j + 1;
      }
      var receipt := ReceiptName(order[k].bundle);
      LastNameToDrop(full, files, order, k, bundleName, cutoff);
      TrimmedIsSafe(base, full, files - {receipt}, p, limit);
      o := Delete(receipt);
    }

    /** Keep the new point and those of the two newest inside the cutoff; drop the rest. */
    method Retain(p: Point, cutoff: int) returns (o: Ending, order: seq<Point>)
      requires Tracked() && FullListing(files, p) && Accepts(files)
      modifies this`files, this`trace, this`faults
      ensures Tracked() && old(trace) <= trace
      ensures o.Ok? ==> Descending(order) && OrderOf(old(files), order)
      ensures o.Ok? ==> Accepts(files) && Recoverable(files, p)
      ensures o.Ok? ==> forall q: Point :: Lists(files, q) <==>
                exists i: nat :: i < |order| && order[i] == q && !Dropped(order, i, bundleName, cutoff)
      // Without a failing step it succeeds exactly on a listing that can be read.
      ensures o.Ok? ==> |old(files)| <= MAX_OBJECTS
      ensures || Blamed(o, old(faults))
              || (o == Raised(ExcessiveInventory) && |files| > MAX_OBJECTS && files == old(files)
                    && old(faults) <= faults)
      ensures o.Raised? ==> o.error == RemoteFailed || o.error == ExcessiveInventory
    {
      hide SafeState, Recoverable, Accepts, Lists, Swept, Dropped, InsertByTime, NewestFirst;
      ghost var full := files;
      var existing;
      order := [];
      o, existing := ReadListing();
      if !o.Ok? { return; }
      order := NewestFirst(existing);
      NewestFirstSorts(existing);
      DistinctBundlesSurvive(existing, order);
      NothingSwept(full, order, bundleName, cutoff);
      var i := 0;
      while i < |order|
        invariant 0 <= i <= |order|
        invariant Tracked() && old(trace) <= trace && old(faults) <= faults
        invariant Swept(full, files, order, i, bundleName, cutoff)
      {
        if Dropped(order, i, bundleName, cutoff) {
          o := DropPoint(full, p, order, i, cutoff);
          if !o.Ok? { return; }
        } else {
          SweptKept(full, files, order, i, bundleName, cutoff);
        }
        i := i + 1;
      }
      SweptListing(full, files, order, bundleName, cutoff);
      SweptIsTrimmed(full, files, order, i, bundleName, cutoff);
      TrimmedIsSafe(base, full, files, p, limit);
      TrimmedIsShorter(full, files, bundleName);
      o, existing := ReadListing(); // remaining_points
      if !o.Ok? { return; }
      o := External(); // catalog, local retention, combined total
    }

    // -------------------------------------------------------------- one publication

    /** `ownership`: an empty namespace gets the marker, any other must show it. */
    method CheckOwner() returns (o: Ending)
      requires trace == [files]
      modifies this`files, this`trace, this`faults
      ensures old(trace) <= trace && trace[|trace| - 1] == files
      ensures forall i :: 0 <= i < |trace| ==>
                trace[i] == old(files) || (old(files) == map[] && trace[i].Keys == {OWNER})
      ensures o.Ok? ==> files == Marked(old(files), markSize) && OwnedHere(old(files), markSize)
      ensures old(files) != map[] ==> files == old(files)
      ensures o.Raised? ==> o.error == RemoteFailed || o.error == NoOwnerMarker
      ensures o == Raised(NoOwnerMarker) ==> files == old(files)
      ensures || Blamed(o, old(faults))
              || (o == Raised(NoOwnerMarker) && !OwnedHere(old(files), markSize) && old(faults) <= faults)
    {
      if OWNER !in files {
        if files != map[] { return Raised(NoOwnerMarker); }
        var landed: bool := *;
        o := *;
        faults := if o.Ok? then faults else faults + 1;
        if o.Ok? || landed {
          files := map[OWNER := if o.Ok? then OwnerMark(markSize) else Other(0)];
          trace := trace + [files];
        }
        if o.Raised? { o := Raised(RemoteFailed); }
      } else if files[OWNER] != OwnerMark(markSize) {
        o := Raised(NoOwnerMarker);
      } else {
        o := Ok;
      }
    }

    /** Where the namespace stood before this publication put anything of its own there. */
    ghost predicate OutsideRun(before: Remote, t: Remote) {
      t == before || (before == map[] && t.Keys == {OWNER})
    }

    /** `sync_once` under a lease that grants `cap` bytes.  None: already published. */
    method SyncOnce(data: seq<Byte>, proof: Proof, cap: nat, now: int) returns (o: Ending, report: Option<seq<Point>>)
      requires ReceiptsFit() && cap <= LIMIT && BoundToManifests(files)
      modifies this
      ensures base == Marked(old(files), markSize)
      ensures forall i :: 0 <= i < |trace| ==>
                OutsideRun(old(files), trace[i]) || SafeState(base, trace[i], BundleName(proof.manifestId), cap)
      ensures |trace| > 0 && trace[0] == old(files) && trace[|trace| - 1] == files
      ensures o.Ok? && report.None? ==> files == base && Holds(files, proof.manifestId, Sha256(data))
      ensures o.Ok? && report.Some? ==> Retained(base, files, report.value, data, proof, now - RETENTION)
      // Without a failing step it succeeds, or refuses with nothing published for the reason
      // it gives, or publishes into a listing that is then too long for its own retention.
      ensures || Blamed(o, old(faults))
              || (o.Raised? && TurnedDown(o.error, old(files), markSize, data, proof, cap)
                    && (files == old(files) || files == base))
              || (o == Raised(ExcessiveInventory) && Overfills(base, data)
                    && PublishedBeside(base, files, data, proof))
      // So without a failing step it publishes and retains exactly when this was so before.
      ensures faults == old(faults) ==>
                ((o.Ok? && report.Some?) <==>
                  Admits(old(files), markSize, data, proof, cap) && !Overfills(base, data))
      // From a listing that is too long nothing is ever published, and nothing changes.
      ensures |old(files)| > MAX_OBJECTS ==> !o.Ok? && files == old(files)
    {
      hide SafeState, Accepts, BundleName, Preparing, Retained, Knows, Holds;
      hide Admits, TurnedDown, Overfills, PublishedBeside, OutsideRun;
      report := None;
      bundleName := BundleName(proof.manifestId);
      trace, base, limit := [files], Marked(files, markSize), cap;
      ghost var before := files;
      var known;
      o, known := Gate(data, proof, cap);
      TurnedDownIsNotAdmitted(o, before, markSize, data, proof, cap);
      if !o.Ok? || known { return; }
      MarkedIsBound(before, markSize);
      ghost var head := trace;
      trace := [files];
      ReadyToPrepare(proof.manifestId);
      var order;
      o, order := PublishAndRetain(data, proof, now);
      trace := head + trace;
      report := Some(order);
    }

    /** From the connection to the quota gate: nothing of the publication is written yet. */
    method Gate(data: seq<Byte>, proof: Proof, cap: nat) returns (o: Ending, known: bool)
      requires trace == [files]
      modifies this`files, this`trace, this`faults
      ensures old(trace) <= trace && trace[|trace| - 1] == files
      ensures forall i :: 0 <= i < |trace| ==> OutsideRun(old(files), trace[i])
      ensures o.Ok? ==> files == Marked(old(files), markSize) && |old(files)| <= MAX_OBJECTS
      ensures o.Ok? && known ==>
                && Holds(files, proof.manifestId, Sha256(data))
                && !Admits(old(files), markSize, data, proof, cap)
      ensures o.Ok? && !known ==>
                && PointName(BundleName(proof.manifestId)) && Accepts(files)
                && !Knows(files, proof.manifestId) && Fits(files, data, cap)
                && (data != [] <==> Admits(old(files), markSize, data, proof, cap))
      ensures || Blamed(o, old(faults))
              || (o.Raised? && TurnedDown(o.error, old(files), markSize, data, proof, cap)
                    && (files == old(files) || files == Marked(old(files), markSize)) && old(faults) <= faults)
      ensures |old(files)| > MAX_OBJECTS ==> files == old(files)
    {
      hide Accepts, Lists, BundleName, PointName, Conflicts, Knows, Holds, Fits;
      known := false;
      if !PointName(BundleName(proof.manifestId)) { return Raised(ListingRefused), false; }
      var listing;
      o, listing := Inventory();
      if !o.Ok? { return; }
      o := CheckOwner();
      if !o.Ok? { return; }
      o, known := Preflight(data, proof, cap);
    }

    lemma ReadyToPrepare(manifestId: string)
      requires files == base && trace == [files] && bundleName == BundleName(manifestId)
      requires Total(files) <= limit
      requires Accepts(files) && BoundToManifests(files) && !Knows(files, manifestId)
      ensures Preparing()
    {
      NewNamesAreFree(base, manifestId);
      ExtendsIsSafe(base, files, bundleName, limit);
    }

    /** The listing again, and what `sync_once` checks before it uploads anything. */
    method Preflight(data: seq<Byte>, proof: Proof, cap: nat) returns (o: Ending, known: bool)
      modifies this`faults
      ensures o.Ok? && known ==>
                Knows(files, proof.manifestId) && Holds(files, proof.manifestId, Sha256(data))
      ensures o.Ok? && !known ==> Accepts(files) && !Knows(files, proof.manifestId) && Fits(files, data, cap)
      ensures o.Ok? ==> |files| <= MAX_OBJECTS
      ensures || Blamed(o, old(faults))
              || (old(faults) <= faults && o.Raised? &&
                    match o.error
                    case ExcessiveInventory => |files| > MAX_OBJECTS
                    case ListingRefused => !Accepts(files)
                    case IdentityConflict =>
                      Knows(files, proof.manifestId) && Conflicts(files, proof.manifestId, Sha256(data))
                    case QuotaExceeded => !Fits(files, data, cap)
                    case _ => false)
    {
      hide Accepts, Lists;
      known := false;
      var prior;
      o, prior := ReadListing();
      if !o.Ok? { return; }
      if exists q :: q in prior && q.manifestId == proof.manifestId {
        var q :| q in prior && q.manifestId == proof.manifestId;
        if q.encryptedSha != Sha256(data) { return Raised(IdentityConflict), false; }
        return Ok, true;
      }
      var used := ListingBytes(files);
      if used + |data| + RECEIPT_RESERVE > cap { return Raised(QuotaExceeded), false; }
      o := Ok;
    }

    /** From the first part to the published receipt. */
    method PublishPoint(data: seq<Byte>, proof: Proof) returns (o: Ending, p: Point)
      requires Preparing() && files == base && ReceiptsFit() && Accepts(base) && PointName(bundleName)
      requires Fits(base, data, limit) && limit <= LIMIT
      modifies this`files, this`trace, this`faults
      ensures Tracked() && old(trace) <= trace
      ensures p.manifestId == proof.manifestId && p.encryptedSha == Sha256(data) && p.backupAt == proof.createdAt
      ensures o.Ok? ==> data != [] && FullListing(files, p) && Accepts(files)
      ensures o.Ok? ==> |files| == |base| + |Chunks(data, PART)| + 1
      ensures || Blamed(o, old(faults))
              || (o == Raised(EmptyBundle) && data == [] && files == base && old(faults) <= faults)
    {
      hide SafeState, Extends, Accepts, Lists, Recoverable, PointName, Uploaded, ReceiptsFit, Tracked;
      p := Point(proof.manifestId, bundleName, proof.createdAt, Sha256(data), [], true, true, true);
      var parts;
      GateBoundsParts(data, Total(base), limit);
      ChunkSizes(data, PART);
      o, parts := UploadParts(data);
      if !o.Ok? { return; }
      o := External(); // download everything, compare, decrypt, verify the bundle
      if !o.Ok? { return; }
      if data == [] { // nothing decrypts to a bundle
        NoneUploaded(base, files, bundleName);
        return Raised(EmptyBundle), p;
      }
      p := p.(parts := parts);
      o := PublishReceipt(p, data);
      if !o.Ok? { return; }
      ExtendsKeeps(base, files, bundleName);
    }

    /** Everything after the quota gate. */
    method PublishAndRetain(data: seq<Byte>, proof: Proof, now: int) returns (o: Ending, order: seq<Point>)
      requires Preparing() && files == base && ReceiptsFit() && Accepts(base) && PointName(bundleName)
      requires Fits(base, data, limit) && limit <= LIMIT
      modifies this`files, this`trace, this`faults
      ensures Tracked()
      ensures o.Ok? ==> Retained(base, files, order, data, proof, now - RETENTION)
      ensures o.Ok? ==> data != [] && !Overfills(base, data)
      ensures || Blamed(o, old(faults))
              || (o == Raised(EmptyBundle) && data == [] && files == base && old(faults) <= faults)
              || (o == Raised(ExcessiveInventory) && Overfills(base, data)
                    && PublishedBeside(base, files, data, proof) && old(faults) <= faults)
    {
      hide Accepts, Lists, Recoverable, PointName, ReceiptsFit, Tracked, Preparing, BoundDecided, Descending, Fits;
      order := [];
      var p;
      o, p := PublishPoint(data, proof);
      if !o.Ok? { return; }
      ghost var full := files;
      o, order := Retain(p, now - RETENTION);
      if !o.Ok? { return; }
      KeptExactly(full, p, order, now - RETENTION);
      BoundIsDecided(base, files, p, order, now - RETENTION);
    }

    /** `sum(listing.values())`. */
    method ListingBytes(r: Remote) returns (n: nat)
      ensures n == Total(r)
    {
      n := 0;
      var left := r;
      while left != map[]
        invariant n + Total(left) == Total(r)
        decreases |left|
      {
        var k :| k in left;
        TotalWithout(left, k);
        n := n + Size(left[k]);
        left := left - {k};
      }
    }
  }

  /** The receipt beside its parts completes the publication. */
  lemma ReceiptCompletes(base: Remote, t: Remote, p: Point, data: seq<Byte>, size: nat)
    requires Accepts(base) && 1 <= |Chunks(data, PART)| <= MAX_PARTS
    requires Uploaded(base, t, p.bundle, Chunks(data, PART), |Chunks(data, PART)|) && ReceiptName(p.bundle) !in t
    requires Describes(p, Chunks(data, PART)) && p.encryptedSha == Sha256(data)
    requires p.ours && p.current && p.downloadVerified && PointName(p.bundle)
    ensures var u := t[ReceiptName(p.bundle) := Receipt(p, true, size)];
            && Recoverable(u, p) && Accepts(u)
            && forall q: Point :: Lists(u, q) <==> Lists(base, q) || q == p
  {
    hide Uploaded, Accepts, Lists, Recoverable, PointName, ReceiptName, Chunks;
    var u := t[ReceiptName(p.bundle) := Receipt(p, true, size)];
    PublishedIsRecoverable(base, t, p, Chunks(data, PART), data, size);
    RecoverableIsListed(u, p);
    PublishedIsAccepted(base, t, u, p, Chunks(data, PART));
  }

  lemma ReceiptNamesAreNew(b: string)
    ensures NewName(b, ReceiptName(b)) && NewName(b, PartialName(ReceiptName(b)))
  {}

  lemma DescribedParts(p: Point, chunks: seq<seq<Byte>>)
    requires Describes(p, chunks)
    ensures |p.parts| == |chunks|
  {}

  lemma RecoverableIsListed(r: Remote, p: Point)
    requires Recoverable(r, p)
    ensures Lists(r, p)
  {}

  lemma StoredThenNamed(before: Remote, partial: string, name: string, blob: Blob)
    requires partial !in before && name !in before && partial != name
    ensures var stored := before[partial := blob]; (stored - {partial})[name := stored[partial]] == before[name := blob]
    ensures |before[name := blob]| == |before| + 1
  {
    assert before[partial := blob] - {partial} == before;
  }

  lemma TrimmedIsShorter(full: Remote, t: Remote, b: string)
    requires Trimmed(full, t, b)
    ensures |t| <= |full|
  {
    FewerInside(t.Keys, full.Keys);
  }

  lemma {:induction false} FewerInside(a: set<string>, b: set<string>)
    requires a <= b
    ensures |a| <= |b|
  {
    assert b == a + (b - a);
  }

  lemma NothingSwept(full: Remote, order: seq<Point>, b: string, cutoff: int)
    ensures Swept(full, full, order, 0, b, cutoff)
  {}

  lemma ExtendsKeeps(base: Remote, t: Remote, b: string)
    requires Extends(base, t, b)
    ensures forall n :: n in base ==> n in t && t[n] == base[n]
  {}

  lemma MarkedIsBound(before: Remote, markSize: nat)
    requires BoundToManifests(before)
    ensures BoundToManifests(if before == map[] then map[OWNER := OwnerMark(markSize)] else before)
  {}

  lemma NothingUploaded(base: Remote, b: string, chunks: seq<seq<Byte>>)
    ensures Uploaded(base, base, b, chunks, 0)
  {}

  lemma NoneUploaded(base: Remote, t: Remote, b: string)
    requires Uploaded(base, t, b, Chunks([], PART), |Chunks([], PART)|)
    ensures t == base
  {
    assert t.Keys == base.Keys;
  }

  /** Reading on from `at` gives the next of the chunks, or nothing after the last. */
  lemma NextChunk(data: seq<Byte>, at: nat, chunk: seq<Byte>, chunks: seq<seq<Byte>>, index: nat)
    requires at <= |data| && index <= |chunks|
    requires chunk == data[at..if at + PART < |data| then at + PART else |data|]
    requires Chunks(data[at..], PART) == chunks[index..]
    ensures chunk == [] <==> index == |chunks|
    ensures chunk != [] ==>
              && index < |chunks| && chunk == chunks[index] && at + |chunk| <= |data|
              && Chunks(data[at + |chunk|..], PART) == chunks[index + 1..]
  {
    var rest := data[at..];
    if rest != [] {
      if |rest| > PART {
        assert rest[..PART] == chunk && rest[PART..] == data[at + PART..];
        assert Chunks(rest, PART) == [chunk] + Chunks(rest[PART..], PART);
      } else {
        assert chunk == rest && data[at + |chunk|..] == [];
        assert Chunks(rest, PART) == [chunk];
      }
      assert chunks[index..][0] == chunks[index] && chunks[index..][1..] == chunks[index + 1..];
    }
  }
}
