/**
 The remote namespace during one publication: which states it passes through, and
 what each of them keeps of the points that were there before.
 */
module OffsiteState {
  import opened OffsiteNames
  import opened OffsitePoints
  import opened Sequences

  /** A name that publishing bundle `b` may create. */
  ghost predicate NewName(b: string, n: string) {
    || n == ReceiptName(b) || n == PartialName(ReceiptName(b))
    || exists i: nat :: i < MAX_PARTS && (n == PartName(b, i) || n == PartialName(PartName(b, i)))
  }

  /** Nothing of `base` is touched, and only names of the new bundle are added. */
  ghost predicate Extends(base: Remote, t: Remote, b: string) {
    && (forall n :: n in base ==> n in t && t[n] == base[n])
    && (forall n :: n in t ==> n in base || NewName(b, n))
  }

  /** The object is a part of, or is, the signed receipt of a point of another bundle. */
  ghost predicate OfSignedPoint(base: Remote, n: string, b: string) {
    exists q: Point ::
      && q.bundle != b && IsNameOf(q, n) && Lists(base, q)
      && base[ReceiptName(q.bundle)] == Receipt(q, true, Size(base[ReceiptName(q.bundle)]))
  }

  /** Nothing is lost but objects of points other than the new one whose receipts were
      listed and signed. */
  ghost predicate Kept(base: Remote, t: Remote, b: string) {
    forall n :: n in base ==>
      || (n in t && t[n] == base[n])
      || (n !in t && OfSignedPoint(base, n, b))
  }

  lemma ListedIsSigned(base: Remote, q: Point)
    requires Lists(base, q)
    ensures base[ReceiptName(q.bundle)] == Receipt(q, true, Size(base[ReceiptName(q.bundle)]))
  {}

  /** Where there was a recoverable point there still is one. */
  ghost predicate Continuous(base: Remote, t: Remote) {
    (exists p: Point :: Recoverable(base, p)) ==> exists q: Point :: Recoverable(t, q)
  }

  /** Nothing has been deleted before the new bundle was published recoverably. */
  ghost predicate OnlyAfterReplacement(base: Remote, t: Remote, b: string) {
    (exists n :: n in base && n !in t) ==> exists p: Point :: p.bundle == b && Recoverable(t, p)
  }

  /** What every state of a publication satisfies. */
  ghost predicate SafeState(base: Remote, t: Remote, b: string, cap: nat) {
    && Kept(base, t, b) && Continuous(base, t) && OnlyAfterReplacement(base, t, b)
    && (Total(t) <= cap || t == base)
  }

  lemma ExtendsIsSafe(base: Remote, t: Remote, b: string, cap: nat)
    requires Extends(base, t, b) && (Total(t) <= cap || t == base)
    ensures SafeState(base, t, b, cap)
  {
    if exists p: Point :: Recoverable(base, p) {
      var p: Point :| Recoverable(base, p);
      RecoverableFrame(base, t, p);
    }
  }

  lemma {:induction false} TotalOfSubmap(t: Remote, full: Remote)
    requires forall n :: n in t ==> n in full && t[n] == full[n]
    ensures Total(t) <= Total(full)
    decreases |full|
  {
    if full != map[] {
      var n :| n in full;
      TotalWithout(full, n);
      if n in t {
        TotalWithout(t, n);
        TotalOfSubmap(t - {n}, full - {n});
      } else {
        TotalOfSubmap(t, full - {n});
      }
    } else {
      assert t == map[];
    }
  }

  // ---------------------------------------------------------------- before publication

  /** A manifest is captured into one bundle, and the namespace's own receipts are the
      only ones that authenticate. */
  ghost predicate BoundToManifests(base: Remote) {
    forall q: Point :: Lists(base, q) ==> q.bundle == BundleName(q.manifestId)
  }

  lemma BundleNameIsInjective(m1: string, m2: string)
    requires BundleName(m1) == BundleName(m2)
    ensures m1 == m2
  {
    assert BundleName(m1)[7..] == m1 + POINT_TAIL && BundleName(m2)[7..] == m2 + POINT_TAIL;
    SameTails(m1, POINT_TAIL, m2, POINT_TAIL);
  }

  /** In an accepted listing without the manifest, every new name is free. */
  lemma NewNamesAreFree(base: Remote, manifestId: string)
    requires Accepts(base) && BoundToManifests(base)
    requires forall q: Point :: Lists(base, q) ==> q.manifestId != manifestId
    ensures forall n :: n in base ==> !NewName(BundleName(manifestId), n)
  {
    hide BundleName, ReceiptOk;
    var b := BundleName(manifestId);
    forall n | n in base ensures !NewName(b, n) {
      assert Owned(base, n);
      if n == OWNER {
        OwnerIsNotNew(b);
      } else {
        var q: Point :| Lists(base, q) && IsNameOf(q, n);
        if q.bundle == b { BundleNameIsInjective(q.manifestId, manifestId); }
        ListedPartCount(base, q);
        OldIsNotNew(q, b, n);
      }
    }
  }

  lemma ListedPartCount(base: Remote, q: Point)
    requires Lists(base, q)
    ensures 1 <= |q.parts| <= MAX_PARTS
    ensures IsNameOf(q, ReceiptName(q.bundle))
  {}

  lemma OwnerIsNotNew(b: string)
    ensures !NewName(b, OWNER)
  {
    KindsOfNames(b, 0, ReceiptName(b));
    forall i: nat | i < MAX_PARTS ensures OWNER != PartName(b, i) && OWNER != PartialName(PartName(b, i)) {
      KindsOfNames(b, i, PartName(b, i));
    }
  }

  lemma OldIsNotNew(q: Point, b: string, n: string)
    requires q.bundle != b && |q.parts| <= MAX_PARTS && IsNameOf(q, n)
    ensures !NewName(b, n)
  {
    hide PartName, ReceiptName, PartialName, IsReceiptName;
    if n == ReceiptName(q.bundle) {
      KindsOfNames(q.bundle, 0, ReceiptName(b));
      if n == ReceiptName(b) { ReceiptNamesDiffer(q.bundle, b); }
      forall i: nat | i < MAX_PARTS ensures n != PartName(b, i) && n != PartialName(PartName(b, i)) {
        KindsOfNames(b, i, PartName(b, i));
        KindsOfNames(q.bundle, i, PartName(b, i));
      }
    } else {
      var j: nat :| j < |q.parts| && n == PartName(q.bundle, j);
      KindsOfNames(q.bundle, j, ReceiptName(b));
      KindsOfNames(b, 0, "");
      forall i: nat | i < MAX_PARTS ensures n != PartName(b, i) && n != PartialName(PartName(b, i)) {
        KindsOfNames(q.bundle, j, PartName(b, i));
        if n == PartName(b, i) { PartNamesDiffer(q.bundle, j, b, i); }
      }
    }
  }

  // ---------------------------------------------------------------- parts in place

  /** The first `k` parts of the bundle stand under their names beside `base`. */
  ghost predicate Uploaded(base: Remote, t: Remote, b: string, chunks: seq<seq<Byte>>, k: nat) {
    && k <= |chunks|
    && (forall n :: n in base ==> n in t && t[n] == base[n])
    && (forall n :: n in t ==> n in base || exists i: nat :: i < k && n == PartName(b, i))
    && (forall i: nat :: i < k ==> PartName(b, i) in t && t[PartName(b, i)] == Data(chunks[i]))
  }

  lemma NextPartIsFree(base: Remote, t: Remote, b: string, chunks: seq<seq<Byte>>, k: nat)
    requires Uploaded(base, t, b, chunks, k) && k < |chunks| <= MAX_PARTS
    requires forall n :: n in base ==> !NewName(b, n)
    ensures PartName(b, k) !in t && PartialName(PartName(b, k)) !in t
    ensures NewName(b, PartName(b, k)) && NewName(b, PartialName(PartName(b, k)))
    ensures PartName(b, k) != PartialName(PartName(b, k))
  {
    hide PartName, PartialName, ReceiptName;
    var n, m := PartName(b, k), PartialName(PartName(b, k));
    KindsOfNames(b, k, n);
    assert NewName(b, n) && NewName(b, m);
    forall i: nat | i < k ensures PartName(b, i) != n && PartName(b, i) != m {
      if PartName(b, i) == n { PartNamesDiffer(b, i, b, k); }
      KindsOfNames(b, i, n);
    }
  }

  lemma UploadNext(base: Remote, t: Remote, b: string, chunks: seq<seq<Byte>>, k: nat)
    requires Uploaded(base, t, b, chunks, k) && k < |chunks|
    requires PartName(b, k) !in t
    ensures Uploaded(base, t[PartName(b, k) := Data(chunks[k])], b, chunks, k + 1)
  {
    hide PartName;
    var u := t[PartName(b, k) := Data(chunks[k])];
    forall i: nat | i < k + 1 ensures PartName(b, i) in u && u[PartName(b, i)] == Data(chunks[i]) {
      if i < k { assert PartName(b, i) in t && t[PartName(b, i)] == Data(chunks[i]); }
    }
  }

  /** The receipt names are free too, after all parts. */
  lemma ReceiptIsFree(base: Remote, t: Remote, b: string, chunks: seq<seq<Byte>>, k: nat)
    requires Uploaded(base, t, b, chunks, k)
    requires forall n :: n in base ==> !NewName(b, n)
    ensures ReceiptName(b) !in t && PartialName(ReceiptName(b)) !in t && ReceiptName(b) != PartialName(ReceiptName(b))
  {
    KindsOfNames(b, 0, ReceiptName(b));
    forall i: nat | i < k ensures PartName(b, i) != ReceiptName(b) && PartName(b, i) != PartialName(ReceiptName(b)) {
      KindsOfNames(b, i, ReceiptName(b));
    }
  }

  /** The records published for a split bundle. */
  ghost predicate Describes(p: Point, chunks: seq<seq<Byte>>) {
    && |p.parts| == |chunks|
    && forall i :: 0 <= i < |chunks| ==>
         p.parts[i] == PartRecord(PartName(p.bundle, i), |chunks[i]|, Sha256(chunks[i]))
  }

  lemma FlattenNone(chunks: seq<seq<Byte>>)
    ensures Flatten(chunks[..0]) == []
  {}

  lemma {:induction false} FetchIsFlatten(t: Remote, p: Point, chunks: seq<seq<Byte>>, k: nat)
    requires Describes(p, chunks) && k <= |chunks|
    requires forall i: nat :: i < k ==> PartName(p.bundle, i) in t && t[PartName(p.bundle, i)] == Data(chunks[i])
    ensures Fetch(t, p, k) == Flatten(chunks[..k])
  {
    hide PartName, Flatten;
    if k == 0 {
      FlattenNone(chunks);
    } else {
      FetchIsFlatten(t, p, chunks, k - 1);
      assert chunks[..k] == chunks[..k - 1] + [chunks[k - 1]];
      FlattenAppend(chunks[..k - 1], chunks[k - 1]);
    }
  }

  /** Once the receipt stands beside its parts, the new point is listed and recoverable. */
  lemma PublishedIsRecoverable(base: Remote, t: Remote, p: Point, chunks: seq<seq<Byte>>, data: seq<Byte>, size: nat)
    requires chunks == Chunks(data, PART) && 1 <= |chunks| <= MAX_PARTS
    requires Uploaded(base, t, p.bundle, chunks, |chunks|) && ReceiptName(p.bundle) !in t
    requires Describes(p, chunks) && p.encryptedSha == Sha256(data)
    requires p.ours && p.current && p.downloadVerified && PointName(p.bundle)
    ensures Recoverable(t[ReceiptName(p.bundle) := Receipt(p, true, size)], p)
  {
    hide PartName, ReceiptName, PointName, Chunks, Flatten, Fetch;
    var u := t[ReceiptName(p.bundle) := Receipt(p, true, size)];
    PartsStay(base, t, u, p.bundle, chunks);
    PublishedIsListed(u, p, chunks);
    FetchIsFlatten(u, p, chunks, |chunks|);
    ChunksConcat(data, PART);
    assert chunks[..|chunks|] == chunks;
  }

  lemma PartsStay(base: Remote, t: Remote, u: Remote, b: string, chunks: seq<seq<Byte>>)
    requires Uploaded(base, t, b, chunks, |chunks|)
    requires forall n :: n in t && n != ReceiptName(b) ==> n in u && u[n] == t[n]
    requires ReceiptName(b) !in t
    ensures forall i: nat :: i < |chunks| ==> PartName(b, i) in u && u[PartName(b, i)] == Data(chunks[i])
  {
    hide PartName, ReceiptName;
    forall i: nat | i < |chunks| ensures PartName(b, i) in u && u[PartName(b, i)] == Data(chunks[i]) {
      assert PartName(b, i) in t && t[PartName(b, i)] == Data(chunks[i]);
    }
  }

  lemma PublishedIsListed(u: Remote, p: Point, chunks: seq<seq<Byte>>)
    requires Describes(p, chunks) && 1 <= |chunks| <= MAX_PARTS
    requires forall i: nat :: i < |chunks| ==> PartName(p.bundle, i) in u && u[PartName(p.bundle, i)] == Data(chunks[i])
    requires p.ours && p.current && p.downloadVerified && PointName(p.bundle)
    requires ReceiptName(p.bundle) in u && u[ReceiptName(p.bundle)].Receipt?
    requires u[ReceiptName(p.bundle)].signed && u[ReceiptName(p.bundle)].point == p
    ensures Lists(u, p)
    ensures forall i: nat :: i < |p.parts| ==>
              && PartListed(u, p, i)
              && u[p.parts[i].name] == Data(chunks[i]) && p.parts[i].sha == Sha256(chunks[i])
  {
    hide PartName, ReceiptName, PointName;
    forall i: nat | i < |p.parts|
      ensures PartListed(u, p, i) && u[p.parts[i].name] == Data(chunks[i]) && p.parts[i].sha == Sha256(chunks[i])
    {
      assert PartName(p.bundle, i) in u && u[PartName(p.bundle, i)] == Data(chunks[i]);
    }
  }

  /** What publication added: the parts, then the receipt. */
  ghost predicate Published(base: Remote, t: Remote, u: Remote, p: Point, chunks: seq<seq<Byte>>) {
    && Uploaded(base, t, p.bundle, chunks, |chunks|) && |p.parts| == |chunks| <= MAX_PARTS
    && ReceiptName(p.bundle) !in t
    && u.Keys == t.Keys + {ReceiptName(p.bundle)} && (forall n :: n in t ==> u[n] == t[n])
  }

  lemma PublishedNames(base: Remote, t: Remote, u: Remote, p: Point, chunks: seq<seq<Byte>>, n: string)
    requires Published(base, t, u, p, chunks) && n in u
    ensures n in base || IsNameOf(p, n)
    ensures IsReceiptName(n) ==> n in base || n == ReceiptName(p.bundle)
    ensures n in base ==> u[n] == base[n]
  {
    hide PartName, ReceiptName, IsReceiptName;
    if n !in base && n != ReceiptName(p.bundle) {
      var i: nat :| i < |chunks| && n == PartName(p.bundle, i);
      KindsOfNames(p.bundle, i, "");
    }
  }

  lemma PublishedLists(base: Remote, t: Remote, u: Remote, p: Point, chunks: seq<seq<Byte>>, q: Point)
    requires Accepts(base) && Published(base, t, u, p, chunks) && Lists(u, p)
    ensures Lists(u, q) <==> Lists(base, q) || q == p
  {
    hide PartName, ReceiptName, IsReceiptName, ReceiptOk, Published, Lists;
    if Lists(base, q) {
      forall n | n in base && IsNameOf(q, n) ensures n in u && u[n] == base[n] {
        PublishedKeeps(base, t, u, p, chunks, n);
      }
      ListsFrame(base, u, q);
    }
    if Lists(u, q) && q != p {
      ListedName(u, q);
      ListedName(u, p);
      var n := ReceiptName(q.bundle);
      PublishedNames(base, t, u, p, chunks, n);
      assert ReceiptOk(base, n);
      ListedBy(base, n);
    }
  }

  lemma PublishedKeeps(base: Remote, t: Remote, u: Remote, p: Point, chunks: seq<seq<Byte>>, n: string)
    requires Published(base, t, u, p, chunks) && n in base
    ensures n in u && u[n] == base[n]
  {}

  /** The new listing is accepted and lists the prior points plus the new one. */
  lemma PublishedIsAccepted(base: Remote, t: Remote, u: Remote, p: Point, chunks: seq<seq<Byte>>)
    requires Accepts(base) && Published(base, t, u, p, chunks) && Lists(u, p)
    ensures Accepts(u)
    ensures forall q: Point :: Lists(u, q) <==> Lists(base, q) || q == p
  {
    hide PartName, ReceiptName, IsReceiptName, ReceiptOk, Published, Lists, IsNameOf;
    forall q: Point ensures Lists(u, q) <==> Lists(base, q) || q == p {
      PublishedLists(base, t, u, p, chunks, q);
    }
    forall n | n in u ensures Owned(u, n) {
      PublishedNames(base, t, u, p, chunks, n);
      if n in base {
        assert Owned(base, n);
      }
    }
    forall n | n in u && IsReceiptName(n) ensures ReceiptOk(u, n) {
      PublishedNames(base, t, u, p, chunks, n);
      if n in base {
        ListedBy(base, n);
        ReceiptOfListed(u, base[n].point);
      } else {
        ReceiptOfListed(u, p);
      }
    }
  }

  lemma ListsFrame(base: Remote, u: Remote, q: Point)
    requires Lists(base, q) && (forall n :: n in base && IsNameOf(q, n) ==> n in u && u[n] == base[n])
    ensures Lists(u, q)
  {
    hide PartName, ReceiptName;
    assert IsNameOf(q, ReceiptName(q.bundle));
    forall i: nat | i < |q.parts| ensures PartListed(u, q, i) {
      assert PartListed(base, q, i);
      assert IsNameOf(q, q.parts[i].name);
    }
  }

  lemma ListedBy(base: Remote, n: string)
    requires ReceiptOk(base, n)
    ensures n in base && base[n].Receipt?
    ensures Lists(base, base[n].point) && n == ReceiptName(base[n].point.bundle)
  {}

  lemma ListedName(u: Remote, q: Point)
    requires Lists(u, q)
    ensures ReceiptName(q.bundle) in u && IsReceiptName(ReceiptName(q.bundle))
    ensures u[ReceiptName(q.bundle)].Receipt? && u[ReceiptName(q.bundle)].point == q
  {
    KindsOfNames(q.bundle, 0, "");
  }

  // ---------------------------------------------------------------- retention

  /** The state is `full` without some objects of listed points other than `b`. */
  ghost predicate Trimmed(full: Remote, t: Remote, b: string) {
    && (forall n :: n in t ==> n in full && t[n] == full[n])
    && (forall n :: n in full && n !in t ==> exists q: Point :: Lists(full, q) && q.bundle != b && IsNameOf(q, n))
  }

  /** While old points are being removed the new one stays whole. */
  lemma TrimmedIsSafe(base: Remote, full: Remote, t: Remote, p: Point, cap: nat)
    requires Trimmed(full, t, p.bundle) && Recoverable(full, p) && Total(full) <= cap
    requires forall n :: n in base ==> n in full && full[n] == base[n]
    requires forall q: Point :: Lists(full, q) <==> Lists(base, q) || q == p
    ensures SafeState(base, t, p.bundle, cap)
    ensures Recoverable(t, p)
  {
    hide IsNameOf, ReceiptOk, Kept, ReceiptName;
    forall n | n in full && IsNameOf(p, n) ensures n in t && t[n] == full[n] {
      if n !in t {
        var q: Point :| Lists(full, q) && q.bundle != p.bundle && IsNameOf(q, n);
        ListedPartCount(full, q);
        ListedPartCount(full, p);
        NamesOfPointsDiffer(p, q, n);
      }
    }
    RecoverableFrame(full, t, p);
    TotalOfSubmap(t, full);
    TrimmedKeeps(base, full, t, p);
  }

  lemma TrimmedKeeps(base: Remote, full: Remote, t: Remote, p: Point)
    requires Trimmed(full, t, p.bundle)
    requires forall n :: n in base ==> n in full && full[n] == base[n]
    requires forall q: Point :: Lists(full, q) <==> Lists(base, q) || q == p
    ensures Kept(base, t, p.bundle)
  {
    hide IsNameOf, Lists, ReceiptName;
    forall n | n in base && n !in t ensures OfSignedPoint(base, n, p.bundle) {
      var q: Point :| Lists(full, q) && q.bundle != p.bundle && IsNameOf(q, n);
      ListedIsSigned(base, q);
    }
  }

  predicate Dropped(order: seq<Point>, i: nat, b: string, cutoff: int) {
    i < |order| && order[i].bundle != b && !(i < 2 && order[i].backupAt >= cutoff)
  }

  /** `n` belongs to one of the first `k` points that retention drops. */
  ghost predicate Gone(order: seq<Point>, k: nat, b: string, cutoff: int, n: string) {
    exists i: nat :: i < k && i < |order| && Dropped(order, i, b, cutoff) && IsNameOf(order[i], n)
  }

  /** Exactly the objects of the first `k` dropped points are gone. */
  ghost predicate Swept(full: Remote, t: Remote, order: seq<Point>, k: nat, b: string, cutoff: int) {
    && (forall n :: n in t <==> n in full && !Gone(order, k, b, cutoff, n))
    && (forall n :: n in t ==> t[n] == full[n])
  }

  ghost predicate OrderOf(full: Remote, order: seq<Point>) {
    && (forall q: Point :: q in order <==> Lists(full, q))
    && (forall i, j :: 0 <= i < j < |order| ==> order[i].bundle != order[j].bundle)
  }

  /** Part way through the removal of point `k` after the sweep of those before it. */
  ghost predicate Sweeping(full: Remote, t: Remote, order: seq<Point>, k: nat, b: string, cutoff: int) {
    && k < |order| && Dropped(order, k, b, cutoff)
    && (forall n :: n in t ==> n in full && t[n] == full[n] && !Gone(order, k, b, cutoff, n))
    && (forall n :: n in full && n !in t ==> Gone(order, k, b, cutoff, n) || IsNameOf(order[k], n))
  }

  lemma SweepingIsTrimmed(full: Remote, t: Remote, order: seq<Point>, k: nat, b: string, cutoff: int)
    requires OrderOf(full, order) && Sweeping(full, t, order, k, b, cutoff)
    ensures Trimmed(full, t, b)
  {
    hide IsNameOf, Lists;
    forall n | n in full && n !in t ensures exists q: Point :: Lists(full, q) && q.bundle != b && IsNameOf(q, n) {
      if Gone(order, k, b, cutoff, n) {
        var i: nat :| i < k && Dropped(order, i, b, cutoff) && IsNameOf(order[i], n);
        assert order[i] in order;
      } else {
        assert order[k] in order;
      }
    }
  }

  lemma SweptIsTrimmed(full: Remote, t: Remote, order: seq<Point>, k: nat, b: string, cutoff: int)
    requires OrderOf(full, order) && Swept(full, t, order, k, b, cutoff)
    ensures Trimmed(full, t, b)
  {
    hide IsNameOf, Lists;
    forall n | n in full && n !in t ensures exists q: Point :: Lists(full, q) && q.bundle != b && IsNameOf(q, n) {
      var i: nat :| i < k && i < |order| && Dropped(order, i, b, cutoff) && IsNameOf(order[i], n);
      assert order[i] in order;
    }
  }

  lemma GoneStep(order: seq<Point>, k: nat, b: string, cutoff: int, n: string)
    requires k < |order|
    ensures Gone(order, k + 1, b, cutoff, n) <==>
              Gone(order, k, b, cutoff, n) || (Dropped(order, k, b, cutoff) && IsNameOf(order[k], n))
  {
    hide IsNameOf, Dropped;
    if Gone(order, k, b, cutoff, n) {
      var i: nat :| i < k && i < |order| && Dropped(order, i, b, cutoff) && IsNameOf(order[i], n);
      assert i < k + 1;
    }
    if Gone(order, k + 1, b, cutoff, n) {
      var i: nat :| i < k + 1 && i < |order| && Dropped(order, i, b, cutoff) && IsNameOf(order[i], n);
      assert i < k || i == k;
    }
    if Dropped(order, k, b, cutoff) && IsNameOf(order[k], n) {
      assert k < k + 1;
    }
  }

  lemma SweptNext(full: Remote, t: Remote, order: seq<Point>, k: nat, b: string, cutoff: int)
    requires Sweeping(full, t, order, k, b, cutoff)
    requires forall n :: IsNameOf(order[k], n) ==> n !in t
    ensures Swept(full, t, order, k + 1, b, cutoff)
  {
    hide IsNameOf, Dropped, Gone;
    forall n ensures n in t <==> n in full && !Gone(order, k + 1, b, cutoff, n) {
      GoneStep(order, k, b, cutoff, n);
    }
  }

  lemma SweptKept(full: Remote, t: Remote, order: seq<Point>, k: nat, b: string, cutoff: int)
    requires Swept(full, t, order, k, b, cutoff) && k < |order| && !Dropped(order, k, b, cutoff)
    ensures Swept(full, t, order, k + 1, b, cutoff)
  {
    hide IsNameOf, Dropped, Gone;
    forall n ensures n in t <==> n in full && !Gone(order, k + 1, b, cutoff, n) {
      GoneStep(order, k, b, cutoff, n);
    }
  }

  lemma DroppedIsGone(order: seq<Point>, i: nat, b: string, cutoff: int, n: string)
    requires i < |order| && IsNameOf(order[i], n)
    ensures Dropped(order, i, b, cutoff) ==> Gone(order, |order|, b, cutoff, n)
  {}

  /** A survivor's objects are all there; a dropped point's are all gone. */
  lemma SweptListing(full: Remote, t: Remote, order: seq<Point>, b: string, cutoff: int)
    requires Accepts(full) && OrderOf(full, order) && Swept(full, t, order, |order|, b, cutoff)
    ensures Accepts(t)
    ensures forall q: Point :: Lists(t, q) <==>
              exists i: nat :: i < |order| && order[i] == q && !Dropped(order, i, b, cutoff)
  {
    hide IsNameOf, Dropped, ReceiptOk, IsReceiptName;
    forall i: nat | i < |order| && !Dropped(order, i, b, cutoff) ensures Lists(t, order[i]) {
      SurvivorStays(full, t, order, i, b, cutoff);
    }
    forall q: Point | Lists(t, q)
      ensures exists i: nat :: i < |order| && order[i] == q && !Dropped(order, i, b, cutoff)
    {
      ListedName(t, q);
      var n := ReceiptName(q.bundle);
      assert n in full && full[n] == t[n];
      ListedBy(full, n);
      assert q in order;
      var i: nat :| i < |order| && order[i] == q;
      ListedPartCount(full, q);
      DroppedIsGone(order, i, b, cutoff, n);
    }
    forall n | n in t ensures Owned(t, n) && (IsReceiptName(n) ==> ReceiptOk(t, n)) {
      assert Owned(full, n);
      if n != OWNER {
        var q: Point :| Lists(full, q) && IsNameOf(q, n);
        var i: nat :| i < |order| && order[i] == q;
        DroppedIsGone(order, i, b, cutoff, n);
        assert Lists(t, q);
      }
      if IsReceiptName(n) {
        ListedBy(full, n);
        var q := full[n].point;
        var i: nat :| i < |order| && order[i] == q;
        ListedPartCount(full, q);
        DroppedIsGone(order, i, b, cutoff, n);
        ReceiptOfListed(t, q);
      }
    }
  }

  lemma ReceiptOfListed(t: Remote, q: Point)
    requires Lists(t, q)
    ensures ReceiptOk(t, ReceiptName(q.bundle))
  {}

  lemma SurvivorStays(full: Remote, t: Remote, order: seq<Point>, i: nat, b: string, cutoff: int)
    requires OrderOf(full, order) && Swept(full, t, order, |order|, b, cutoff)
    requires i < |order| && !Dropped(order, i, b, cutoff)
    ensures Lists(t, order[i])
  {
    hide IsNameOf, Dropped, Lists;
    assert order[i] in order;
    forall n | n in full && IsNameOf(order[i], n) ensures n in t && t[n] == full[n] {
      if Gone(order, |order|, b, cutoff, n) {
        var j: nat :| j < |order| && Dropped(order, j, b, cutoff) && IsNameOf(order[j], n);
        assert order[j] in order;
        ListedPartCount(full, order[i]);
        ListedPartCount(full, order[j]);
        NamesOfPointsDiffer(order[i], order[j], n);
      }
    }
    ListsFrame(full, t, order[i]);
  }

  // ---------------------------------------------------------------- removing one point

  /** The first `j` parts of point `k` are gone, after the sweep of the points before it. */
  ghost predicate SweptParts(full: Remote, t: Remote, order: seq<Point>, k: nat, j: nat, b: string, cutoff: int) {
    && k < |order| && Dropped(order, k, b, cutoff) && j <= |order[k].parts|
    && (forall n :: n in t <==> n in full && !Gone(order, k, b, cutoff, n) && !EarlierPart(order[k], j, n))
    && (forall n :: n in t ==> t[n] == full[n])
  }

  ghost predicate EarlierPart(p: Point, j: nat, n: string) {
    exists i: nat :: i < j && n == PartName(p.bundle, i)
  }

  lemma PartsStart(full: Remote, t: Remote, order: seq<Point>, k: nat, b: string, cutoff: int)
    requires Swept(full, t, order, k, b, cutoff) && k < |order| && Dropped(order, k, b, cutoff)
    ensures SweptParts(full, t, order, k, 0, b, cutoff)
  {}

  lemma SweptPartsIsTrimmed(full: Remote, t: Remote, order: seq<Point>, k: nat, j: nat, b: string, cutoff: int)
    requires OrderOf(full, order) && SweptParts(full, t, order, k, j, b, cutoff)
    ensures Trimmed(full, t, b)
  {
    hide PartName, ReceiptName, Lists;
    forall n | n in full && n !in t ensures Gone(order, k, b, cutoff, n) || IsNameOf(order[k], n) {
      if EarlierPart(order[k], j, n) {
        var i: nat :| i < j && n == PartName(order[k].bundle, i);
      }
    }
    SweepingIsTrimmed(full, t, order, k, b, cutoff);
  }

  /** A name of point `k` is not among the names of the points swept before it. */
  lemma NotYetGone(full: Remote, order: seq<Point>, k: nat, b: string, cutoff: int, n: string)
    requires OrderOf(full, order) && k < |order| && IsNameOf(order[k], n)
    ensures !Gone(order, k, b, cutoff, n)
  {
    hide IsNameOf, Dropped, Lists;
    if Gone(order, k, b, cutoff, n) {
      var i: nat :| i < k && i < |order| && Dropped(order, i, b, cutoff) && IsNameOf(order[i], n);
      assert order[i] in order && order[k] in order;
      ListedPartCount(full, order[i]);
      ListedPartCount(full, order[k]);
      NamesOfPointsDiffer(order[k], order[i], n);
    }
  }

  lemma NextPartToDrop(full: Remote, t: Remote, order: seq<Point>, k: nat, j: nat, b: string, cutoff: int)
    requires OrderOf(full, order) && SweptParts(full, t, order, k, j, b, cutoff) && j < |order[k].parts|
    ensures var n := order[k].parts[j].name;
      n in t && SweptParts(full, t - {n}, order, k, j + 1, b, cutoff)
  {
    hide PartName, ReceiptName, Gone, Dropped;
    var p := order[k];
    assert p in order && Lists(full, p);
    assert PartListed(full, p, j);
    var n := PartName(p.bundle, j);
    assert IsNameOf(p, n);
    NotYetGone(full, order, k, b, cutoff, n);
    ListedPartCount(full, p);
    if EarlierPart(p, j, n) {
      var i: nat :| i < j && n == PartName(p.bundle, i);
      PartNamesDiffer(p.bundle, i, p.bundle, j);
    }
    forall m ensures EarlierPart(p, j + 1, m) <==> EarlierPart(p, j, m) || m == n {
      if EarlierPart(p, j + 1, m) {
        var i: nat :| i < j + 1 && m == PartName(p.bundle, i);
        assert i < j || i == j;
      }
    }
  }

  lemma LastNameToDrop(full: Remote, t: Remote, order: seq<Point>, k: nat, b: string, cutoff: int)
    requires OrderOf(full, order) && k < |order| && SweptParts(full, t, order, k, |order[k].parts|, b, cutoff)
    ensures var n := ReceiptName(order[k].bundle);
      n in t && Swept(full, t - {n}, order, k + 1, b, cutoff) && Trimmed(full, t - {n}, b)
  {
    hide PartName, ReceiptName, Gone, Dropped;
    var p := order[k];
    assert p in order && Lists(full, p);
    var n := ReceiptName(p.bundle);
    assert IsNameOf(p, n);
    NotYetGone(full, order, k, b, cutoff, n);
    if EarlierPart(p, |p.parts|, n) {
      var i: nat :| i < |p.parts| && n == PartName(p.bundle, i);
      KindsOfNames(p.bundle, i, "");
    }
    var u := t - {n};
    forall m ensures IsNameOf(p, m) <==> m == n || EarlierPart(p, |p.parts|, m) {
    }
    SweepingIsTrimmed(full, u, order, k, b, cutoff);
    SweptNext(full, u, order, k, b, cutoff);
  }
}
