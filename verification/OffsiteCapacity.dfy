/**
 A listing that still admits a publication and is too long to be read after it.

 Each step of the construction adds one published point of one byte, so the listing is
 one that publications themselves lead to.
 */
module OffsiteCapacity {
  import opened OffsiteNames
  import opened OffsitePoints
  import opened OffsiteState
  import opened OffsiteSync

  /** Manifest identifiers that differ in length. */
  function Filler(i: nat): string {
    "manifest-vps-" + seq(i + 1, _ => 'a')
  }

  function OneByte(manifestId: string): Point {
    var bundle := BundleName(manifestId);
    Point(manifestId, bundle, 0, Sha256([0]), [PartRecord(PartName(bundle, 0), 1, Sha256([0]))], true, true, true)
  }

  lemma FillersDiffer(i: nat, j: nat)
    requires Filler(i) == Filler(j)
    ensures i == j
  {
    assert |Filler(i)| == i + 14 && |Filler(j)| == j + 14;
  }

  lemma FillerIsPointName(i: nat)
    ensures PointName(BundleName(Filler(i)))
  {
    var b := BundleName(Filler(i));
    assert b == "backup-" + "manifest-vps-" + seq(i + 1, _ => 'a') + POINT_TAIL;
    assert POINT_HEAD == "backup-" + "manifest-vps-";
    assert b == POINT_HEAD + seq(i + 1, _ => 'a') + POINT_TAIL;
    assert b[|b| - |POINT_TAIL|..] == POINT_TAIL;
  }

  /** One more published point: two more objects, and nothing else. */
  lemma OneMore(base: Remote, manifestId: string, size: nat) returns (u: Remote)
    requires Accepts(base) && BoundToManifests(base) && !Knows(base, manifestId)
    requires PointName(BundleName(manifestId))
    ensures Accepts(u) && BoundToManifests(u)
    ensures |u| == |base| + 2 && Total(u) == Total(base) + 1 + size
    ensures forall q: Point :: Lists(u, q) <==> Lists(base, q) || q == OneByte(manifestId)
    ensures forall n :: n in base ==> n in u && u[n] == base[n]
  {
    hide Accepts, Lists, PointName, Recoverable, BundleName, NewName, Total, PartName, ReceiptName, PartialName;
    var data: seq<Byte>, p := [0], OneByte(manifestId);
    var chunks, name := Chunks(data, PART), PartName(p.bundle, 0);
    assert chunks == [data];
    NewNamesAreFree(base, manifestId);
    NothingUploaded(base, p.bundle, chunks);
    NextPartIsFree(base, base, p.bundle, chunks, 0);
    UploadNext(base, base, p.bundle, chunks, 0);
    var t := base[name := Data(data)];
    ReceiptIsFree(base, t, p.bundle, chunks, 1);
    u := t[ReceiptName(p.bundle) := Receipt(p, true, size)];
    ReceiptCompletes(base, t, p, data, size);
    TotalWith(base, name, Data(data));
    TotalWith(t, ReceiptName(p.bundle), Receipt(p, true, size));
  }

  lemma OnlyTheMarker(markSize: nat)
    ensures var r: Remote := map[OWNER := OwnerMark(markSize)];
            Accepts(r) && |r| == 1 && Total(r) == markSize && forall q: Point :: !Lists(r, q)
  {
    var r: Remote := map[OWNER := OwnerMark(markSize)];
    KindsOfNames("", 0, "");
    TotalWith(map[], OWNER, OwnerMark(markSize));
    forall q: Point ensures !Lists(r, q) {
      KindsOfNames(q.bundle, 0, "");
    }
  }

  /** The marker and `n` published points of one part. */
  lemma {:induction false} Crowded(n: nat, markSize: nat, size: nat) returns (r: Remote)
    ensures Accepts(r) && BoundToManifests(r)
    ensures |r| == 2 * n + 1 && Total(r) == markSize + n * (1 + size)
    ensures OWNER in r && r[OWNER] == OwnerMark(markSize)
    ensures forall q: Point :: Lists(r, q) ==> exists i: nat :: i < n && q.manifestId == Filler(i)
  {
    hide Accepts, Lists, PointName, BundleName, Total, Filler;
    if n == 0 {
      OnlyTheMarker(markSize);
      r := map[OWNER := OwnerMark(markSize)];
    } else {
      var less := Crowded(n - 1, markSize, size);
      FillerIsPointName(n - 1);
      FillerIsNew(less, n - 1);
      r := OneMore(less, Filler(n - 1), size);
    }
  }

  lemma FillerIsNew(r: Remote, n: nat)
    requires forall q: Point :: Lists(r, q) ==> exists i: nat :: i < n && q.manifestId == Filler(i)
    ensures !Knows(r, Filler(n))
  {
    hide Lists, Filler;
    if Knows(r, Filler(n)) {
      var q: Point :| Lists(r, q) && q.manifestId == Filler(n);
      var i: nat :| i < n && q.manifestId == Filler(i);
      FillersDiffer(i, n);
    }
  }

  /** The marker and 511 points of one part are 1023 objects.  A bundle of one byte is
      admitted beside them, and makes the listing too long. */
  lemma AdmittedAndTooLong(markSize: nat, size: nat) returns (r: Remote, proof: Proof)
    requires markSize <= RECEIPT_RESERVE && size <= RECEIPT_RESERVE
    ensures |r| == 1023 && BoundToManifests(r)
    ensures Admits(r, markSize, [0], proof, LIMIT) && Overfills(r, [0])
  {
    hide Accepts, Lists, PointName, BundleName, Total, Filler, Knows;
    r := Crowded(511, markSize, size);
    proof := Proof(Filler(511), 0);
    FillerIsPointName(511);
    FillerIsNew(r, 511);
    assert 511 * (1 + size) <= 511 * (1 + RECEIPT_RESERVE);
    assert |Chunks([0], PART)| == 1;
  }
}
