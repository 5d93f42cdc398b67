/**
 Multipart recovery points in the remote namespace: what a listing must look like to
 be accepted, what makes a point recoverable, and how a bundle is cut into parts.
 */
module OffsitePoints {
  import opened Sequences
  import opened Texts
  import opened Wrappers
  import opened OffsiteNames

  type Byte = x: int | 0 <= x < 256

  /** SHA-256 as a free constructor: equal digests, equal bytes. */
  datatype Sha = Sha256(preimage: seq<Byte>)

  datatype PartRecord = PartRecord(name: string, bytes: nat, sha: Sha)

  /** The payload of a receipt.  `backupAt` stands for an ISO time in UTC, whose order as a
      text is the order in time.  `ours` says that folder and host are this namespace's own,
      `current` that the schema is the present one. */
  datatype Point = Point(
    manifestId: string,
    bundle: string,
    backupAt: int,
    encryptedSha: Sha,
    parts: seq<PartRecord>,
    ours: bool,
    current: bool,
    downloadVerified: bool)

  datatype Blob =
    | Data(bytes: seq<Byte>)
    | OwnerMark(size: nat)
    | Receipt(point: Point, signed: bool, size: nat)
    | Other(size: nat)

  type Remote = map<string, Blob>

  function Size(b: Blob): nat {
    match b
    case Data(bytes) => |bytes|
    case OwnerMark(size) => size
    case Receipt(_, _, size) => size
    case Other(size) => size
  }

  const PART: nat := 1_000_000_000
  const BLOCK: nat := 1_048_576
  const MAX_PARTS: nat := 70
  const RECEIPT_RESERVE: nat := 131_072
  const LIMIT: nat := 70_000_000_000

  const POINT_HEAD := "backup-manifest-vps-"
  const POINT_TAIL := ".tar.gpg"

  /** `backup-manifest-vps-[a-z0-9-]+\.tar\.gpg`, matched in full. */
  predicate PointName(b: string) {
    && |b| > |POINT_HEAD| + |POINT_TAIL|
    && POINT_HEAD <= b && EndsWith(b, POINT_TAIL)
    && forall k :: |POINT_HEAD| <= k < |b| - |POINT_TAIL| ==> 'a' <= b[k] <= 'z' || '0' <= b[k] <= '9' || b[k] == '-'
  }

  /** The same as a shape: some letters, digits and dashes between the fixed ends. */
  ghost predicate HasPointShape(b: string) {
    exists id: string :: IsPointOf(b, id)
  }

  ghost predicate IsPointOf(b: string, id: string) {
    && b == "backup-manifest-vps-" + id + ".tar.gpg" && id != ""
    && forall c :: c in id ==> AlphaNumeric(c) || c == '-'
  }

  lemma PointNameIsShape(b: string)
    ensures PointName(b) <==> HasPointShape(b)
  {
    if PointName(b) {
      ShapeOfPointName(b);
    }
    if HasPointShape(b) {
      var id: string :| IsPointOf(b, id);
      PointNameOfShape(b, id);
    }
  }

  lemma ShapeOfPointName(b: string)
    requires PointName(b)
    ensures IsPointOf(b, b[|POINT_HEAD|..|b| - |POINT_TAIL|])
  {
    var id := b[|POINT_HEAD|..|b| - |POINT_TAIL|];
    assert b == POINT_HEAD + id + POINT_TAIL;
  }

  lemma PointNameOfShape(b: string, id: string)
    requires IsPointOf(b, id)
    ensures PointName(b)
  {
    assert b == POINT_HEAD + id + POINT_TAIL;
    assert b[|b| - |POINT_TAIL|..] == POINT_TAIL;
    forall k | |POINT_HEAD| <= k < |b| - |POINT_TAIL|
      ensures 'a' <= b[k] <= 'z' || '0' <= b[k] <= '9' || b[k] == '-'
    {
      assert b[k] == id[k - |POINT_HEAD|] && b[k] in id;
    }
  }

  /** The bundle name a capture gives a manifest. */
  function BundleName(manifestId: string): string {
    "backup-" + manifestId + POINT_TAIL
  }

  // ---------------------------------------------------------------- the reader of a listing

  ghost predicate PartListed(r: Remote, p: Point, i: nat) {
    && i < |p.parts|
    && p.parts[i].name == PartName(p.bundle, i)
    && p.parts[i].name in r && Size(r[p.parts[i].name]) == p.parts[i].bytes
  }

  predicate GoodPayload(name: string, b: Blob) {
    && b.Receipt? && b.signed && b.point.ours && PointName(b.point.bundle)
    && name == ReceiptName(b.point.bundle) && b.point.current && b.point.downloadVerified
    && 1 <= |b.point.parts| <= MAX_PARTS
  }

  /** A receipt that the reader takes for a complete point. */
  ghost predicate ReceiptOk(r: Remote, name: string) {
    && name in r && GoodPayload(name, r[name])
    && forall i :: 0 <= i < |r[name].point.parts| ==> PartListed(r, r[name].point, i)
  }

  /** The point a receipt stands for. */
  ghost predicate Lists(r: Remote, p: Point) {
    ReceiptOk(r, ReceiptName(p.bundle)) && r[ReceiptName(p.bundle)].point == p
  }

  /** The names a point owns. */
  ghost predicate IsNameOf(p: Point, n: string) {
    n == ReceiptName(p.bundle) || exists i: nat :: i < |p.parts| && n == PartName(p.bundle, i)
  }

  /** A name that the marker or an accepted point accounts for. */
  ghost predicate Owned(r: Remote, n: string) {
    n == OWNER || exists p: Point :: Lists(r, p) && IsNameOf(p, n)
  }

  /** `points` accepts exactly these listings. */
  ghost predicate Accepts(r: Remote) {
    && (forall n :: n in r && IsReceiptName(n) ==> ReceiptOk(r, n))
    && (forall n :: n in r ==> Owned(r, n))
  }

  /** A receipt of this namespace that authenticates, with its parts in the listing: on the
      object itself, field by field. */
  ghost predicate Authentic(r: Remote, n: string) {
    && n in r && r[n].Receipt? && r[n].signed
    && var p := r[n].point;
    && p.ours && p.current && p.downloadVerified && HasPointShape(p.bundle)
    && n == p.bundle + ".receipt.json" && 1 <= |p.parts| <= 70
    && forall i :: 0 <= i < |p.parts| ==> PartListed(r, p, i)
  }

  /** Every receipt is authentic, and there is nothing beside the marker, the receipts and
      their parts. */
  ghost predicate AllAuthentic(r: Remote) {
    && (forall n :: n in r && IsReceiptName(n) ==> Authentic(r, n))
    && (forall n :: n in r ==>
          || n == ".platform-backup-owner.json" || IsReceiptName(n)
          || exists m, i: nat :: Authentic(r, m) && PartListed(r, r[m].point, i) && n == r[m].point.parts[i].name)
  }

  lemma ListedIsAuthentic(r: Remote, p: Point)
    ensures Lists(r, p) <==>
            exists n :: Authentic(r, n) && r[n].point == p
  {
    hide PointName, HasPointShape;
    PointNameIsShape(p.bundle);
    if Lists(r, p) {
      assert Authentic(r, ReceiptName(p.bundle));
    }
  }

  lemma AcceptedIsAuthentic(r: Remote)
    ensures Accepts(r) <==> AllAuthentic(r)
  {
    hide IsReceiptName, PartName, PointName, HasPointShape;
    forall n ensures ReceiptOk(r, n) <==> Authentic(r, n) {
      if n in r && r[n].Receipt? { PointNameIsShape(r[n].point.bundle); }
    }
    forall n | n in r ensures Owned(r, n) ==>
        || n == OWNER || IsReceiptName(n)
        || exists m, i: nat :: Authentic(r, m) && PartListed(r, r[m].point, i) && n == r[m].point.parts[i].name
    {
      if n != OWNER && Owned(r, n) {
        var p: Point :| Lists(r, p) && IsNameOf(p, n);
        var m := ReceiptName(p.bundle);
        assert Authentic(r, m) && r[m].point == p;
        KindsOfNames(p.bundle, 0, "");
        if n != m {
          var i: nat :| i < |p.parts| && n == PartName(p.bundle, i);
          assert PartListed(r, p, i);
        }
      }
    }
    if AllAuthentic(r) {
      forall n | n in r ensures Owned(r, n) {
        if IsReceiptName(n) {
          assert Lists(r, r[n].point) && IsNameOf(r[n].point, n);
        } else if n != OWNER {
          var m, i: nat :| Authentic(r, m) && PartListed(r, r[m].point, i) && n == r[m].point.parts[i].name;
          assert Lists(r, r[m].point) && IsNameOf(r[m].point, n);
        }
      }
    }
  }

  ghost predicate NamedByAny(ps: seq<Point>, n: string) {
    exists k :: 0 <= k < |ps| && IsNameOf(ps[k], n)
  }

  datatype ReadError = Unreadable | Refused

  /** `points`: collect the payloads of all receipts and the names they account for; the
      objects `unfetched` cannot be fetched. */
  method ReadPoints(r: Remote, unfetched: set<string>) returns (o: Outcome<ReadError>, result: seq<Point>)
    // Where every receipt can be fetched it succeeds exactly on authentic listings.
    ensures o.Ok? ==> AllAuthentic(r)
    ensures o == Raised(Refused) ==> !AllAuthentic(r)
    ensures o == Raised(Unreadable) ==> exists n :: n in r && n in unfetched && IsReceiptName(n)
    ensures o.Ok? || o == Raised(Refused) || o == Raised(Unreadable)
    ensures o.Ok? ==> forall p :: p in result <==> exists n :: Authentic(r, n) && r[n].point == p
    ensures AllAuthentic(r) <==> Accepts(r)
    ensures o.Ok? ==> forall p :: p in result <==> Lists(r, p)
    ensures o.Ok? ==> forall i, j :: 0 <= i < j < |result| ==> result[i].bundle != result[j].bundle
  {
    forall p ensures Lists(r, p) <==> exists n :: Authentic(r, n) && r[n].point == p {
      ListedIsAuthentic(r, p);
    }
    AcceptedIsAuthentic(r);
    hide ReceiptOk, IsReceiptName, ReceiptName, PartName, IsNameOf, Authentic, AllAuthentic;
    result := [];
    var owned, pending := {OWNER}, r.Keys;
    ListedIsPresent(r);
    while pending != {}
      invariant pending <= r.Keys
      invariant forall n :: n in r && n !in pending && IsReceiptName(n) ==> ReceiptOk(r, n)
      invariant forall p :: p in result <==> Lists(r, p) && ReceiptName(p.bundle) !in pending
      invariant forall n :: n in owned <==> n == OWNER || NamedByAny(result, n)
      invariant forall i, j :: 0 <= i < j < |result| ==> result[i].bundle != result[j].bundle
      decreases pending
    {
      var name :| name in pending;
      if !IsReceiptName(name) {
        NotReceipt(r, name);
        pending := pending - {name};
        continue;
      }
      if name in unfetched { return Raised(Unreadable), []; }
      if !GoodPayload(name, r[name]) {
        ReceiptsAreGood(r, name);
        return Raised(Refused), [];
      }
      var p := r[name].point;
      var ok, names := CheckParts(r, p);
      if !ok {
        ReceiptsAreGood(r, name);
        return Raised(Refused), [];
      }
      ReceiptFromParts(r, name);
      NewPoint(r, pending, name, result, p);
      pending := pending - {name};
      owned := owned + {name} + names;
      NamesOfMore(result, p, names);
      result := result + [p];
    }
    EverythingListed(r, result, owned);
    if exists n :: n in r && n !in owned {
      return Raised(Refused), [];
    }
    o := Ok;
  }

  /** The inner loop of `points`: every part is listed under its name and size. */
  method CheckParts(r: Remote, p: Point) returns (ok: bool, names: set<string>)
    ensures ok <==> forall i :: 0 <= i < |p.parts| ==> PartListed(r, p, i)
    ensures ok ==> forall n :: n in names <==> exists i: nat :: i < |p.parts| && n == PartName(p.bundle, i)
  {
    hide PartName;
    names := {};
    var i := 0;
    while i < |p.parts|
      invariant 0 <= i <= |p.parts|
      invariant forall k :: 0 <= k < i ==> PartListed(r, p, k)
      invariant forall n :: n in names <==> exists k: nat :: k < i && n == PartName(p.bundle, k)
    {
      var expected := PartName(p.bundle, i);
      if p.parts[i].name != expected || expected !in r || Size(r[expected]) != p.parts[i].bytes {
        assert !PartListed(r, p, i);
        return false, {};
      }
      names := names + {expected};
      i := i + 1;
    }
    ok := true;
  }

  lemma NotReceipt(r: Remote, name: string)
    requires !IsReceiptName(name)
    ensures !ReceiptOk(r, name)
    ensures forall p: Point :: Lists(r, p) ==> ReceiptName(p.bundle) != name
  {
    if name in r && r[name].Receipt? {
      KindsOfNames(r[name].point.bundle, 0, name);
    }
  }

  lemma ReceiptsAreGood(r: Remote, name: string)
    ensures ReceiptOk(r, name) ==>
              && name in r && GoodPayload(name, r[name])
              && (forall i :: 0 <= i < |r[name].point.parts| ==> PartListed(r, r[name].point, i))
  {}

  lemma ListedIsPresent(r: Remote)
    ensures forall p: Point :: Lists(r, p) ==> ReceiptName(p.bundle) in r.Keys
  {}

  lemma ReceiptFromParts(r: Remote, name: string)
    requires name in r && GoodPayload(name, r[name])
    requires forall i :: 0 <= i < |r[name].point.parts| ==> PartListed(r, r[name].point, i)
    ensures ReceiptOk(r, name) && Lists(r, r[name].point) && name == ReceiptName(r[name].point.bundle)
  {}

  lemma NewPoint(r: Remote, pending: set<string>, name: string, result: seq<Point>, p: Point)
    requires name in pending && Lists(r, p) && name == ReceiptName(p.bundle)
    requires forall q :: q in result <==> Lists(r, q) && ReceiptName(q.bundle) !in pending
    ensures forall k :: 0 <= k < |result| ==> result[k].bundle != p.bundle
    ensures forall q :: q in result + [p] <==> Lists(r, q) && ReceiptName(q.bundle) !in pending - {name}
  {
    hide ReceiptOk, ReceiptName;
    forall k | 0 <= k < |result| ensures result[k].bundle != p.bundle {
      assert result[k] in result;
    }
    forall q ensures q in result + [p] <==> Lists(r, q) && ReceiptName(q.bundle) !in pending - {name} {
      if q == p { assert (result + [p])[|result|] == p; }
    }
  }

  lemma NamesOfMore(result: seq<Point>, p: Point, names: set<string>)
    requires forall n :: n in names <==> exists i: nat :: i < |p.parts| && n == PartName(p.bundle, i)
    ensures forall n :: NamedByAny(result + [p], n) <==>
              NamedByAny(result, n) || n == ReceiptName(p.bundle) || n in names
  {
    hide ReceiptName, PartName;
    forall n
      ensures NamedByAny(result + [p], n) <==> NamedByAny(result, n) || n == ReceiptName(p.bundle) || n in names
    {
      var more := result + [p];
      assert more[|result|] == p;
      if NamedByAny(result, n) {
        var k :| 0 <= k < |result| && IsNameOf(result[k], n);
        assert IsNameOf(more[k], n);
      }
      if NamedByAny(more, n) {
        var k :| 0 <= k < |more| && IsNameOf(more[k], n);
        if k < |result| { assert IsNameOf(result[k], n); }
      }
      if n == ReceiptName(p.bundle) || n in names {
        assert IsNameOf(more[|result|], n);
      }
    }
  }

  lemma EverythingListed(r: Remote, result: seq<Point>, owned: set<string>)
    requires forall p :: p in result <==> Lists(r, p)
    requires forall n :: n in owned <==> n == OWNER || NamedByAny(result, n)
    ensures forall n :: n in owned <==> Owned(r, n)
  {
    hide ReceiptOk, IsNameOf;
    forall n ensures n in owned <==> Owned(r, n) {
      if NamedByAny(result, n) {
        var k :| 0 <= k < |result| && IsNameOf(result[k], n);
        assert result[k] in result;
      }
      if n != OWNER && Owned(r, n) {
        var p: Point :| Lists(r, p) && IsNameOf(p, n);
        assert p in result;
        var k :| 0 <= k < |result| && result[k] == p;
        assert IsNameOf(result[k], n);
      }
    }
  }

  // ---------------------------------------------------------------- recoverable points

  /** The bytes of the first `k` parts, one after another. */
  function Fetch(r: Remote, p: Point, k: nat): seq<Byte>
    requires k <= |p.parts|
  {
    if k == 0 then []
    else
      var n := p.parts[k - 1].name;
      Fetch(r, p, k - 1) + (if n in r && r[n].Data? then r[n].bytes else [])
  }

  /** The receipt authenticates, every part is there and intact, and together they are the
      bundle: all that it takes to download, authenticate and decrypt the point. */
  ghost predicate Recoverable(r: Remote, p: Point) {
    && Lists(r, p)
    && (forall i :: 0 <= i < |p.parts| ==>
          && PartListed(r, p, i)
          && r[p.parts[i].name].Data? && Sha256(r[p.parts[i].name].bytes) == p.parts[i].sha)
    && Sha256(Fetch(r, p, |p.parts|)) == p.encryptedSha
  }

  lemma FetchFrame(r: Remote, t: Remote, p: Point, k: nat)
    requires k <= |p.parts|
    requires forall i :: 0 <= i < k ==>
               var n := p.parts[i].name; n in r && n in t && r[n] == t[n]
    ensures Fetch(r, p, k) == Fetch(t, p, k)
  {}

  /** Recoverability depends on nothing but the objects of the point itself. */
  lemma RecoverableFrame(r: Remote, t: Remote, p: Point)
    requires Recoverable(r, p)
    requires forall n :: n in r && IsNameOf(p, n) ==> n in t && t[n] == r[n]
    ensures Recoverable(t, p)
  {
    hide ReceiptName, PartName;
    forall i | 0 <= i < |p.parts|
      ensures p.parts[i].name in r && p.parts[i].name in t && t[p.parts[i].name] == r[p.parts[i].name]
      ensures PartListed(t, p, i)
    {
      assert PartListed(r, p, i);
      assert IsNameOf(p, p.parts[i].name);
    }
    assert IsNameOf(p, ReceiptName(p.bundle));
    FetchFrame(r, t, p, |p.parts|);
  }

  /** Different points own different names. */
  lemma NamesOfPointsDiffer(p: Point, q: Point, n: string)
    requires p.bundle != q.bundle && |p.parts| <= MAX_PARTS && |q.parts| <= MAX_PARTS
    requires IsNameOf(p, n)
    ensures !IsNameOf(q, n)
  {
    if n == ReceiptName(p.bundle) {
      if n == ReceiptName(q.bundle) { ReceiptNamesDiffer(p.bundle, q.bundle); }
      forall j: nat | j < |q.parts| ensures n != PartName(q.bundle, j) {
        KindsOfNames(p.bundle, j, "");
        KindsOfNames(q.bundle, j, "");
      }
    } else {
      var i: nat :| i < |p.parts| && n == PartName(p.bundle, i);
      KindsOfNames(p.bundle, i, "");
      KindsOfNames(q.bundle, i, "");
      forall j: nat | j < |q.parts| ensures n != PartName(q.bundle, j) {
        if n == PartName(q.bundle, j) { PartNamesDiffer(p.bundle, i, q.bundle, j); }
      }
    }
  }

  // ---------------------------------------------------------------- multipart split

  /** Cut a bundle into parts of `size` bytes, the last one possibly shorter. */
  function Chunks(data: seq<Byte>, size: nat): seq<seq<Byte>>
    requires size > 0
    decreases |data|
  {
    if data == [] then []
    else if |data| <= size then [data]
    else [data[..size]] + Chunks(data[size..], size)
  }

  lemma {:induction false} ChunksConcat(data: seq<Byte>, size: nat)
    requires size > 0
    ensures Flatten(Chunks(data, size)) == data
    decreases |data|
  {
    if data != [] && |data| > size {
      ChunksConcat(data[size..], size);
      assert ([data[..size]] + Chunks(data[size..], size))[1..] == Chunks(data[size..], size);
      assert data[..size] + data[size..] == data;
    } else if data != [] {
      assert [data][1..] == [];
      assert Flatten([data]) == data + Flatten([]);
    }
  }

  /** Every part is non-empty and no larger than `size`, all but the last are full, and
      their number is the length divided by `size`, rounded up. */
  lemma {:induction false} ChunkSizes(data: seq<Byte>, size: nat)
    requires size > 0
    ensures forall i :: 0 <= i < |Chunks(data, size)| ==> 1 <= |Chunks(data, size)[i]| <= size
    ensures forall i :: 0 <= i < |Chunks(data, size)| - 1 ==> |Chunks(data, size)[i]| == size
    ensures (|Chunks(data, size)| - 1) * size < |data| <= |Chunks(data, size)| * size || data == []
    ensures data == [] <==> Chunks(data, size) == []
    decreases |data|
  {
    if data != [] && |data| > size {
      var rest := Chunks(data[size..], size);
      ChunkSizes(data[size..], size);
      assert Chunks(data, size) == [data[..size]] + rest;
      assert (|rest| + 1) * size == |rest| * size + size;
      assert (|rest| - 1) * size + size == |rest| * size;
    }
  }

  /** The quota gate bounds the number of parts by what a receipt may list. */
  lemma GateBoundsParts(data: seq<Byte>, present: nat, cap: nat)
    requires present + |data| + RECEIPT_RESERVE <= cap <= LIMIT
    ensures |Chunks(data, PART)| <= MAX_PARTS
  {
    ChunkSizes(data, PART);
  }

  // ---------------------------------------------------------------- bytes in use

  ghost function Total(r: Remote): nat
    decreases |r|
  {
    if r == map[] then 0
    else
      var n :| n in r;
      Size(r[n]) + Total(r - {n})
  }

  lemma {:induction false} TotalWithout(r: Remote, n: string)
    requires n in r
    ensures Total(r) == Size(r[n]) + Total(r - {n})
    decreases |r|
  {
    var m :| m in r && Total(r) == Size(r[m]) + Total(r - {m});
    if m != n {
      TotalWithout(r - {m}, n);
      TotalWithout(r - {n}, m);
      assert r - {m} - {n} == r - {n} - {m};
    }
  }

  lemma TotalWith(r: Remote, n: string, b: Blob)
    requires n !in r
    ensures Total(r[n := b]) == Total(r) + Size(b)
  {
    TotalWithout(r[n := b], n);
    assert r[n := b] - {n} == r;
  }

  lemma TotalRenamed(r: Remote, a: string, b: string)
    requires a in r && b !in r && a != b
    ensures Total((r - {a})[b := r[a]]) == Total(r)
  {
    TotalWithout(r, a);
    TotalWith(r - {a}, b, r[a]);
  }
}
