/**
 Retention: the order in which old points are looked at, which of them are kept, and
 when that leaves no more than the two points that receipts announce as the maximum.
 */
module OffsiteRetention {
  import opened OffsitePoints
  import opened OffsiteState

  // ---------------------------------------------------------------- newest first

  function InsertByTime(p: Point, sorted: seq<Point>): seq<Point> {
    if sorted == [] || p.backupAt >= sorted[0].backupAt then [p] + sorted
    else [sorted[0]] + InsertByTime(p, sorted[1..])
  }

  /** `existing.sort(key=backupAt, reverse=True)`. */
  function NewestFirst(ps: seq<Point>): seq<Point> {
    if ps == [] then [] else InsertByTime(ps[0], NewestFirst(ps[1..]))
  }

  predicate Descending(ps: seq<Point>) {
    forall i, j :: 0 <= i < j < |ps| ==> ps[i].backupAt >= ps[j].backupAt
  }

  lemma ConsDescends(p: Point, sorted: seq<Point>)
    requires Descending(sorted) && forall q :: q in sorted ==> p.backupAt >= q.backupAt
    ensures Descending([p] + sorted)
  {
    var all := [p] + sorted;
    forall i, j | 0 <= i < j < |all| ensures all[i].backupAt >= all[j].backupAt {
      assert all[j] == sorted[j - 1] && all[j] in sorted;
      assert i > 0 ==> all[i] == sorted[i - 1];
    }
  }

  lemma {:induction false} InsertPermutes(p: Point, sorted: seq<Point>)
    ensures multiset(InsertByTime(p, sorted)) == multiset(sorted) + multiset{p}
    ensures forall q :: q in InsertByTime(p, sorted) ==> q == p || q in sorted
  {
    if sorted != [] && p.backupAt < sorted[0].backupAt {
      assert sorted == [sorted[0]] + sorted[1..];
      InsertPermutes(p, sorted[1..]);
    }
  }

  lemma {:induction false} InsertDescends(p: Point, sorted: seq<Point>)
    requires Descending(sorted)
    ensures Descending(InsertByTime(p, sorted))
  {
    if sorted == [] || p.backupAt >= sorted[0].backupAt {
      ConsDescends(p, sorted);
    } else {
      InsertDescends(p, sorted[1..]);
      InsertPermutes(p, sorted[1..]);
      ConsDescends(sorted[0], InsertByTime(p, sorted[1..]));
    }
  }

  lemma {:induction false} NewestFirstSorts(ps: seq<Point>)
    ensures Descending(NewestFirst(ps))
    ensures multiset(NewestFirst(ps)) == multiset(ps)
  {
    if ps != [] {
      assert ps == [ps[0]] + ps[1..];
      NewestFirstSorts(ps[1..]);
      InsertDescends(ps[0], NewestFirst(ps[1..]));
      InsertPermutes(ps[0], NewestFirst(ps[1..]));
    }
  }

  lemma {:induction false} DistinctBundlesSurvive(a: seq<Point>, b: seq<Point>)
    requires multiset(a) == multiset(b)
    requires forall i, j :: 0 <= i < j < |a| ==> a[i].bundle != a[j].bundle
    ensures forall q: Point :: q in a <==> q in b
    ensures forall i, j :: 0 <= i < j < |b| ==> b[i].bundle != b[j].bundle
  {
    forall q: Point ensures q in a <==> q in b {
      assert q in a <==> q in multiset(a);
      assert q in b <==> q in multiset(b);
    }
    forall i, j | 0 <= i < j < |b| ensures b[i].bundle != b[j].bundle {
      if b[i].bundle == b[j].bundle {
        assert b[i] in a && b[j] in a;
        var k :| 0 <= k < |a| && a[k] == b[i];
        var l :| 0 <= l < |a| && a[l] == b[j];
        assert k == l;
        TwiceInMultiset(b, i, j);
        OnceInMultiset(a, k);
      }
    }
  }

  lemma TwiceInMultiset(s: seq<Point>, i: nat, j: nat)
    requires i < j < |s| && s[i] == s[j]
    ensures multiset(s)[s[i]] >= 2
  {
    assert s == s[..j] + [s[j]] + s[j + 1..];
    assert s[..j][i] == s[i];
  }

  lemma OnceInMultiset(s: seq<Point>, k: nat)
    requires k < |s| && forall i, j :: 0 <= i < j < |s| ==> s[i].bundle != s[j].bundle
    ensures multiset(s)[s[k]] == 1
  {
    assert s == s[..k] + [s[k]] + s[k + 1..];
    assert s[k] !in s[..k] && s[k] !in s[k + 1..];
  }

  // ---------------------------------------------------------------- what is kept

  /** Retention keeps the new point, and of the others the two newest inside the cutoff. */
  lemma KeptExactly(full: Remote, p: Point, order: seq<Point>, cutoff: int)
    requires OrderOf(full, order) && Lists(full, p)
    ensures forall i: nat :: i < |order| ==>
              (!Dropped(order, i, p.bundle, cutoff) <==> order[i] == p || (i < 2 && order[i].backupAt >= cutoff))
  {
    hide Lists;
    assert p in order;
    var k :| 0 <= k < |order| && order[k] == p;
    forall i: nat | i < |order|
      ensures !Dropped(order, i, p.bundle, cutoff) <==> order[i] == p || (i < 2 && order[i].backupAt >= cutoff)
    {
      assert order[i].bundle == p.bundle ==> i == k;
    }
  }

  // ---------------------------------------------------------------- how many are kept

  ghost predicate AtMostTwoKept(order: seq<Point>, b: string, cutoff: int) {
    forall i: nat, j: nat, l: nat :: i < j < l < |order| ==>
      Dropped(order, i, b, cutoff) || Dropped(order, j, b, cutoff) || Dropped(order, l, b, cutoff)
  }

  /** At most two points are kept exactly when the new one sorts among the first two or
      the second of the order is outside the cutoff. */
  lemma AtMostTwoKeptIff(order: seq<Point>, k: nat, b: string, cutoff: int)
    requires Descending(order) && k < |order| && order[k].bundle == b
    requires forall i, j :: 0 <= i < j < |order| ==> order[i].bundle != order[j].bundle
    ensures AtMostTwoKept(order, b, cutoff) <==> k < 2 || order[1].backupAt < cutoff
  {
    if k >= 2 && order[1].backupAt >= cutoff {
      assert order[0].backupAt >= order[1].backupAt;
      assert !Dropped(order, 0, b, cutoff) && !Dropped(order, 1, b, cutoff) && !Dropped(order, k, b, cutoff);
    }
  }

  const ID_A := "manifest-vps-a"
  const ID_B := "manifest-vps-b"
  const ID_C := "manifest-vps-c"

  function SamplePoint(name: string, at: int): Point {
    Point(name, BundleName(name), at, Sha256([]), [], true, true, true)
  }

  /** The announced maximum of two can be exceeded: a new point older than two others that
      are inside the cutoff is kept with both of them. */
  lemma ThreeCanBeKept()
    ensures var order := [SamplePoint(ID_C, 3), SamplePoint(ID_B, 2), SamplePoint(ID_A, 1)];
            && Descending(order)
            && (forall i: nat :: i < 3 ==> !Dropped(order, i, BundleName(ID_A), 0))
            && !AtMostTwoKept(order, BundleName(ID_A), 0)
  {
    var order := [SamplePoint(ID_C, 3), SamplePoint(ID_B, 2), SamplePoint(ID_A, 1)];
    assert !Dropped(order, 0, BundleName(ID_A), 0) && !Dropped(order, 1, BundleName(ID_A), 0);
    assert !Dropped(order, 2, BundleName(ID_A), 0);
  }

  /** A listed point of the same time as the new one may sort before or after it, and that
      alone decides whether two or three are kept. */
  lemma TieGoesEitherWay()
    ensures var c, b, a := SamplePoint(ID_C, 3), SamplePoint(ID_B, 1), SamplePoint(ID_A, 1);
            && Descending([c, b, a]) && !AtMostTwoKept([c, b, a], BundleName(ID_A), 0)
            && Descending([c, a, b]) && AtMostTwoKept([c, a, b], BundleName(ID_A), 0)
  {
    var c, b, a := SamplePoint(ID_C, 3), SamplePoint(ID_B, 1), SamplePoint(ID_A, 1);
    SamplesDiffer();
    AtMostTwoKeptIff([c, b, a], 2, BundleName(ID_A), 0);
    AtMostTwoKeptIff([c, a, b], 1, BundleName(ID_A), 0);
  }

  lemma SamplesDiffer()
    ensures BundleName(ID_A) != BundleName(ID_B) && BundleName(ID_B) != BundleName(ID_C)
    ensures BundleName(ID_A) != BundleName(ID_C)
  {
    assert BundleName(ID_A)[20] == 'a' && BundleName(ID_B)[20] == 'b' && BundleName(ID_C)[20] == 'c';
  }

  ghost predicate AtMostTwo(r: Remote) {
    forall a: Point, b: Point, c: Point :: Lists(r, a) && Lists(r, b) && Lists(r, c) ==> a == b || b == c || a == c
  }

  /** Two listed points inside the cutoff are newer than `at`. */
  ghost predicate TwoAhead(base: Remote, at: int, cutoff: int) {
    exists a: Point, b: Point :: a != b && Ahead(base, a, at, cutoff) && Ahead(base, b, at, cutoff)
  }

  ghost predicate Ahead(base: Remote, q: Point, at: int, cutoff: int) {
    Lists(base, q) && q.backupAt > at && q.backupAt >= cutoff
  }

  /** The same, counting points of that very time. */
  ghost predicate TwoLevel(base: Remote, at: int, cutoff: int) {
    exists a: Point, b: Point :: a != b && Level(base, a, at, cutoff) && Level(base, b, at, cutoff)
  }

  ghost predicate Level(base: Remote, q: Point, at: int, cutoff: int) {
    Lists(base, q) && q.backupAt >= at && q.backupAt >= cutoff
  }

  ghost predicate Untied(base: Remote, at: int) {
    forall q: Point :: Lists(base, q) ==> q.backupAt != at
  }

  /** When a publication of a point of time `at` keeps to two points, read off the listing
      before it: with no tie exactly when fewer than two listed points inside the cutoff
      are newer.  A tie is broken by the order of the listing, either way. */
  ghost predicate BoundDecided(base: Remote, t: Remote, at: int, cutoff: int) {
    && (TwoAhead(base, at, cutoff) ==> !AtMostTwo(t))
    && (!AtMostTwo(t) ==> TwoLevel(base, at, cutoff))
    && (Untied(base, at) ==> (AtMostTwo(t) <==> !TwoAhead(base, at, cutoff)))
  }

  /** The listing after retention holds the points kept. */
  ghost predicate ListsKept(t: Remote, order: seq<Point>, b: string, cutoff: int) {
    forall q: Point :: Lists(t, q) <==> exists i: nat :: i < |order| && order[i] == q && !Dropped(order, i, b, cutoff)
  }

  lemma KeptBoundsListing(t: Remote, order: seq<Point>, b: string, cutoff: int)
    requires ListsKept(t, order, b, cutoff)
    requires forall i, j :: 0 <= i < j < |order| ==> order[i].bundle != order[j].bundle
    ensures AtMostTwo(t) <==> AtMostTwoKept(order, b, cutoff)
  {
    hide Lists, Dropped, AtMostTwo;
    if !AtMostTwoKept(order, b, cutoff) {
      var i: nat, j: nat, l: nat :| i < j < l < |order|
        && !Dropped(order, i, b, cutoff) && !Dropped(order, j, b, cutoff) && !Dropped(order, l, b, cutoff);
      ThreeListed(t, order, b, cutoff, i, j, l);
    }
    ThreeKept(t, order, b, cutoff);
  }

  lemma ThreeListed(t: Remote, order: seq<Point>, b: string, cutoff: int, i: nat, j: nat, l: nat)
    requires ListsKept(t, order, b, cutoff) && i < j < l < |order|
    requires order[i] != order[j] && order[j] != order[l] && order[i] != order[l]
    requires !Dropped(order, i, b, cutoff) && !Dropped(order, j, b, cutoff) && !Dropped(order, l, b, cutoff)
    ensures !AtMostTwo(t)
  {
    hide Lists, Dropped;
    assert Lists(t, order[i]) && Lists(t, order[j]) && Lists(t, order[l]);
  }

  lemma ThreeKept(t: Remote, order: seq<Point>, b: string, cutoff: int)
    requires ListsKept(t, order, b, cutoff)
    ensures AtMostTwoKept(order, b, cutoff) ==> AtMostTwo(t)
  {
    hide Lists, Dropped;
    if AtMostTwoKept(order, b, cutoff) {
      hide AtMostTwoKept;
      forall x: Point, y: Point, z: Point | Lists(t, x) && Lists(t, y) && Lists(t, z)
        ensures x == y || y == z || x == z
      {
        var i: nat :| i < |order| && order[i] == x && !Dropped(order, i, b, cutoff);
        var j: nat :| j < |order| && order[j] == y && !Dropped(order, j, b, cutoff);
        var l: nat :| l < |order| && order[l] == z && !Dropped(order, l, b, cutoff);
        NoThreeKept(order, b, cutoff, i, j, l);
      }
    }
  }

  lemma NoThreeKept(order: seq<Point>, b: string, cutoff: int, i: nat, j: nat, l: nat)
    requires AtMostTwoKept(order, b, cutoff) && i < |order| && j < |order| && l < |order|
    requires !Dropped(order, i, b, cutoff) && !Dropped(order, j, b, cutoff) && !Dropped(order, l, b, cutoff)
    ensures i == j || j == l || i == l
  {
    hide Dropped;
  }

  lemma OrderDecides(base: Remote, p: Point, order: seq<Point>, k: nat, cutoff: int)
    requires Descending(order) && k < |order| && order[k] == p
    requires forall i, j :: 0 <= i < j < |order| ==> order[i].bundle != order[j].bundle
    requires forall q: Point :: q in order <==> Lists(base, q) || q == p
    ensures TwoAhead(base, p.backupAt, cutoff) ==> k >= 2 && order[1].backupAt >= cutoff
    ensures k >= 2 && order[1].backupAt >= cutoff ==> TwoLevel(base, p.backupAt, cutoff)
  {
    hide Lists;
    if TwoAhead(base, p.backupAt, cutoff) {
      var a: Point, b: Point :| a != b && Ahead(base, a, p.backupAt, cutoff) && Ahead(base, b, p.backupAt, cutoff);
      assert a in order && b in order;
      var i: nat :| i < |order| && order[i] == a;
      var j: nat :| j < |order| && order[j] == b;
      assert i < k && j < k && i != j;
      var later := if i < j then j else i;
      assert later == 1 || order[1].backupAt >= order[later].backupAt;
    }
    if k >= 2 && order[1].backupAt >= cutoff {
      assert order[0] in order && order[1] in order;
      assert order[0].bundle != order[1].bundle && order[0].bundle != p.bundle && order[1].bundle != p.bundle;
      assert Level(base, order[0], p.backupAt, cutoff) && Level(base, order[1], p.backupAt, cutoff);
    }
  }

  /** The bound, decided before the publication. */
  lemma BoundIsDecided(base: Remote, t: Remote, p: Point, order: seq<Point>, cutoff: int)
    requires Descending(order)
    requires forall i, j :: 0 <= i < j < |order| ==> order[i].bundle != order[j].bundle
    requires forall q: Point :: q in order <==> Lists(base, q) || q == p
    requires ListsKept(t, order, p.bundle, cutoff)
    ensures BoundDecided(base, t, p.backupAt, cutoff)
  {
    hide Lists, Dropped, Descending, AtMostTwoKept;
    assert p in order;
    var k: nat :| k < |order| && order[k] == p;
    KeptBoundsListing(t, order, p.bundle, cutoff);
    AtMostTwoKeptIff(order, k, p.bundle, cutoff);
    OrderDecides(base, p, order, k, cutoff);
    LevelIsAhead(base, p.backupAt, cutoff);
  }

  lemma LevelIsAhead(base: Remote, at: int, cutoff: int)
    ensures Untied(base, at) && TwoLevel(base, at, cutoff) ==> TwoAhead(base, at, cutoff)
  {
    hide Lists;
    if Untied(base, at) && TwoLevel(base, at, cutoff) {
      var a: Point, b: Point :| a != b && Level(base, a, at, cutoff) && Level(base, b, at, cutoff);
      assert Ahead(base, a, at, cutoff) && Ahead(base, b, at, cutoff);
    }
  }
}
