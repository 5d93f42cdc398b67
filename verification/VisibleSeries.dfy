/** Clipping the segments of a series to the visible window. */
module VisibleSeries {

  import opened Sequences
  import opened Series

  // ---------------------------------------------------------------- chords

  function Interpolate(a: Point, b: Point, at: real): Point
    requires a.at < b.at
  {
    Point(at, a.value + (b.value - a.value) * ((at - a.at) / (b.at - a.at)))
  }

  /** p lies on the straight line from a to b. */
  predicate OnChord(a: Point, b: Point, p: Point) {
    a.at < b.at && a.at <= p.at <= b.at && p == Interpolate(a, b, p.at)
  }

  lemma EndsAreOnChord(a: Point, b: Point)
    requires a.at < b.at
    ensures Interpolate(a, b, a.at) == a && Interpolate(a, b, b.at) == b
  {
    assert (b.at - a.at) / (b.at - a.at) == 1.0;
    assert (a.at - a.at) / (b.at - a.at) == 0.0;
  }

  /** A drawn point never exceeds the readings it lies between. */
  lemma ChordStaysBetween(a: Point, b: Point, p: Point)
    requires OnChord(a, b, p)
    ensures a.value <= b.value ==> a.value <= p.value <= b.value
    ensures b.value <= a.value ==> b.value <= p.value <= a.value
  {
    var t := (p.at - a.at) / (b.at - a.at);
    FractionIsUnit(p.at - a.at, b.at - a.at);
    var rise := b.value - a.value;
    assert p.value == a.value + rise * t;
    Scale(rise, t);
  }

  lemma FractionIsUnit(n: real, d: real)
    requires 0.0 <= n <= d && d > 0.0
    ensures 0.0 <= n / d <= 1.0
  {}

  lemma Scale(x: real, t: real)
    requires 0.0 <= t <= 1.0
    ensures x >= 0.0 ==> 0.0 <= x * t <= x
    ensures x <= 0.0 ==> x <= x * t <= 0.0
  {}

  // ---------------------------------------------------------------- clipping one segment

  ghost predicate Rising(points: seq<Point>) {
    forall i, j :: 0 <= i < j < |points| ==> points[i].at < points[j].at
  }

  predicate ChordHas(seg: seq<Point>, i: int, p: Point) {
    0 < i < |seg| && OnChord(seg[i - 1], seg[i], p)
  }

  ghost predicate SameChord(seg: seq<Point>, p: Point, q: Point) {
    exists i :: ChordHas(seg, i, p) && ChordHas(seg, i, q)
  }

  function Max(x: real, y: real): real {
    if x < y then y else x
  }

  function Min(x: real, y: real): real {
    if x > y then y else x
  }

  /** Nothing is drawn but the curve of the segment inside the window. */
  ghost predicate OnCurve(seg: seq<Point>, left: real, right: real, drawn: seq<Point>) {
    && Rising(drawn)
    && (forall k :: 0 <= k < |drawn| ==> left <= drawn[k].at <= right)
    && (forall k :: 0 <= k < |drawn| ==> drawn[k] in seg || drawn[k].at == left || drawn[k].at == right)
    && (forall k :: 0 <= k < |drawn| ==> SameChord(seg, drawn[k], drawn[k]))
    && (forall k :: 0 < k < |drawn| ==> SameChord(seg, drawn[k - 1], drawn[k]))
  }

  /** Some stretch of chord i is inside the window. */
  predicate Overlaps(seg: seq<Point>, i: int, left: real, right: real) {
    0 < i < |seg| && Max(seg[i - 1].at, left) < Min(seg[i].at, right)
  }

  /** Points k - 1 and k draw all of chord i that is inside the window. */
  predicate Spans(seg: seq<Point>, i: int, left: real, right: real, drawn: seq<Point>, k: int) {
    && 0 < i < |seg| && 0 < k < |drawn|
    && drawn[k - 1].at == Max(seg[i - 1].at, left) && drawn[k].at == Min(seg[i].at, right)
  }

  /** The curve of the first n points is drawn wherever it is inside the window. */
  ghost predicate Covers(seg: seq<Point>, n: nat, left: real, right: real, drawn: seq<Point>)
    requires n <= |seg|
  {
    && (n >= 2 ==> forall i :: 0 <= i < n && left <= seg[i].at <= right ==> seg[i] in drawn)
    && forall i :: i < n && Overlaps(seg, i, left, right) ==> exists k :: Spans(seg, i, left, right, drawn, k)
  }

  /** Where the drawing of the first n points stopped. */
  ghost predicate Reached(seg: seq<Point>, n: nat, left: real, right: real, drawn: seq<Point>)
    requires 1 <= n <= |seg|
  {
    if drawn == [] then n == 1 || seg[n - 1].at < left || seg[0].at > right
    else
      && n >= 2 && seg[n - 1].at >= left
      && drawn[|drawn| - 1].at == Min(seg[n - 1].at, right)
      && (seg[n - 1].at <= right ==> drawn[|drawn| - 1] == seg[n - 1])
  }

  /** The loop over the chords of a segment of several points. */
  method Clip(seg: seq<Point>, left: real, right: real) returns (clipped: seq<Point>)
    requires Rising(seg) && |seg| >= 2 && left < right
    ensures OnCurve(seg, left, right, clipped)
    ensures Covers(seg, |seg|, left, right, clipped)
  {
    clipped := [];
    for n := 1 to |seg|
      invariant OnCurve(seg, left, right, clipped)
      invariant Covers(seg, n, left, right, clipped)
      invariant Reached(seg, n, left, right, clipped)
    {
      hide OnCurve, Covers, Reached, Interpolate;
      var a, b := seg[n - 1], seg[n];
      assert a.at < b.at;
      ghost var before := clipped;
      if b.at < left || a.at > right {
        PassBy(seg, n, left, right, clipped);
      } else {
        var start := if a.at < left then Interpolate(a, b, left) else a;
        var end := if b.at > right then Interpolate(a, b, right) else b;
        if clipped == [] || clipped[|clipped| - 1].at != start.at {
          clipped := clipped + [start];
        }
        Enter(seg, n, left, right, before);
        ghost var entered := clipped;
        if clipped[|clipped| - 1].at != end.at {
          clipped := clipped + [end];
        }
        Leave(seg, n, left, right, entered);
      }
    }
  }

  lemma PassBy(seg: seq<Point>, n: nat, left: real, right: real, drawn: seq<Point>)
    requires Rising(seg) && 1 <= n < |seg| && left < right
    requires OnCurve(seg, left, right, drawn) && Covers(seg, n, left, right, drawn)
    requires Reached(seg, n, left, right, drawn)
    requires seg[n].at < left || seg[n - 1].at > right
    ensures Covers(seg, n + 1, left, right, drawn) && Reached(seg, n + 1, left, right, drawn)
  {
    assert seg[0].at <= seg[n - 1].at < seg[n].at;
    assert drawn != [] ==> left <= drawn[|drawn| - 1].at;
  }

  /** p continues the drawing along chord i. */
  lemma Extend(seg: seq<Point>, i: int, left: real, right: real, drawn: seq<Point>, p: Point)
    requires OnCurve(seg, left, right, drawn) && ChordHas(seg, i, p) && left <= p.at <= right
    requires p in seg || p.at == left || p.at == right
    requires drawn != [] ==> ChordHas(seg, i, drawn[|drawn| - 1]) && drawn[|drawn| - 1].at < p.at
    ensures OnCurve(seg, left, right, drawn + [p])
  {
    hide OnChord;
    var more := drawn + [p];
    assert SameChord(seg, p, p);
    forall x, y | 0 <= x < y < |more| ensures more[x].at < more[y].at {
      assert x < |drawn| - 1 && y == |drawn| ==> drawn[x].at < drawn[|drawn| - 1].at;
    }
    forall k | 0 < k < |more| ensures SameChord(seg, more[k - 1], more[k]) {
      if k == |drawn| {
        assert ChordHas(seg, i, more[k - 1]) && ChordHas(seg, i, more[k]);
      } else {
        assert SameChord(seg, drawn[k - 1], drawn[k]);
      }
    }
  }

  lemma CoversMore(seg: seq<Point>, n: nat, left: real, right: real, drawn: seq<Point>, p: Point)
    requires n <= |seg| && Covers(seg, n, left, right, drawn)
    ensures Covers(seg, n, left, right, drawn + [p])
  {
    forall i | i < n && Overlaps(seg, i, left, right) ensures exists k :: Spans(seg, i, left, right, drawn + [p], k) {
      var k :| Spans(seg, i, left, right, drawn, k);
      assert Spans(seg, i, left, right, drawn + [p], k);
    }
  }

  /** Where chord n enters the window, as the drawing's last point. */
  ghost predicate Entered(seg: seq<Point>, n: nat, left: real, drawn: seq<Point>)
    requires 1 <= n < |seg|
  {
    && drawn != [] && drawn[|drawn| - 1].at == Max(seg[n - 1].at, left)
    && ChordHas(seg, n, drawn[|drawn| - 1])
    && (seg[n - 1].at >= left ==> drawn[|drawn| - 1] == seg[n - 1])
  }

  lemma Enter(seg: seq<Point>, n: nat, left: real, right: real, drawn: seq<Point>)
    requires Rising(seg) && 1 <= n < |seg| && left < right
    requires OnCurve(seg, left, right, drawn) && Covers(seg, n, left, right, drawn)
    requires Reached(seg, n, left, right, drawn)
    requires seg[n - 1].at < seg[n].at && seg[n].at >= left && seg[n - 1].at <= right
    ensures var a := seg[n - 1];
            var start := if a.at < left then Interpolate(a, seg[n], left) else a;
            var more := if drawn == [] || drawn[|drawn| - 1].at != start.at then drawn + [start] else drawn;
            && OnCurve(seg, left, right, more) && Covers(seg, n, left, right, more)
            && Entered(seg, n, left, more)
  {
    var a, b := seg[n - 1], seg[n];
    var start := if a.at < left then Interpolate(a, b, left) else a;
    EndsAreOnChord(a, b);
    hide Interpolate;
    assert ChordHas(seg, n, start);
    if drawn == [] {
      Extend(seg, n, left, right, drawn, start);
      CoversMore(seg, n, left, right, drawn, start);
    }
  }

  lemma Leave(seg: seq<Point>, n: nat, left: real, right: real, drawn: seq<Point>)
    requires Rising(seg) && 1 <= n < |seg| && left < right
    requires OnCurve(seg, left, right, drawn) && Covers(seg, n, left, right, drawn) && Entered(seg, n, left, drawn)
    requires seg[n - 1].at < seg[n].at && seg[n].at >= left && seg[n - 1].at <= right
    ensures var b := seg[n];
            var end := if b.at > right then Interpolate(seg[n - 1], b, right) else b;
            var more := if drawn[|drawn| - 1].at != end.at then drawn + [end] else drawn;
            && OnCurve(seg, left, right, more)
            && Covers(seg, n + 1, left, right, more) && Reached(seg, n + 1, left, right, more)
  {
    var end := if seg[n].at > right then Interpolate(seg[n - 1], seg[n], right) else seg[n];
    var last := drawn[|drawn| - 1];
    EndIsOnChord(seg, n, right, last, end);
    hide Interpolate, OnCurve, Covers, OnChord, Rising, Reached;
    if last.at != end.at {
      Push(seg, n, left, right, drawn, end);
      Arrive(seg, n, left, right, drawn, drawn + [end], end);
    } else {
      Arrive(seg, n, left, right, drawn, drawn, end);
    }
  }

  lemma Push(seg: seq<Point>, n: nat, left: real, right: real, drawn: seq<Point>, end: Point)
    requires 1 <= n < |seg| && left < right
    requires OnCurve(seg, left, right, drawn) && Covers(seg, n, left, right, drawn) && Entered(seg, n, left, drawn)
    requires seg[n].at >= left && seg[n - 1].at <= right && seg[n - 1].at < seg[n].at
    requires ChordHas(seg, n, end) && end.at == Min(seg[n].at, right) && (end in seg || end.at == right)
    requires drawn[|drawn| - 1].at != end.at
    ensures var more := drawn + [end];
            && OnCurve(seg, left, right, more) && Covers(seg, n, left, right, more)
            && Spans(seg, n, left, right, more, |drawn|)
  {
    hide OnCurve, Covers, ChordHas;
    Extend(seg, n, left, right, drawn, end);
    CoversMore(seg, n, left, right, drawn, end);
  }

  lemma Arrive(seg: seq<Point>, n: nat, left: real, right: real, drawn: seq<Point>, more: seq<Point>, end: Point)
    requires 1 <= n < |seg| && left < right && Entered(seg, n, left, drawn) && Covers(seg, n, left, right, more)
    requires drawn <= more && more[|more| - 1] == end
    requires end.at == Min(seg[n].at, right) && (seg[n].at <= right ==> end == seg[n])
    requires seg[n].at >= left && seg[n - 1].at <= right
    requires Overlaps(seg, n, left, right) ==> exists k :: Spans(seg, n, left, right, more, k)
    ensures Covers(seg, n + 1, left, right, more) && Reached(seg, n + 1, left, right, more)
  {
    hide Covers, ChordHas;
    FirstStays(seg, n, left, right, drawn, more);
    assert end in more;
    CoversNext(seg, n, left, right, more);
  }

  lemma EndIsOnChord(seg: seq<Point>, n: nat, right: real, last: Point, end: Point)
    requires 1 <= n < |seg| && ChordHas(seg, n, last)
    requires seg[n - 1].at <= right
    requires end == if seg[n].at > right then Interpolate(seg[n - 1], seg[n], right) else seg[n]
    ensures ChordHas(seg, n, end) && end.at == Min(seg[n].at, right)
    ensures last.at == end.at ==> last == end
  {
    EndsAreOnChord(seg[n - 1], seg[n]);
  }

  /** A reading at the start of chord n is drawn. */
  lemma FirstStays(seg: seq<Point>, n: nat, left: real, right: real, drawn: seq<Point>, more: seq<Point>)
    requires 1 <= n < |seg| && Entered(seg, n, left, drawn)
    requires drawn <= more
    ensures seg[n - 1].at >= left ==> seg[n - 1] in more
  {
    assert drawn[|drawn| - 1] in more;
  }

  lemma CoversNext(seg: seq<Point>, n: nat, left: real, right: real, drawn: seq<Point>)
    requires 1 <= n < |seg| && Covers(seg, n, left, right, drawn)
    requires left <= seg[n - 1].at <= right ==> seg[n - 1] in drawn
    requires left <= seg[n].at <= right ==> seg[n] in drawn
    requires Overlaps(seg, n, left, right) ==> exists k :: Spans(seg, n, left, right, drawn, k)
    ensures Covers(seg, n + 1, left, right, drawn)
  {}

  // ---------------------------------------------------------------- the whole series

  /** What one segment contributes. */
  ghost predicate DrawnFrom(seg: seq<Point>, left: real, right: real, drawn: seq<Point>) {
    if |seg| == 1 then drawn == if left <= seg[0].at <= right then seg else []
    else OnCurve(seg, left, right, drawn) && Covers(seg, |seg|, left, right, drawn)
  }

  ghost predicate DrawnFromSome(segments: seq<seq<Point>>, left: real, right: real, drawn: seq<Point>) {
    exists j :: 0 <= j < |segments| && DrawnFrom(segments[j], left, right, drawn)
  }

  ghost predicate Shown(seg: seq<Point>, left: real, right: real, visible: seq<seq<Point>>) {
    exists drawn :: DrawnFrom(seg, left, right, drawn) && (drawn == [] || drawn in visible)
  }

  /** p lies on the chord that ends at sample i. */
  ghost predicate OnJoin(history: seq<Sample>, key: string, i: int, p: Point) {
    && Joined(history, key, MAX_SAMPLE_GAP_MS, i)
    && OnChord(PointOf(history[i - 1], key), PointOf(history[i], key), p)
  }

  ghost predicate IsReading(history: seq<Sample>, key: string, i: int, p: Point) {
    0 <= i < |history| && HasReading(history[i], key) && p == PointOf(history[i], key)
  }

  /** p is a reading, or the point where an edge of the window cuts a chord. */
  ghost predicate Genuine(history: seq<Sample>, key: string, left: real, right: real, p: Point) {
    || (exists i :: IsReading(history, key, i, p))
    || ((p.at == left || p.at == right) && OneJoin(history, key, p, p))
  }

  /** p and q lie on one chord, so nothing between them is a gap. */
  ghost predicate OneJoin(history: seq<Sample>, key: string, p: Point, q: Point) {
    exists i :: OnJoin(history, key, i, p) && OnJoin(history, key, i, q)
  }

  /** A drawn piece: in the window, rising, never across a gap, and made of readings
      except where the window cuts a chord. */
  ghost predicate Faithful(history: seq<Sample>, key: string, left: real, right: real, drawn: seq<Point>) {
    && drawn != [] && Rising(drawn)
    && (forall k :: 0 <= k < |drawn| ==> left <= drawn[k].at <= right)
    && (forall k :: 0 <= k < |drawn| ==> Genuine(history, key, left, right, drawn[k]))
    && (forall k :: 0 < k < |drawn| ==> OneJoin(history, key, drawn[k - 1], drawn[k]))
  }

  /** A stretch of the chord that ends at sample i is inside the window. */
  ghost predicate JoinOverlaps(history: seq<Sample>, key: string, i: int, left: real, right: real) {
    && Joined(history, key, MAX_SAMPLE_GAP_MS, i)
    && Max(history[i - 1].at, left) < Min(history[i].at, right)
  }

  ghost predicate DrawsJoin(history: seq<Sample>, i: int, left: real, right: real, drawn: seq<Point>, k: int) {
    && 0 < i < |history| && 0 < k < |drawn|
    && drawn[k - 1].at == Max(history[i - 1].at, left) && drawn[k].at == Min(history[i].at, right)
  }

  /** Nothing inside the window is left out. */
  ghost predicate Complete(history: seq<Sample>, key: string, left: real, right: real, visible: seq<seq<Point>>) {
    && (forall i :: 0 <= i < |history| && HasReading(history[i], key) && left <= history[i].at <= right ==>
          exists drawn :: drawn in visible && PointOf(history[i], key) in drawn)
    && (forall i :: JoinOverlaps(history, key, i, left, right) ==>
          exists drawn, k :: drawn in visible && DrawsJoin(history, i, left, right, drawn, k))
  }

  /** `visibleSeriesSegments`. */
  method Visible(history: seq<Sample>, key: string, renderTime: real) returns (visible: seq<seq<Point>>)
    requires Increasing(history)
    ensures forall drawn :: drawn in visible ==>
              Faithful(history, key, renderTime - HISTORY_WINDOW_MS, renderTime, drawn)
    ensures Complete(history, key, renderTime - HISTORY_WINDOW_MS, renderTime, visible)
  {
    var left, right := renderTime - HISTORY_WINDOW_MS, renderTime;
    var segments := Segments(history, key, MAX_SAMPLE_GAP_MS);
    SegmentsRise(history, key, segments);
    visible := [];
    for m := 0 to |segments|
      invariant Drawn(segments, m, left, right, visible)
    {
      hide *;
      var seg := segments[m];
      ghost var before := visible;
      var drawn := [];
      if |seg| == 1 {
        if seg[0].at >= left && seg[0].at <= right { drawn := seg; }
        SingleIsDrawn(seg, left, right);
      } else {
        drawn := Clip(seg, left, right);
        ClipIsDrawn(seg, left, right, drawn);
      }
      if drawn != [] { visible := visible + [drawn]; }
      DrawNext(segments, m, left, right, before, drawn);
    }
    hide Faithful, Complete, DrawnFrom;
    forall drawn | drawn in visible ensures Faithful(history, key, left, right, drawn) {
      DrawnIsFaithful(history, key, left, right, segments, drawn);
    }
    ShownIsComplete(history, key, left, right, segments, visible);
  }

  /** The first m segments have been drawn, and nothing else. */
  ghost predicate Drawn(segments: seq<seq<Point>>, m: nat, left: real, right: real, visible: seq<seq<Point>>)
    requires m <= |segments|
  {
    && (forall drawn :: drawn in visible ==> drawn != [] && DrawnFromSome(segments, left, right, drawn))
    && forall j :: 0 <= j < m ==> Shown(segments[j], left, right, visible)
  }

  lemma SingleIsDrawn(seg: seq<Point>, left: real, right: real)
    requires |seg| == 1
    ensures DrawnFrom(seg, left, right, if seg[0].at >= left && seg[0].at <= right then seg else [])
  {}

  lemma ClipIsDrawn(seg: seq<Point>, left: real, right: real, drawn: seq<Point>)
    requires |seg| >= 2 && OnCurve(seg, left, right, drawn) && Covers(seg, |seg|, left, right, drawn)
    ensures DrawnFrom(seg, left, right, drawn)
  {}

  lemma DrawNext(segments: seq<seq<Point>>, m: nat, left: real, right: real, before: seq<seq<Point>>, drawn: seq<Point>)
    requires m < |segments| && Drawn(segments, m, left, right, before)
    requires DrawnFrom(segments[m], left, right, drawn)
    ensures Drawn(segments, m + 1, left, right, if drawn != [] then before + [drawn] else before)
  {
    hide DrawnFrom;
    var after := if drawn != [] then before + [drawn] else before;
    assert DrawnFromSome(segments, left, right, drawn);
    StillShown(segments[..m], left, right, before, after);
    assert drawn == [] || drawn in after;
    forall j | 0 <= j < m ensures Shown(segments[j], left, right, after) {
      assert segments[..m][j] == segments[j];
    }
  }

  lemma StillShown(segments: seq<seq<Point>>, left: real, right: real, before: seq<seq<Point>>, after: seq<seq<Point>>)
    requires before <= after
    requires forall j :: 0 <= j < |segments| ==> Shown(segments[j], left, right, before)
    ensures forall j :: 0 <= j < |segments| ==> Shown(segments[j], left, right, after)
  {
    hide DrawnFrom;
    forall j | 0 <= j < |segments| ensures Shown(segments[j], left, right, after) {
      var drawn :| DrawnFrom(segments[j], left, right, drawn) && (drawn == [] || drawn in before);
      assert drawn == [] || drawn in after;
    }
  }

  lemma {:induction false} StepsRise(points: seq<Point>, i: nat, j: nat)
    requires forall k :: 0 < k < |points| ==> points[k - 1].at < points[k].at
    requires i < j < |points|
    ensures points[i].at < points[j].at
    decreases j
  {
    if i < j - 1 {
      StepsRise(points, i, j - 1);
    }
  }

  lemma SegmentsRise(history: seq<Sample>, key: string, segments: seq<seq<Point>>)
    requires Increasing(history) && NeverBridges(history, key, MAX_SAMPLE_GAP_MS, segments)
    ensures forall j :: 0 <= j < |segments| ==> Rising(segments[j])
  {
    forall j | 0 <= j < |segments| ensures Rising(segments[j]) {
      var seg := segments[j];
      forall k | 0 < k < |seg| ensures seg[k - 1].at < seg[k].at {
        assert Neighbours(segments, j, k);
        var i :| Matches(history, key, MAX_SAMPLE_GAP_MS, i, segments, j, k);
      }
      forall x, y | 0 <= x < y < |seg| ensures seg[x].at < seg[y].at {
        StepsRise(seg, x, y);
      }
    }
  }

  lemma {:induction false} ReadingsAreReadings(history: seq<Sample>, key: string, p: Point)
    ensures p in Readings(history, key) <==> exists i :: IsReading(history, key, i, p)
  {
    if history != [] {
      var n := |history| - 1;
      ReadingsAreReadings(history[..n], key, p);
      if exists i :: IsReading(history[..n], key, i, p) {
        var i :| IsReading(history[..n], key, i, p);
        assert IsReading(history, key, i, p);
      }
      if exists i :: IsReading(history, key, i, p) {
        var i :| IsReading(history, key, i, p);
        assert i < n ==> IsReading(history[..n], key, i, p);
      }
      if HasReading(history[n], key) {
        assert IsReading(history, key, n, PointOf(history[n], key));
      }
    }
  }

  lemma DrawnIsFaithful(history: seq<Sample>, key: string, left: real, right: real, segments: seq<seq<Point>>,
                        drawn: seq<Point>)
    requires Flatten(segments) == Readings(history, key) && NoneEmpty(segments)
    requires NeverBridges(history, key, MAX_SAMPLE_GAP_MS, segments)
    requires drawn != [] && DrawnFromSome(segments, left, right, drawn)
    ensures Faithful(history, key, left, right, drawn)
  {
    hide NeverBridges, Flatten, Readings, Genuine, OneJoin, SameChord, Rising, Covers;
    var j :| 0 <= j < |segments| && DrawnFrom(segments[j], left, right, drawn);
    var seg := segments[j];
    assert Rising(drawn) by { OneIsRising(drawn); }
    forall k | 0 <= k < |drawn| ensures Genuine(history, key, left, right, drawn[k]) {
      PointIsGenuine(history, key, left, right, segments, j, drawn[k]);
    }
    forall k | 0 < k < |drawn| ensures OneJoin(history, key, drawn[k - 1], drawn[k]) {
      NeighboursShareJoin(history, key, segments, j, drawn[k - 1], drawn[k]);
    }
  }

  lemma OneIsRising(points: seq<Point>)
    ensures |points| == 1 ==> Rising(points)
  {}

  lemma PointIsGenuine(history: seq<Sample>, key: string, left: real, right: real, segments: seq<seq<Point>>,
                       j: int, p: Point)
    requires Flatten(segments) == Readings(history, key) && NeverBridges(history, key, MAX_SAMPLE_GAP_MS, segments)
    requires 0 <= j < |segments|
    requires p in segments[j] || ((p.at == left || p.at == right) && SameChord(segments[j], p, p))
    ensures Genuine(history, key, left, right, p)
  {
    hide Flatten, Readings, NeverBridges;
    if p in segments[j] {
      FlattenHasAll(segments, p);
      ReadingsAreReadings(history, key, p);
    } else {
      NeighboursShareJoin(history, key, segments, j, p, p);
    }
  }

  lemma NeighboursShareJoin(history: seq<Sample>, key: string, segments: seq<seq<Point>>, j: int, p: Point, q: Point)
    requires NeverBridges(history, key, MAX_SAMPLE_GAP_MS, segments) && 0 <= j < |segments|
    requires SameChord(segments[j], p, q)
    ensures OneJoin(history, key, p, q)
  {
    var c :| ChordHas(segments[j], c, p) && ChordHas(segments[j], c, q);
    assert Neighbours(segments, j, c);
    var i :| Matches(history, key, MAX_SAMPLE_GAP_MS, i, segments, j, c);
    assert OnJoin(history, key, i, p) && OnJoin(history, key, i, q);
  }

  lemma ShownIsComplete(history: seq<Sample>, key: string, left: real, right: real, segments: seq<seq<Point>>,
                        visible: seq<seq<Point>>)
    requires Flatten(segments) == Readings(history, key) && NoneEmpty(segments)
    requires KeepsTogether(history, key, MAX_SAMPLE_GAP_MS, |history|, segments)
    requires forall j :: 0 <= j < |segments| ==> Shown(segments[j], left, right, visible)
    ensures Complete(history, key, left, right, visible)
  {
    hide Flatten, Readings, OnCurve;
    forall i | 0 <= i < |history| && HasReading(history[i], key) && left <= history[i].at <= right
      ensures exists drawn :: drawn in visible && PointOf(history[i], key) in drawn
    {
      var p := PointOf(history[i], key);
      assert IsReading(history, key, i, p);
      ReadingsAreReadings(history, key, p);
      FlattenHasAll(segments, p);
      var j :| 0 <= j < |segments| && p in segments[j];
      var drawn :| DrawnFrom(segments[j], left, right, drawn) && (drawn == [] || drawn in visible);
      assert p in drawn;
    }
    forall i | JoinOverlaps(history, key, i, left, right)
      ensures exists drawn, k :: drawn in visible && DrawsJoin(history, i, left, right, drawn, k)
    {
      var j, k :| Matches(history, key, MAX_SAMPLE_GAP_MS, i, segments, j, k);
      var drawn :| DrawnFrom(segments[j], left, right, drawn) && (drawn == [] || drawn in visible);
      assert Overlaps(segments[j], k, left, right);
      var d :| Spans(segments[j], k, left, right, drawn, d);
      assert DrawsJoin(history, i, left, right, drawn, d);
    }
  }
}
