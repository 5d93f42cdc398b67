/**
 The history of host samples and the curves drawn from it.

 Times and values are reals, so rounding is left out.  Curves are broken at missing
 readings and at intervals longer than the gap limit, then clipped to the window.
 */
module Series {

  import opened Sequences
  import opened Wrappers

  const HISTORY_LIMIT := 64
  const HISTORY_WINDOW_MS := 120000.0
  const MAX_SAMPLE_GAP_MS := 6000.0
  const HISTORY_RETENTION_MS := HISTORY_WINDOW_MS + 8000.0

  datatype Sample = Sample(at: real, readings: map<string, real>)
  datatype Point = Point(at: real, value: real)

  ghost predicate Increasing(history: seq<Sample>) {
    forall i, j :: 0 <= i < j < |history| ==> history[i].at < history[j].at
  }

  // ---------------------------------------------------------------- the history

  function Recent(history: seq<Sample>, now: real): seq<Sample> {
    if history == [] then []
    else (if IsRecent(history[0], now) then [history[0]] else []) + Recent(history[1..], now)
  }

  /** `appendHostSample`; no sample stands for one whose time is not a number. */
  function Append(history: seq<Sample>, sample: Option<Sample>): seq<Sample> {
    if sample.None? || sample.value.at < 0.0 then history
    else if history != [] && sample.value.at <= history[|history| - 1].at then history
    else Newest(Recent(history, sample.value.at) + [sample.value])
  }

  /** `slice(-HISTORY_LIMIT)`. */
  function Newest<T>(s: seq<T>): seq<T> {
    if |s| > HISTORY_LIMIT then s[|s| - HISTORY_LIMIT..] else s
  }

  ghost predicate GoodHistory(history: seq<Sample>) {
    && Increasing(history) && |history| <= HISTORY_LIMIT
    && forall i :: 0 <= i < |history| ==> history[|history| - 1].at - history[i].at <= HISTORY_RETENTION_MS
  }

  predicate IsRecent(s: Sample, now: real) {
    now - s.at <= HISTORY_RETENTION_MS
  }

  lemma {:induction false} AllRecent(history: seq<Sample>, now: real)
    requires forall j :: 0 <= j < |history| ==> IsRecent(history[j], now)
    ensures Recent(history, now) == history
  {
    if history != [] {
      AllRecent(history[1..], now);
      assert history == [history[0]] + history[1..];
    }
  }

  lemma {:induction false} RecentIsSuffix(history: seq<Sample>, now: real) returns (k: nat)
    requires Increasing(history)
    ensures k <= |history| && Recent(history, now) == history[k..]
    ensures forall j :: 0 <= j < k ==> !IsRecent(history[j], now)
    ensures forall j :: k <= j < |history| ==> IsRecent(history[j], now)
  {
    if history == [] {
      k := 0;
    } else if IsRecent(history[0], now) {
      k := 0;
      AllRecent(history, now);
    } else {
      var rest := history[1..];
      forall j | 1 <= j < |history| ensures history[j] == rest[j - 1] {}
      var r := RecentIsSuffix(rest, now);
      k := r + 1;
      assert rest[r..] == history[k..];
    }
  }

  predicate IsLater(history: seq<Sample>, sample: Option<Sample>) {
    && sample.Some? && sample.value.at >= 0.0
    && (history != [] ==> sample.value.at > history[|history| - 1].at)
  }

  /** The first k samples, too old or too many, gave way to the new one. */
  ghost predicate AppendsAfterDropping(history: seq<Sample>, s: Sample, k: nat, result: seq<Sample>) {
    && k <= |history| && result == history[k..] + [s]
    && forall j :: 0 <= j < k ==>
         s.at - history[j].at > HISTORY_RETENTION_MS || |history| + 1 - j > HISTORY_LIMIT
  }

  /** A later sample is kept, in order, and only samples that are too old or too many
      are dropped, from the front; any other sample changes nothing. */
  lemma AppendKeepsTheNewest(history: seq<Sample>, sample: Option<Sample>) returns (k: nat)
    requires GoodHistory(history)
    ensures GoodHistory(Append(history, sample))
    ensures IsLater(history, sample) ==> AppendsAfterDropping(history, sample.value, k, Append(history, sample))
    ensures !IsLater(history, sample) ==> Append(history, sample) == history
  {
    k := 0;
    if IsLater(history, sample) {
      var s := sample.value;
      var recent := RecentIsSuffix(history, s.at);
      k := if |history| - recent + 1 > HISTORY_LIMIT then |history| + 1 - HISTORY_LIMIT else recent;
      NewestOfSuffix(history, recent, s);
      hide Newest, Recent, GoodHistory;
      GoodSuffix(history, k, s);
    }
  }

  lemma NewestOfSuffix<T>(history: seq<T>, recent: nat, s: T)
    requires recent <= |history|
    ensures var k := if |history| - recent + 1 > HISTORY_LIMIT then |history| + 1 - HISTORY_LIMIT else recent;
            recent <= k <= |history| && Newest(history[recent..] + [s]) == history[k..] + [s]
  {}

  lemma GoodSuffix(history: seq<Sample>, k: nat, s: Sample)
    requires Increasing(history) && k <= |history| <= HISTORY_LIMIT - 1 + k
    requires history != [] ==> s.at > history[|history| - 1].at
    requires forall j :: k <= j < |history| ==> IsRecent(history[j], s.at)
    ensures GoodHistory(history[k..] + [s])
  {
    var result := history[k..] + [s];
    forall j | 0 <= j < |result| ensures result[j] == if k + j < |history| then history[k + j] else s {}
    forall j | 0 <= j < |history| ensures history[j].at < s.at {
      assert j < |history| - 1 ==> history[j].at < history[|history| - 1].at;
    }
  }

  function Collect(samples: seq<Option<Sample>>): seq<Sample> {
    if samples == [] then [] else Append(Collect(samples[..|samples| - 1]), samples[|samples| - 1])
  }

  /** Every history the dashboard can hold. */
  lemma {:induction false} CollectedIsGood(samples: seq<Option<Sample>>)
    ensures GoodHistory(Collect(samples))
  {
    if samples != [] {
      CollectedIsGood(samples[..|samples| - 1]);
      var _ := AppendKeepsTheNewest(Collect(samples[..|samples| - 1]), samples[|samples| - 1]);
    }
  }

  // ---------------------------------------------------------------- segments

  /** A finite number that is not negative. */
  ghost predicate HasReading(s: Sample, key: string) {
    key in s.readings && s.readings[key] >= 0.0
  }

  ghost function PointOf(s: Sample, key: string): Point
    requires HasReading(s, key)
  {
    Point(s.at, s.readings[key])
  }

  ghost function Readings(history: seq<Sample>, key: string): seq<Point> {
    if history == [] then []
    else
      var last := history[|history| - 1];
      Readings(history[..|history| - 1], key) + if HasReading(last, key) then [PointOf(last, key)] else []
  }

  /** Samples i - 1 and i are readings no further apart than the gap limit. */
  ghost predicate Joined(history: seq<Sample>, key: string, gap: real, i: int) {
    && 0 < i < |history|
    && HasReading(history[i - 1], key) && HasReading(history[i], key)
    && history[i].at - history[i - 1].at <= gap
  }

  /** Points k - 1 and k of segment j. */
  ghost predicate Neighbours(segments: seq<seq<Point>>, j: int, k: int) {
    0 <= j < |segments| && 0 < k < |segments[j]|
  }

  /** Points k - 1 and k of segment j are the readings of samples i - 1 and i. */
  ghost predicate Matches(history: seq<Sample>, key: string, gap: real, i: int,
                          segments: seq<seq<Point>>, j: int, k: int) {
    && Joined(history, key, gap, i) && Neighbours(segments, j, k)
    && segments[j][k - 1] == PointOf(history[i - 1], key) && segments[j][k] == PointOf(history[i], key)
  }

  /** No two neighbours of a segment bridge a missing reading or a long interval. */
  ghost predicate NeverBridges(history: seq<Sample>, key: string, gap: real, segments: seq<seq<Point>>) {
    forall j, k :: Neighbours(segments, j, k) ==> exists i :: Matches(history, key, gap, i, segments, j, k)
  }

  /** Neighbouring readings among the first n samples are neighbours in one segment. */
  ghost predicate KeepsTogether(history: seq<Sample>, key: string, gap: real, n: nat, segments: seq<seq<Point>>) {
    forall i :: i < n && Joined(history, key, gap, i) ==> exists j, k :: Matches(history, key, gap, i, segments, j, k)
  }

  ghost predicate NoneEmpty(segments: seq<seq<Point>>) {
    forall j :: 0 <= j < |segments| ==> segments[j] != []
  }

  /** `seriesSegments`.  While `open`, the last segment is the one being extended. */
  method Segments(history: seq<Sample>, key: string, gap: real) returns (segments: seq<seq<Point>>)
    ensures Flatten(segments) == Readings(history, key) && NoneEmpty(segments)
    ensures NeverBridges(history, key, gap, segments)
    ensures KeepsTogether(history, key, gap, |history|, segments)
  {
    hide Flatten, NeverBridges, KeepsTogether, Readings;
    segments := [];
    NoSegments(history, key, gap);
    var open := false;
    var previousAt: Option<real> := None;
    for n := 0 to |history|
      invariant Flatten(segments) == Readings(history[..n], key) && NoneEmpty(segments)
      invariant NeverBridges(history, key, gap, segments)
      invariant KeepsTogether(history, key, gap, n, segments)
      invariant previousAt == if n == 0 then None else Some(history[n - 1].at)
      invariant open <==> n > 0 && HasReading(history[n - 1], key)
      invariant open ==> segments != [] && EndsWith(segments[|segments| - 1], PointOf(history[n - 1], key))
    {
      var sample := history[n];
      ghost var before := segments;
      ReadingsStep(history, key, n);
      if key !in sample.readings || sample.readings[key] < 0.0 {
        open := false;
        SkipStep(history, key, gap, n, segments);
      } else {
        var point := Point(sample.at, sample.readings[key]);
        if !open || previousAt.None? || sample.at - previousAt.value > gap {
          segments := segments + [[point]];
          StartStep(history, key, gap, n, before);
        } else {
          var last := |segments| - 1;
          segments := segments[last := segments[last] + [point]];
          ExtendStep(history, key, gap, n, before);
        }
        open := true;
      }
      previousAt := Some(sample.at);
    }
    assert history[..|history|] == history;
  }

  lemma NoSegments(history: seq<Sample>, key: string, gap: real)
    ensures Flatten([]) == Readings(history[..0], key)
    ensures NeverBridges(history, key, gap, []) && KeepsTogether(history, key, gap, 0, [])
  {}

  lemma ReadingsStep(history: seq<Sample>, key: string, n: nat)
    requires n < |history|
    ensures Readings(history[..n + 1], key) ==
              Readings(history[..n], key) + if HasReading(history[n], key) then [PointOf(history[n], key)] else []
  {
    assert history[..n + 1][..n] == history[..n];
  }

  predicate EndsWith(segment: seq<Point>, p: Point) {
    segment != [] && segment[|segment| - 1] == p
  }

  lemma SkipStep(history: seq<Sample>, key: string, gap: real, n: nat, segments: seq<seq<Point>>)
    requires n < |history| && !HasReading(history[n], key)
    requires KeepsTogether(history, key, gap, n, segments)
    ensures KeepsTogether(history, key, gap, n + 1, segments)
  {}

  lemma StartStep(history: seq<Sample>, key: string, gap: real, n: nat, segments: seq<seq<Point>>)
    requires n < |history| && HasReading(history[n], key) && !Joined(history, key, gap, n)
    requires NeverBridges(history, key, gap, segments) && KeepsTogether(history, key, gap, n, segments)
    ensures var more := segments + [[PointOf(history[n], key)]];
            && Flatten(more) == Flatten(segments) + [PointOf(history[n], key)]
            && NeverBridges(history, key, gap, more) && KeepsTogether(history, key, gap, n + 1, more)
  {
    var more := segments + [[PointOf(history[n], key)]];
    FlattenAppend(segments, [PointOf(history[n], key)]);
    forall j, k | Neighbours(more, j, k) ensures exists i :: Matches(history, key, gap, i, more, j, k) {
      assert Neighbours(segments, j, k);
      var i :| Matches(history, key, gap, i, segments, j, k);
      assert Matches(history, key, gap, i, more, j, k);
    }
    forall i | i < n + 1 && Joined(history, key, gap, i)
      ensures exists j, k :: Matches(history, key, gap, i, more, j, k)
    {
      var j, k :| Matches(history, key, gap, i, segments, j, k);
      assert Matches(history, key, gap, i, more, j, k);
    }
  }

  lemma ExtendStep(history: seq<Sample>, key: string, gap: real, n: nat, segments: seq<seq<Point>>)
    requires Joined(history, key, gap, n) && segments != []
    requires EndsWith(segments[|segments| - 1], PointOf(history[n - 1], key))
    requires NeverBridges(history, key, gap, segments) && KeepsTogether(history, key, gap, n, segments)
    ensures var last := |segments| - 1;
            var more := segments[last := segments[last] + [PointOf(history[n], key)]];
            && Flatten(more) == Flatten(segments) + [PointOf(history[n], key)]
            && NeverBridges(history, key, gap, more) && KeepsTogether(history, key, gap, n + 1, more)
  {
    var last, p := |segments| - 1, PointOf(history[n], key);
    var more := segments[last := segments[last] + [p]];
    FlattenAppend(segments[..last], segments[last]);
    FlattenAppend(segments[..last], segments[last] + [p]);
    assert segments == segments[..last] + [segments[last]] && more == segments[..last] + [segments[last] + [p]];
    assert Matches(history, key, gap, n, more, last, |segments[last]|);
    forall j, k | Neighbours(more, j, k) ensures exists i :: Matches(history, key, gap, i, more, j, k) {
      if k < |segments[j]| {
        assert Neighbours(segments, j, k);
        var i :| Matches(history, key, gap, i, segments, j, k);
        assert Matches(history, key, gap, i, more, j, k);
      }
    }
    forall i | i < n + 1 && Joined(history, key, gap, i)
      ensures exists j, k :: Matches(history, key, gap, i, more, j, k)
    {
      if i < n {
        var j, k :| Matches(history, key, gap, i, segments, j, k);
        assert Matches(history, key, gap, i, more, j, k);
      }
    }
  }
}
