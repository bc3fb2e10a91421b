/**
  The price history of one target: observations put in the order of their capture times and
  split where the evidence has a gap. No point is made up, and none is lost.
 */
module History {
  import opened Prelude
  import opened StableSort

  datatype Observation = Observation(capturedAt: string, value: string, unit: string, quality: string, rest: string)

  datatype Point = Point(capturedAt: string, value: string, unit: string, quality: string)

  type Segments = seq<seq<Point>>

  function PointOf(o: Observation): Point {
    Point(o.capturedAt, o.value, o.unit, o.quality)
  }

  function PointsOf(observations: seq<Observation>): seq<Point> {
    seq(|observations|, i requires 0 <= i < |observations| => PointOf(observations[i]))
  }

  /** The comparison by parsed capture time, in milliseconds. */
  function ByTime(parse: string -> int): (Observation, Observation) -> bool {
    (a: Observation, b: Observation) => parse(a.capturedAt) <= parse(b.capturedAt)
  }

  type Gap = (Point, Point) -> bool

  /** Evidence is missing between two neighbours: they are further apart than the threshold, in seconds. */
  function Beyond(threshold: real, parse: string -> int): Gap {
    (p: Point, q: Point) => (parse(q.capturedAt) - parse(p.capturedAt)) as real / 1000.0 > threshold
  }

  // ---- the split, declaratively ----------------------------------------------------------------

  function Flat(segments: Segments): seq<Point> {
    if segments == [] then [] else Flat(Init(segments)) + Last(segments)
  }

  predicate Whole(segment: seq<Point>, gap: Gap) {
    segment != [] && (|segment| > 1 ==> Whole(Init(segment), gap) && !gap(Last(Init(segment)), Last(segment)))
  }

  predicate Breaks(before: Segments, segment: seq<Point>, gap: Gap) {
    before != [] ==> Last(before) != [] && segment != [] && gap(Last(Last(before)), segment[0])
  }

  /** Every segment is non-empty and has no gap inside; between two there always is one. */
  predicate Split(segments: Segments, gap: Gap) {
    segments == []
    || (Split(Init(segments), gap) && Whole(Last(segments), gap) && Breaks(Init(segments), Last(segments), gap))
  }

  /** The gaps of a sequence of points, counted without splitting it. */
  function GapsIn(points: seq<Point>, gap: Gap): nat {
    if |points| <= 1 then 0
    else if gap(Last(Init(points)), Last(points)) then GapsIn(Init(points), gap) + 1
    else GapsIn(Init(points), gap)
  }

  // ---- one point at a time -----------------------------------------------------------------------

  /** The state of the loop: the closed segments, then the open one, empty only at the start. */
  predicate Building(segments: Segments, current: seq<Point>, points: seq<Point>, gap: Gap) {
    if current == [] then segments == [] && points == []
    else Split(segments + [current], gap) && Flat(segments) + current == points
  }

  lemma SplitExtends(segments: Segments, last: seq<Point>, gap: Gap)
    ensures Split(segments + [last], gap) <==> Split(segments, gap) && Whole(last, gap) && Breaks(segments, last, gap)
  {
    assert Init(segments + [last]) == segments;
  }

  lemma WholeExtends(segment: seq<Point>, p: Point, gap: Gap)
    ensures Whole(segment + [p], gap) <==> segment == [] || (Whole(segment, gap) && !gap(Last(segment), p))
  {
    assert Init(segment + [p]) == segment;
  }

  lemma FlatExtends(segments: Segments, last: seq<Point>)
    ensures Flat(segments + [last]) == Flat(segments) + last
  {
    assert Init(segments + [last]) == segments;
  }

  /** Without a gap the point joins the open segment. */
  lemma JoinKeeps(segments: Segments, current: seq<Point>, points: seq<Point>, p: Point, gap: Gap)
    requires Building(segments, current, points, gap)
    requires current != [] ==> !gap(Last(current), p)
    ensures Building(segments, current + [p], points + [p], gap)
  {
    WholeExtends(current, p, gap);
    SplitExtends(segments, current + [p], gap);
    if current != [] {
      SplitExtends(segments, current, gap);
      assert Flat(segments) + (current + [p]) == Flat(segments) + current + [p];
    }
  }

  /** At a gap the open segment is closed and the point opens the next. */
  lemma BreakKeeps(segments: Segments, current: seq<Point>, points: seq<Point>, p: Point, gap: Gap)
    requires Building(segments, current, points, gap)
    requires current != [] && gap(Last(current), p)
    ensures Building(segments + [current], [p], points + [p], gap)
  {
    SplitExtends(segments + [current], [p], gap);
    FlatExtends(segments, current);
  }

  lemma GapsExtend(points: seq<Point>, p: Point, gap: Gap)
    ensures GapsIn(points + [p], gap) ==
      GapsIn(points, gap) + if points != [] && gap(Last(points), p) then 1 else 0
  {
    assert Init(points + [p]) == points;
  }

  lemma LastOfBuilding(segments: Segments, current: seq<Point>, points: seq<Point>, gap: Gap)
    requires Building(segments, current, points, gap)
    ensures (points == [] <==> current == []) && (current != [] ==> Last(points) == Last(current))
  {
  }

  /** The next point opens a segment at a gap, and joins the open one otherwise. */
  lemma PointKeeps(segments: Segments, current: seq<Point>, points: seq<Point>, i: nat, gap: Gap)
    requires i < |points| && Building(segments, current, points[..i], gap)
    ensures if current != [] && gap(Last(current), points[i])
      then Building(segments + [current], [points[i]], points[..i + 1], gap)
           && GapsIn(points[..i + 1], gap) == GapsIn(points[..i], gap) + 1
      else Building(segments, current + [points[i]], points[..i + 1], gap)
           && GapsIn(points[..i + 1], gap) == GapsIn(points[..i], gap)
  {
    assert points[..i + 1] == points[..i] + [points[i]];
    GapsExtend(points[..i], points[i], gap);
    LastOfBuilding(segments, current, points[..i], gap);
    if current != [] && gap(Last(current), points[i]) {
      BreakKeeps(segments, current, points[..i], points[i], gap);
    } else {
      JoinKeeps(segments, current, points[..i], points[i], gap);
    }
  }

  // ---- the split is the only one -------------------------------------------------------------------

  /** Taking the last point away leaves a split: of one segment less, if it stood alone. */
  function Shortened(segments: Segments): Segments
    requires segments != [] && Last(segments) != []
  {
    if |Last(segments)| == 1 then Init(segments) else Init(segments) + [Init(Last(segments))]
  }

  lemma LastPoint(segments: Segments, gap: Gap)
    requires Split(segments, gap) && segments != []
    ensures Last(segments) != [] && Flat(segments) != [] && Last(Flat(segments)) == Last(Last(segments))
  {
  }

  lemma ShortenedSplit(segments: Segments, gap: Gap)
    requires Split(segments, gap) && segments != []
    ensures Last(segments) != []
    ensures Split(Shortened(segments), gap) && Flat(Shortened(segments)) == Init(Flat(segments))
  {
    var rest, last := Init(segments), Last(segments);
    if |last| > 1 {
      SplitExtends(rest, Init(last), gap);
      FlatExtends(rest, Init(last));
    }
  }

  /** Whether the last point stands alone is decided by the gap before it. */
  lemma AloneIffGap(segments: Segments, gap: Gap)
    requires Split(segments, gap) && segments != [] && Last(segments) != [] && |Flat(segments)| > 1
    ensures |Last(segments)| == 1 <==> gap(Last(Init(Flat(segments))), Last(Flat(segments)))
  {
    var rest, last := Init(segments), Last(segments);
    assert Flat(segments) == Flat(rest) + last;
    if |last| == 1 {
      LastPoint(rest, gap);
      assert Init(Flat(segments)) == Flat(rest);
      assert Last(Flat(segments)) == last[0];
    } else {
      LastOfJoined(Flat(rest), last);
    }
  }

  lemma LastOfJoined(before: seq<Point>, last: seq<Point>)
    requires |last| > 1
    ensures Last(before + last) == Last(last) && Last(Init(before + last)) == Last(Init(last))
  {
  }

  lemma FlatIsEmpty(segments: Segments, gap: Gap)
    requires Split(segments, gap)
    ensures Flat(segments) == [] <==> segments == []
  {
    if segments != [] {
      LastPoint(segments, gap);
    }
  }

  /** Two splits of the same points are the same split. */
  lemma {:induction false} SplitIsUnique(s: Segments, t: Segments, gap: Gap)
    requires Split(s, gap) && Split(t, gap) && Flat(s) == Flat(t)
    ensures s == t
    decreases |Flat(s)|
  {
    FlatIsEmpty(s, gap);
    FlatIsEmpty(t, gap);
    if s != [] {
      LastPoint(s, gap);
      LastPoint(t, gap);
      ShortenedSplit(s, gap);
      ShortenedSplit(t, gap);
      SplitIsUnique(Shortened(s), Shortened(t), gap);
      if |Flat(s)| > 1 {
        AloneIffGap(s, gap);
        AloneIffGap(t, gap);
      } else {
        SinglePoint(s, gap);
        SinglePoint(t, gap);
      }
      SameShortened(s, t);
    }
  }

  lemma SinglePoint(segments: Segments, gap: Gap)
    requires Split(segments, gap) && segments != [] && |Flat(segments)| == 1
    ensures |Last(segments)| == 1
  {
  }

  lemma SameShortened(s: Segments, t: Segments)
    requires s != [] && t != [] && Last(s) != [] && Last(t) != [] && Last(Last(s)) == Last(Last(t))
    requires Shortened(s) == Shortened(t) && (|Last(s)| == 1 <==> |Last(t)| == 1)
    ensures s == t
  {
    assert s == Init(s) + [Last(s)] && t == Init(t) + [Last(t)];
    assert Last(s) == Init(Last(s)) + [Last(Last(s))] && Last(t) == Init(Last(t)) + [Last(Last(t))];
    if |Last(s)| == 1 {
      assert Last(s) == Last(t);
    } else {
      assert Last(Shortened(s)) == Init(Last(s)) && Last(Shortened(t)) == Init(Last(t));
      assert Init(Shortened(s)) == Init(s) && Init(Shortened(t)) == Init(t);
    }
  }

  // ---- the loop ------------------------------------------------------------------------------------

  /** The stable time sort of the observations, split at its gaps and nowhere else. */
  method BuildHistorySeries(observations: seq<Observation>, threshold: real, parse: string -> int)
    returns (segments: Segments, gapCount: nat)
    ensures Split(segments, Beyond(threshold, parse))
    ensures Flat(segments) == PointsOf(Sort(observations, ByTime(parse)))
    ensures gapCount == (if segments == [] then 0 else |segments| - 1)
    ensures gapCount == GapsIn(PointsOf(Sort(observations, ByTime(parse))), Beyond(threshold, parse))
  {
    var sorted := Sort(observations, ByTime(parse));
    segments, gapCount := SplitAtGaps(PointsOf(sorted), Beyond(threshold, parse));
  }

  /** The loop over the sorted points. */
  method SplitAtGaps(points: seq<Point>, gap: Gap) returns (segments: Segments, gapCount: nat)
    ensures Split(segments, gap) && Flat(segments) == points
    ensures gapCount == (if segments == [] then 0 else |segments| - 1)
    ensures gapCount == GapsIn(points, gap)
  {
    segments, gapCount := [], 0;
    var current: seq<Point> := [];
    for i := 0 to |points|
      invariant Building(segments, current, points[..i], gap)
      invariant gapCount == |segments| && gapCount == GapsIn(points[..i], gap)
    {
      var point := points[i];
      PointKeeps(segments, current, points, i, gap);
      if current != [] && gap(Last(current), point) {
        segments := segments + [current];
        current := [];
        gapCount := gapCount + 1;
        assert [] + [point] == [point];
      }
      current := current + [point];
    }
    assert points[..|points|] == points;
    if |current| > 0 {
      FlatExtends(segments, current);
      segments := segments + [current];
    }
  }

  // ---- what the caller can rely on -------------------------------------------------------------------

  lemma TimeIsTotal(parse: string -> int)
    ensures TotalPreorder(ByTime(parse))
  {
  }

  /**
    Any split of any stable chronological arrangement of the observations is the series: nothing else
    meets the contract.
   */
  lemma SeriesIsDetermined(observations: seq<Observation>, arranged: seq<Observation>, s: Segments, t: Segments,
                           gap: Gap, parse: string -> int)
    requires InOrder(arranged, ByTime(parse)) && SameTies(observations, arranged, ByTime(parse))
    requires Split(s, gap) && Flat(s) == PointsOf(arranged)
    requires Split(t, gap) && Flat(t) == PointsOf(Sort(observations, ByTime(parse)))
    ensures s == t
  {
    TimeIsTotal(parse);
    SortIsTheOnlyOne(observations, arranged, ByTime(parse));
    SplitIsUnique(s, t, gap);
  }

  /** A split read by position. */
  lemma {:induction false} SplitByPosition(segments: Segments, gap: Gap, k: nat)
    requires Split(segments, gap) && k < |segments|
    ensures Whole(segments[k], gap)
    ensures k > 0 ==> segments[k - 1] != [] && gap(Last(segments[k - 1]), segments[k][0])
  {
    if k < |segments| - 1 {
      SplitByPosition(Init(segments), gap, k);
    }
  }

  lemma {:induction false} WholeByPosition(segment: seq<Point>, gap: Gap, i: nat)
    requires Whole(segment, gap) && 0 < i < |segment|
    ensures !gap(segment[i - 1], segment[i])
  {
    if i < |segment| - 1 {
      WholeByPosition(Init(segment), gap, i);
    }
  }

  /**
    In a series neighbours are at most the threshold apart, counted in seconds of a thousand milliseconds,
    and segments are further apart than that.
   */
  lemma SegmentsByTime(segments: Segments, threshold: real, parse: string -> int, k: nat, i: nat)
    requires Split(segments, Beyond(threshold, parse)) && k < |segments|
    ensures 0 < i < |segments[k]| ==>
      (parse(segments[k][i].capturedAt) - parse(segments[k][i - 1].capturedAt)) as real <= threshold * 1000.0
    ensures k > 0 ==>
      && segments[k - 1] != [] && segments[k] != []
      && (parse(segments[k][0].capturedAt) - parse(Last(segments[k - 1]).capturedAt)) as real > threshold * 1000.0
  {
    SplitByPosition(segments, Beyond(threshold, parse), k);
    if 0 < i < |segments[k]| { WholeByPosition(segments[k], Beyond(threshold, parse), i); }
  }

  /** Each point carries the time, the raw price, its unit and the quality of its own observation. */
  lemma PointsReadObservations(observations: seq<Observation>, segments: Segments, parse: string -> int, i: nat)
    requires Flat(segments) == PointsOf(Sort(observations, ByTime(parse))) && i < |Flat(segments)|
    ensures |Sort(observations, ByTime(parse))| == |Flat(segments)|
    ensures var o, p := Sort(observations, ByTime(parse))[i], Flat(segments)[i];
      && o in observations
      && p.capturedAt == o.capturedAt && p.value == o.value && p.unit == o.unit && p.quality == o.quality
  {
    SortKeepsElements(observations, ByTime(parse));
    var sorted := Sort(observations, ByTime(parse));
    assert sorted[i] in multiset(sorted);
  }

  lemma PointsExtend(first: Observation, others: seq<Observation>)
    ensures PointsOf([first] + others) == [PointOf(first)] + PointsOf(others)
  {
  }

  lemma {:induction false} InsertKeepsPoints(x: Observation, s: seq<Observation>,
                                             leq: (Observation, Observation) -> bool)
    ensures multiset(PointsOf(Insert(x, s, leq))) == multiset{PointOf(x)} + multiset(PointsOf(s))
  {
    if s == [] || leq(x, s[0]) {
      PointsExtend(x, s);
    } else {
      InsertKeepsPoints(x, s[1..], leq);
      PointsExtend(s[0], Insert(x, s[1..], leq));
      PointsExtend(s[0], s[1..]);
      assert s == [s[0]] + s[1..];
    }
  }

  lemma {:induction false} SortKeepsPoints(s: seq<Observation>, leq: (Observation, Observation) -> bool)
    ensures multiset(PointsOf(Sort(s, leq))) == multiset(PointsOf(s))
  {
    if s != [] {
      SortKeepsPoints(s[1..], leq);
      InsertKeepsPoints(s[0], Sort(s[1..], leq), leq);
      PointsExtend(s[0], s[1..]);
      assert s == [s[0]] + s[1..];
    }
  }

  /** Each observation contributes its point, once: none is added, dropped or doubled. */
  lemma NoPointIsInvented(observations: seq<Observation>, segments: Segments, parse: string -> int)
    requires Flat(segments) == PointsOf(Sort(observations, ByTime(parse)))
    ensures multiset(Flat(segments)) == multiset(PointsOf(observations))
    ensures |Flat(segments)| == |observations|
  {
    SortKeepsElements(observations, ByTime(parse));
    SortKeepsPoints(observations, ByTime(parse));
  }

  /** Times never step back along the series. */
  lemma TimesAscend(observations: seq<Observation>, segments: Segments, parse: string -> int, i: nat, j: nat)
    requires Flat(segments) == PointsOf(Sort(observations, ByTime(parse)))
    requires i < j < |Flat(segments)|
    ensures parse(Flat(segments)[i].capturedAt) <= parse(Flat(segments)[j].capturedAt)
  {
    TimeIsTotal(parse);
    SortIsInOrder(observations, ByTime(parse));
    var sorted := Sort(observations, ByTime(parse));
    assert ByTime(parse)(sorted[i], sorted[j]);
  }
}
