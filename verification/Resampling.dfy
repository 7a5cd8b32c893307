/** Means, extremes and resampling of a series, as loops, against the integral and the values of its
    signal. */
module Resampling {
  import opened Options
  import opened Numbers
  import opened TimeSeries

  // ---- the mean over a stretch -----------------------------------------------------------------

  /** The mean of the signal over [start, end): its integral over the length, where the signal is
      defined on the whole stretch. */
  function MeanOf(s: Series, start: Instant, end: Instant): Option<real> {
    if start >= end || !DefinedAt(s, start) || (s.interpolation.Linear? && !DefinedAt(s, end)) then None
    else Some(Integral(s.samples, s.interpolation, start, end) / Width(start, end))
  }

  /** Sample times strictly between start and end. */
  function Interior(samples: seq<Sample>, start: Instant, end: Instant): seq<Instant> {
    if samples == [] then [] else
      var n := |samples| - 1;
      Interior(samples[..n], start, end) + if start < samples[n].t < end then [samples[n].t] else []
  }

  function Splits(samples: seq<Sample>, start: Instant, end: Instant): seq<Instant> {
    [start] + Interior(samples, start, end) + [end]
  }

  lemma {:induction false} InteriorHas(samples: seq<Sample>, start: Instant, end: Instant, x: Instant)
    ensures x in Interior(samples, start, end) <==>
            start < x < end && exists k :: 0 <= k < |samples| && samples[k].t == x
  {
    if samples != [] {
      var n := |samples| - 1;
      InteriorHas(samples[..n], start, end, x);
      if k :| 0 <= k < n && samples[k].t == x {
        assert samples[..n][k].t == x;
      }
    }
  }

  lemma {:induction false} InteriorAscends(samples: seq<Sample>, start: Instant, end: Instant, i: nat, j: nat)
    requires IsAscending(samples) && i < j < |Interior(samples, start, end)|
    ensures Interior(samples, start, end)[i] < Interior(samples, start, end)[j]
  {
    var n := |samples| - 1;
    var before := Interior(samples[..n], start, end);
    if j < |before| {
      InteriorAscends(samples[..n], start, end, i, j);
    } else {
      InteriorHas(samples[..n], start, end, before[i]);
      var k :| 0 <= k < n && samples[..n][k].t == before[i];
      assert samples[k].t < samples[n].t;
    }
  }

  lemma InteriorAre(samples: seq<Sample>, start: Instant, end: Instant)
    requires IsAscending(samples)
    ensures Ascends(Interior(samples, start, end))
    ensures forall x :: x in Interior(samples, start, end) <==>
                        start < x < end && exists k :: 0 <= k < |samples| && samples[k].t == x
  {
    hide Interior, IsAscending;
    forall x
      ensures x in Interior(samples, start, end) <==>
              start < x < end && exists k :: 0 <= k < |samples| && samples[k].t == x
    {
      InteriorHas(samples, start, end, x);
    }
    forall i, j | 0 <= i < j < |Interior(samples, start, end)|
      ensures Interior(samples, start, end)[i] < Interior(samples, start, end)[j]
    {
      InteriorAscends(samples, start, end, i, j);
    }
  }

  lemma SplitsAscend(samples: seq<Sample>, start: Instant, end: Instant)
    requires IsAscending(samples) && start < end
    ensures Ascends(Splits(samples, start, end))
  {
    InteriorAre(samples, start, end);
    var inner := Interior(samples, start, end);
    assert forall i :: 0 <= i < |inner| ==> inner[i] in inner;
  }

  /** Between neighbouring split points there is no sample. */
  lemma SplitsAreFine(samples: seq<Sample>, start: Instant, end: Instant, i: nat)
    requires IsAscending(samples) && start < end && i + 1 < |Splits(samples, start, end)|
    ensures NoSampleInside(samples, Splits(samples, start, end)[i], Splits(samples, start, end)[i + 1])
  {
    InteriorAre(samples, start, end);
    SplitsAscend(samples, start, end);
    var inner, splits := Interior(samples, start, end), Splits(samples, start, end);
    forall k | 0 <= k < |samples|
      ensures samples[k].t <= splits[i] || splits[i + 1] <= samples[k].t
    {
      var x := samples[k].t;
      if start < x < end {
        assert x in inner;
        var m :| 0 <= m < |inner| && inner[m] == x;
        assert splits[m + 1] == x;
      } else {
        assert splits[0] <= splits[i] && splits[i + 1] <= splits[|splits| - 1];
      }
    }
  }

  /** Every split point but the last is a point where the signal is defined, once its start is. */
  lemma SplitsDefined(s: Series, start: Instant, end: Instant, i: nat)
    requires IsAscending(s.samples) && start < end && DefinedAt(s, start)
    requires i + 1 < |Splits(s.samples, start, end)|
    ensures DefinedAt(s, Splits(s.samples, start, end)[i])
  {
    InteriorAre(s.samples, start, end);
    var inner := Interior(s.samples, start, end);
    if i > 0 {
      assert inner[i - 1] in inner;
      var k :| 0 <= k < |s.samples| && s.samples[k].t == inner[i - 1];
      assert s.samples[0].t <= s.samples[k].t <= s.samples[|s.samples| - 1].t;
    }
  }

  method CollectSplits(samples: seq<Sample>, start: Instant, end: Instant) returns (splits: seq<Instant>)
    ensures splits == Splits(samples, start, end)
  {
    splits := [start];
    for k := 0 to |samples|
      invariant splits == [start] + Interior(samples[..k], start, end)
    {
      assert samples[..k + 1][..k] == samples[..k];
      if samples[k].t > start && samples[k].t < end {
        splits := splits + [samples[k].t];
      }
    }
    assert samples[..|samples|] == samples;
    splits := splits + [end];
  }

  /** The step of the sum: from one split point to the next. */
  lemma OneStretchMore(s: Series, start: Instant, end: Instant, i: nat)
    requires IsAscending(s.samples) && start < end && DefinedAt(s, start)
    requires i + 1 < |Splits(s.samples, start, end)|
    requires DefinedAt(s, Splits(s.samples, start, end)[i + 1])
    ensures var a, b := Splits(s.samples, start, end)[i], Splits(s.samples, start, end)[i + 1];
      && a < b
      && InterpolateAt(s, a).Some? && InterpolateAt(s, b).Some?
      && Integral(s.samples, s.interpolation, start, b)
         == Integral(s.samples, s.interpolation, start, a) + PlainArea(s, a, b)
  {
    hide InterpolateAt, Integral, Splits;
    var splits := Splits(s.samples, start, end);
    var a, b := splits[i], splits[i + 1];
    SplitsAscend(s.samples, start, end);
    assert Splits(s.samples, start, end)[0] == start by { FirstSplit(s.samples, start, end); }
    SplitsAreFine(s.samples, start, end, i);
    SplitsDefined(s, start, end, i);
    PlainStretch(s, a, b);
    assert start <= a;
    IntegralSplits(s.samples, s.interpolation, start, a, b);
  }

  lemma FirstSplit(samples: seq<Sample>, start: Instant, end: Instant)
    ensures |Splits(samples, start, end)| >= 2
    ensures Splits(samples, start, end)[0] == start
    ensures Splits(samples, start, end)[|Splits(samples, start, end)| - 1] == end
  {
  }

  lemma EmptyStretch(samples: seq<Sample>, mode: Interpolation, a: Instant)
    ensures Integral(samples, mode, a, a) == 0.0
  {
    IntegralSplits(samples, mode, a, a, a);
  }

  /** Time-weighted mean. The sum over the split points is the integral of the signal. */
  method TimeWeightedMean(s: Series, start: Instant, end: Instant) returns (r: Option<real>)
    ensures IsAscending(s.samples) ==> r == MeanOf(s, start, end)
  {
    hide Integral, PlainArea, InterpolateAt;
    if start >= end || s.samples == [] {
      return None;
    }
    var vStart := InterpolateAt(s, start);
    DefinedIfAscending(s, start);
    if vStart.None? {
      return None;
    }
    var splits := CollectSplits(s.samples, start, end);
    FirstSplit(s.samples, start, end);
    var weightedSum := 0.0;
    EmptyStretch(s.samples, s.interpolation, start);
    for i := 0 to |splits| - 1
      invariant IsAscending(s.samples) ==> weightedSum == Integral(s.samples, s.interpolation, start, splits[i])
      invariant IsAscending(s.samples) && s.interpolation.Linear? && i > 0 ==> DefinedAt(s, splits[i])
    {
      var duration := splits[i + 1] - splits[i];
      if IsAscending(s.samples) {
        SplitsAscend(s.samples, start, end);
        SplitsDefined(s, start, end, i);
      }
      if duration > 0 {
        var va := if splits[i] == start then vStart.value
                  else if InterpolateAt(s, splits[i]).Some? then InterpolateAt(s, splits[i]).value else vStart.value;
        DefinedIfAscending(s, splits[i]);
        if s.interpolation.Step? {
          weightedSum := weightedSum + va * Width(splits[i], splits[i + 1]);
        } else {
          var vb := InterpolateAt(s, splits[i + 1]);
          DefinedIfAscending(s, splits[i + 1]);
          if vb.None? {
            if IsAscending(s.samples) && i + 2 < |splits| {
              SplitsDefined(s, start, end, i + 1);
            }
            return None;
          }
          weightedSum := weightedSum + (va + vb.value) / 2.0 * Width(splits[i], splits[i + 1]);
        }
        if IsAscending(s.samples) {
          StepDefined(s, splits[i], splits[i + 1]);
          OneStretchMore(s, start, end, i);
          PlainAreaIs(s, splits[i], splits[i + 1]);
        }
      }
    }
    r := Some(weightedSum / Width(start, end));
  }

  lemma DefinedIfAscending(s: Series, t: Instant)
    ensures IsAscending(s.samples) ==> (InterpolateAt(s, t).Some? <==> DefinedAt(s, t))
  {
    if IsAscending(s.samples) {
      DefinedIff(s, t);
    }
  }

  lemma StepDefined(s: Series, a: Instant, b: Instant)
    requires DefinedAt(s, a) && a < b
    ensures s.interpolation.Step? ==> DefinedAt(s, b)
  {
  }

  lemma PlainAreaIs(s: Series, a: Instant, b: Instant)
    requires InterpolateAt(s, a).Some? && InterpolateAt(s, b).Some?
    ensures PlainArea(s, a, b) == if s.interpolation.Step? then InterpolateAt(s, a).value * Width(a, b)
      else (InterpolateAt(s, a).value + InterpolateAt(s, b).value) / 2.0 * Width(a, b)
  {
  }

  // ---- extremes over a stretch -----------------------------------------------------------------

  /** Which extreme is looked for. */
  datatype Pick = Lowest | Highest

  /** m bounds v on the side of the extreme. */
  predicate Bounds(pick: Pick, m: real, v: real) {
    if pick.Lowest? then m <= v else v <= m
  }

  function Picked(pick: Pick, a: real, b: real): real {
    if Bounds(pick, a, b) then a else b
  }

  function ExtremeOver(s: Series, pick: Pick, samples: seq<Sample>, start: Instant, end: Instant, from: real): real {
    if samples == [] then from else
      var n := |samples| - 1;
      var before := ExtremeOver(s, pick, samples[..n], start, end, from);
      if start < samples[n].t < end && InterpolateAt(s, samples[n].t).Some?
      then Picked(pick, before, InterpolateAt(s, samples[n].t).value) else before
  }

  function ExtremeOf(s: Series, pick: Pick, start: Instant, end: Instant): Option<real> {
    if start >= end || InterpolateAt(s, start).None? then None else
      var inner := ExtremeOver(s, pick, s.samples, start, end, InterpolateAt(s, start).value);
      if s.interpolation.Linear? && InterpolateAt(s, end).Some?
      then Some(Picked(pick, inner, InterpolateAt(s, end).value)) else Some(inner)
  }

  method BucketExtreme(s: Series, start: Instant, end: Instant, pick: Pick) returns (r: Option<real>)
    ensures r == ExtremeOf(s, pick, start, end)
  {
    if start >= end || s.samples == [] {
      return None;
    }
    var vStart := InterpolateAt(s, start);
    if vStart.None? {
      return None;
    }
    var result := vStart.value;
    for k := 0 to |s.samples|
      invariant result == ExtremeOver(s, pick, s.samples[..k], start, end, vStart.value)
    {
      assert s.samples[..k + 1][..k] == s.samples[..k];
      var t := s.samples[k].t;
      if t > start && t < end {
        var v := InterpolateAt(s, t);
        if v.Some? {
          result := Picked(pick, result, v.value);
        }
      }
    }
    assert s.samples[..|s.samples|] == s.samples;
    if s.interpolation.Linear? {
      var vEnd := InterpolateAt(s, end);
      if vEnd.Some? {
        result := Picked(pick, result, vEnd.value);
      }
    }
    r := Some(result);
  }

  // ---- the uniform grid ------------------------------------------------------------------------

  datatype Aggregation = Mean | Min | Max

  function FloorToGrid(ts: Instant, width: int): (r: Instant)
    requires width > 0
    ensures r % width == 0 && r <= ts < r + width
  {
    OnGrid(ts, width);
    ts - ts % width
  }

  function CeilToGrid(ts: Instant, width: int): (r: Instant)
    requires width > 0
    ensures r % width == 0 && r - width < ts <= r
  {
    OnGrid(ts, width);
    if ts % width == 0 then ts else ts + (width - ts % width)
  }

  lemma OnGrid(ts: Instant, width: int)
    requires width > 0
    ensures (ts - ts % width) % width == 0
    ensures (ts + (width - ts % width)) % width == 0
  {
    var q := ts / width;
    assert ts - ts % width == q * width;
    assert ts + (width - ts % width) == (q + 1) * width;
    MultipleOnGrid(q, width);
    MultipleOnGrid(q + 1, width);
  }

  lemma MultipleOnGrid(q: int, width: int)
    requires width > 0
    ensures (q * width) % width == 0
  {
    var x := q * width;
    assert x == (x / width) * width + x % width;
    assert (q - x / width) * width == x % width;
    MulAtLeast(q - x / width, width);
  }

  lemma MultiplesApart(p: int, q: int, width: int)
    requires width > 0 && p * width < q * width
    ensures p * width + width <= q * width
  {
    assert (p - q) * width == p * width - q * width;
    MulAtLeast(p - q, width);
    MulAtLeast(q - p, width);
    assert (q - p) * width == q * width - p * width;
  }

  /** Two grid points at most one width apart from below are equal. */
  lemma GridStep(a: int, b: int, width: int)
    requires width > 0 && a % width == 0 && b % width == 0 && a < b
    ensures a + width <= b && (a + width) % width == 0
  {
    var p, q := a / width, b / width;
    assert a == p * width && b == q * width;
    MultiplesApart(p, q, width);
    GridNext(a, width);
  }

  function BucketValue(s: Series, agg: Aggregation, t: Instant, end: Instant): Option<real> {
    match agg
    case Mean => MeanOf(s, t, end)
    case Min => ExtremeOf(s, Lowest, t, end)
    case Max => ExtremeOf(s, Highest, t, end)
  }

  /** The buckets from t to the last grid point, those with a value. */
  function Buckets(s: Series, width: int, agg: Aggregation, t: Instant, gridEnd: Instant): seq<Sample>
    requires width > 0
    decreases gridEnd - t
  {
    if t > gridEnd then [] else
      var value := BucketValue(s, agg, t, t + width);
      (if value.Some? then [Sample(t, value.value)] else []) + Buckets(s, width, agg, t + width, gridEnd)
  }

  function First(s: Series): Instant
    requires s.samples != []
  {
    s.samples[0].t
  }

  function Last(s: Series): Instant
    requires s.samples != []
  {
    s.samples[|s.samples| - 1].t
  }

  function UniformOf(s: Series, width: int, agg: Aggregation): Series {
    if s.samples == [] || width <= 0 then Series([], s.interpolation)
    else Series(Buckets(s, width, agg, CeilToGrid(First(s), width), FloorToGrid(Last(s), width)), s.interpolation)
  }

  lemma BucketStep(s: Series, width: int, agg: Aggregation, t: Instant, gridEnd: Instant, before: seq<Sample>)
    requires width > 0 && t <= gridEnd
    ensures (var value := BucketValue(s, agg, t, t + width);
             var now := if value.Some? then before + [Sample(t, value.value)] else before;
             before + Buckets(s, width, agg, t, gridEnd) == now + Buckets(s, width, agg, t + width, gridEnd))
  {
    hide BucketValue;
  }

  lemma NoBucketAfter(s: Series, width: int, agg: Aggregation, t: Instant, gridEnd: Instant)
    requires width > 0 && t > gridEnd
    ensures Buckets(s, width, agg, t, gridEnd) == []
  {
  }

  method ResampleUniform(s: Series, width: int, agg: Aggregation) returns (r: Series)
    ensures IsAscending(s.samples) ==> r == UniformOf(s, width, agg)
  {
    hide MeanOf, ExtremeOf;
    if s.samples == [] || width <= 0 {
      return Series([], s.interpolation);
    }
    var gridStart := CeilToGrid(First(s), width);
    var gridEnd := FloorToGrid(Last(s), width);
    var samples := [];
    var t := gridStart;
    while t <= gridEnd
      invariant IsAscending(s.samples) ==>
        samples + Buckets(s, width, agg, t, gridEnd) == Buckets(s, width, agg, gridStart, gridEnd)
      decreases gridEnd - t
    {
      hide Buckets, IsAscending;
      var bucketEnd := t + width;
      var value;
      match agg {
        case Mean => value := TimeWeightedMean(s, t, bucketEnd);
        case Min => value := BucketExtreme(s, t, bucketEnd, Lowest);
        case Max => value := BucketExtreme(s, t, bucketEnd, Highest);
      }
      assert IsAscending(s.samples) ==> value == BucketValue(s, agg, t, bucketEnd);
      BucketStep(s, width, agg, t, gridEnd, samples);
      if value.Some? {
        samples := samples + [Sample(t, value.value)];
      }
      t := bucketEnd;
    }
    NoBucketAfter(s, width, agg, t, gridEnd);
    r := Series(samples, s.interpolation);
  }

  // ---- conservation ----------------------------------------------------------------------------

  function SumOf(samples: seq<Sample>): real {
    if samples == [] then 0.0 else samples[0].v + SumOf(samples[1..])
  }

  /** Where the resampled means account for the signal: to the end of the last bucket for Step; for
      Linear the bucket past the data is dropped. */
  function CoveredEnd(s: Series, width: int): Instant
    requires width > 0 && s.samples != []
  {
    if s.interpolation.Step? then FloorToGrid(Last(s), width) + width else FloorToGrid(Last(s), width)
  }

  lemma MeanTimesWidth(s: Series, t: Instant, width: int)
    requires width > 0 && MeanOf(s, t, t + width).Some?
    ensures MeanOf(s, t, t + width).value * (width as real) == Integral(s.samples, s.interpolation, t, t + width)
  {
    hide Integral;
    var area, w := Integral(s.samples, s.interpolation, t, t + width), width as real;
    assert Width(t, t + width) == w;
    assert area / w * w == area;
  }

  /** A bucket on the grid has a mean exactly when it does not reach past the covered end. */
  lemma BucketDefined(s: Series, width: int, t: Instant)
    requires IsAscending(s.samples) && s.samples != [] && width > 0
    requires t % width == 0 && First(s) <= t <= FloorToGrid(Last(s), width)
    ensures MeanOf(s, t, t + width).Some? <==> t + width <= CoveredEnd(s, width)
  {
    hide Integral, FloorToGrid;
    var gridEnd := FloorToGrid(Last(s), width);
    if t < gridEnd {
      GridStep(t, gridEnd, width);
    }
  }

  lemma {:induction false} BucketsConserve(s: Series, width: int, t: Instant)
    requires IsAscending(s.samples) && s.samples != [] && width > 0
    requires t % width == 0 && First(s) <= t
    ensures SumOf(Buckets(s, width, Mean, t, FloorToGrid(Last(s), width))) * (width as real)
         == Integral(s.samples, s.interpolation, t, CoveredEnd(s, width))
    decreases CoveredEnd(s, width) + width - t
  {
    hide Integral, FloorToGrid, MeanOf;
    var gridEnd, covered := FloorToGrid(Last(s), width), CoveredEnd(s, width);
    if t > gridEnd {
      PastCovered(s, width, t);
    } else {
      GridNext(t, width);
      var rest := Buckets(s, width, Mean, t + width, gridEnd);
      BucketsConserve(s, width, t + width);
      OneBucketMore(s, width, t, rest);
    }
  }

  lemma OneBucketMore(s: Series, width: int, t: Instant, rest: seq<Sample>)
    requires IsAscending(s.samples) && s.samples != [] && width > 0
    requires t % width == 0 && First(s) <= t <= FloorToGrid(Last(s), width)
    requires SumOf(rest) * (width as real) == Integral(s.samples, s.interpolation, t + width, CoveredEnd(s, width))
    ensures (var value := MeanOf(s, t, t + width);
             SumOf((if value.Some? then [Sample(t, value.value)] else []) + rest) * (width as real)
             == Integral(s.samples, s.interpolation, t, CoveredEnd(s, width)))
  {
    hide Integral, FloorToGrid, MeanOf;
    var covered, value := CoveredEnd(s, width), MeanOf(s, t, t + width);
    BucketDefined(s, width, t);
    if value.Some? {
      assert ([Sample(t, value.value)] + rest)[1..] == rest;
      MeanTimesWidth(s, t, width);
      Distributes(width as real, value.value, SumOf(rest));
      IntegralSplits(s.samples, s.interpolation, t, t + width, covered);
    } else {
      assert [] + rest == rest;
      BackwardsIsEmpty(s.samples, s.interpolation, t + width, covered);
      LinearEndsAt(s, width, t);
      BackwardsIsEmpty(s.samples, s.interpolation, t, covered);
    }
  }

  lemma LinearEndsAt(s: Series, width: int, t: Instant)
    requires s.samples != [] && width > 0 && t <= FloorToGrid(Last(s), width)
    requires t % width == 0 && t + width > CoveredEnd(s, width)
    ensures CoveredEnd(s, width) <= t
  {
    if t < FloorToGrid(Last(s), width) {
      GridStep(t, FloorToGrid(Last(s), width), width);
    }
  }

  lemma GridNext(t: int, width: int)
    requires width > 0 && t % width == 0
    ensures (t + width) % width == 0
  {
    assert t == (t / width) * width;
    assert t + width == (t / width + 1) * width;
    MultipleOnGrid(t / width + 1, width);
  }

  lemma PastCovered(s: Series, width: int, t: Instant)
    requires s.samples != [] && width > 0 && t % width == 0 && t > FloorToGrid(Last(s), width)
    ensures CoveredEnd(s, width) <= t
    ensures Integral(s.samples, s.interpolation, t, CoveredEnd(s, width)) == 0.0
  {
    GridStep(FloorToGrid(Last(s), width), t, width);
    BackwardsIsEmpty(s.samples, s.interpolation, t, CoveredEnd(s, width));
  }

  lemma {:induction false} BackwardsIsEmpty(samples: seq<Sample>, mode: Interpolation, a: Instant, b: Instant)
    requires b <= a
    ensures Integral(samples, mode, a, b) == 0.0
  {
    if |samples| > 1 {
      BackwardsIsEmpty(samples[1..], mode, a, b);
    }
  }

  /** Resampling to means conserves the integral: the sum of value times width is the signal's integral
      from the first grid point to the covered end. */
  lemma ResamplingConserves(s: Series, width: int)
    requires IsAscending(s.samples) && s.samples != [] && width > 0
    ensures SumOf(UniformOf(s, width, Mean).samples) * (width as real)
         == Integral(s.samples, s.interpolation, CeilToGrid(First(s), width), CoveredEnd(s, width))
  {
    hide Integral, SumOf, Buckets, CoveredEnd;
    BucketsConserve(s, width, CeilToGrid(First(s), width));
  }

  /** Samples in order from t on, on the grid, each with its own bucket's value. */
  ghost predicate OnGridFrom(s: Series, width: int, agg: Aggregation, t: Instant, gridEnd: Instant, r: seq<Sample>) {
    IsAscending(r) && forall k :: 0 <= k < |r| ==> GridSample(s, width, agg, t, gridEnd, r[k])
  }

  predicate GridSample(s: Series, width: int, agg: Aggregation, t: Instant, gridEnd: Instant, x: Sample) {
    width > 0 && t <= x.t <= gridEnd && x.t % width == 0 && BucketValue(s, agg, x.t, x.t + width) == Some(x.v)
  }

  lemma GridConcat(s: Series, width: int, agg: Aggregation, t: Instant, gridEnd: Instant, first: seq<Sample>,
      rest: seq<Sample>)
    requires width > 0 && |first| <= 1
    requires first != [] ==> GridSample(s, width, agg, t, gridEnd, first[0]) && first[0].t == t
    requires OnGridFrom(s, width, agg, t + width, gridEnd, rest)
    ensures OnGridFrom(s, width, agg, t, gridEnd, first + rest)
  {
    hide BucketValue;
    forall k | 0 <= k < |rest|
      ensures GridSample(s, width, agg, t, gridEnd, rest[k]) && rest[k].t > t
    {
      assert GridSample(s, width, agg, t + width, gridEnd, rest[k]);
    }
  }

  lemma {:induction false} BucketsOnGrid(s: Series, width: int, agg: Aggregation, t: Instant, gridEnd: Instant)
    requires width > 0 && t % width == 0
    ensures OnGridFrom(s, width, agg, t, gridEnd, Buckets(s, width, agg, t, gridEnd))
    decreases gridEnd - t
  {
    hide BucketValue, OnGridFrom;
    if t > gridEnd {
      EmptyOnGrid(s, width, agg, t, gridEnd);
    } else {
      GridNext(t, width);
      BucketsOnGrid(s, width, agg, t + width, gridEnd);
      var value := BucketValue(s, agg, t, t + width);
      GridConcat(s, width, agg, t, gridEnd, if value.Some? then [Sample(t, value.value)] else [],
                 Buckets(s, width, agg, t + width, gridEnd));
    }
  }

  lemma EmptyOnGrid(s: Series, width: int, agg: Aggregation, t: Instant, gridEnd: Instant)
    ensures OnGridFrom(s, width, agg, t, gridEnd, [])
  {
  }

  /** The resampled times are epoch-aligned, whatever the series, so resampled series share them; each
      carries the value of its own bucket. */
  lemma ResampledOnGrid(s: Series, width: int, agg: Aggregation)
    requires s.samples != [] && width > 0
    ensures var r := UniformOf(s, width, agg).samples;
      && IsAscending(r)
      && forall k :: 0 <= k < |r| ==>
           && r[k].t % width == 0 && First(s) <= r[k].t <= Last(s)
           && BucketValue(s, agg, r[k].t, r[k].t + width) == Some(r[k].v)
  {
    hide Buckets, BucketValue;
    var from, to := CeilToGrid(First(s), width), FloorToGrid(Last(s), width);
    BucketsOnGrid(s, width, agg, from, to);
    var r := UniformOf(s, width, agg).samples;
    assert forall k :: 0 <= k < |r| ==> GridSample(s, width, agg, from, to, r[k]);
  }
}
