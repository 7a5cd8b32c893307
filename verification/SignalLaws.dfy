/** Two laws of the signal: bucket extremes bound every value and the mean, and resampling onto a finer
    grid changes nothing. */
module SignalLaws {
  import opened Options
  import opened Numbers
  import opened TimeSeries
  import opened Resampling

  // ---- values between two values ---------------------------------------------------------------

  lemma WeightedBound(pick: Pick, m: real, x: real, z: real, p: real, q: real)
    requires Bounds(pick, m, x) && Bounds(pick, m, z) && p >= 0.0 && q >= 0.0
    ensures Bounds(pick, m * (p + q), x * q + z * p)
  {
    Distributes(m, p, q);
    if pick.Lowest? {
      assert (x - m) * q >= 0.0 && (z - m) * p >= 0.0;
    } else {
      assert (m - x) * q >= 0.0 && (m - z) * p >= 0.0;
    }
  }

  /** On a line, a bound at both ends of a stretch is a bound inside it. */
  lemma LineBetween(pick: Pick, m: real, a: Sample, b: Sample, lo: Instant, x: Instant, hi: Instant)
    requires a.t < b.t && lo <= x <= hi && lo < hi
    requires Bounds(pick, m, Line(a, b, lo)) && Bounds(pick, m, Line(a, b, hi))
    ensures Bounds(pick, m, Line(a, b, x))
  {
    hide Line;
    var y, w := Line(a, b, x), Width(lo, hi);
    LineMix(a, b, lo, x, hi);
    WeightedBound(pick, m, Line(a, b, lo), Line(a, b, hi), Width(lo, x), Width(x, hi));
    assert Width(lo, x) + Width(x, hi) == w;
    CancelWidth(pick, m, y, w);
  }

  lemma CancelWidth(pick: Pick, m: real, y: real, w: real)
    requires w > 0.0 && Bounds(pick, m * w, y * w)
    ensures Bounds(pick, m, y)
  {
    PositiveProduct(m - y, w);
    PositiveProduct(y - m, w);
    assert (m - y) * w == m * w - y * w && (y - m) * w == y * w - m * w;
  }

  // ---- extremes --------------------------------------------------------------------------------

  lemma {:induction false} ExtremeOverBounds(s: Series, pick: Pick, n: nat, start: Instant, end: Instant, from: real)
    requires n <= |s.samples|
    ensures var m := ExtremeOver(s, pick, s.samples[..n], start, end, from);
      && Bounds(pick, m, from)
      && forall k :: 0 <= k < n && start < s.samples[k].t < end && InterpolateAt(s, s.samples[k].t).Some? ==>
           Bounds(pick, m, InterpolateAt(s, s.samples[k].t).value)
  {
    hide InterpolateAt;
    if n > 0 {
      ExtremeOverBounds(s, pick, n - 1, start, end, from);
      assert s.samples[..n][..n - 1] == s.samples[..n - 1];
    }
  }

  /** What the extreme was compared with: the values at the start, at every sample inside, and for
      Linear at the end where it is defined. */
  lemma ExtremeBoundsSamples(s: Series, pick: Pick, start: Instant, end: Instant, x: Instant)
    requires IsAscending(s.samples) && ExtremeOf(s, pick, start, end).Some?
    requires x == start || (exists k :: 0 <= k < |s.samples| && start < s.samples[k].t < end && s.samples[k].t == x)
             || (x == end && s.interpolation.Linear?)
    requires InterpolateAt(s, x).Some?
    ensures Bounds(pick, ExtremeOf(s, pick, start, end).value, InterpolateAt(s, x).value)
  {
    hide InterpolateAt;
    assert s.samples[..|s.samples|] == s.samples;
    ExtremeOverBounds(s, pick, |s.samples|, start, end, InterpolateAt(s, start).value);
  }

  lemma StepValue(s: Series, x: Instant)
    requires s.interpolation.Step? && s.samples != [] && First(s) <= x
    ensures PartitionPoint(s.samples, x) > 0
    ensures InterpolateAt(s, x) == Some(s.samples[PartitionPoint(s.samples, x) - 1].v)
  {
  }

  /** Step: the value carried to x is the value at the start or at a sample inside. */
  lemma StepBetween(s: Series, pick: Pick, start: Instant, end: Instant, x: Instant)
    requires IsAscending(s.samples) && ExtremeOf(s, pick, start, end).Some? && s.interpolation.Step?
    requires start <= x < end && InterpolateAt(s, x).Some?
    ensures Bounds(pick, ExtremeOf(s, pick, start, end).value, InterpolateAt(s, x).value)
  {
    hide ExtremeOf, InterpolateAt;
    DefinedIff(s, x);
    DefinedIff(s, start);
    var pos := PartitionPoint(s.samples, x);
    StepValue(s, x);
    var left := s.samples[pos - 1];
    if left.t <= start {
      PartitionPointAt(s.samples, start, pos);
      StepValue(s, start);
      ExtremeBoundsSamples(s, pick, start, end, start);
    } else {
      SampleIsValue(s, pos - 1);
      ExtremeBoundsSamples(s, pick, start, end, left.t);
    }
  }

  /** Every defined value of the signal on [start, end) is within the bucket's extreme. */
  lemma ExtremeBoundsSignal(s: Series, pick: Pick, start: Instant, end: Instant, x: Instant)
    requires IsAscending(s.samples) && ExtremeOf(s, pick, start, end).Some?
    requires start <= x < end && InterpolateAt(s, x).Some?
    ensures Bounds(pick, ExtremeOf(s, pick, start, end).value, InterpolateAt(s, x).value)
  {
    hide ExtremeOf, InterpolateAt;
    if x == start {
      ExtremeBoundsSamples(s, pick, start, end, start);
    } else if s.interpolation.Step? {
      StepBetween(s, pick, start, end, x);
    } else {
      var pos := PartitionPoint(s.samples, x);
      LinearPlace(s, x, pos);
      if s.samples[pos - 1].t == x {
        ExtremeBoundsSamples(s, pick, start, end, x);
      } else {
        LinearBetween(s, pick, start, end, x, pos);
      }
    }
  }

  lemma LinearPlace(s: Series, x: Instant, pos: nat)
    requires s.interpolation.Linear? && InterpolateAt(s, x).Some? && pos == PartitionPoint(s.samples, x)
    ensures pos > 0 && (s.samples[pos - 1].t == x || pos < |s.samples|)
  {
  }

  /** A point of a Linear piece lies between two points the extreme was compared with. */
  lemma LinearBetween(s: Series, pick: Pick, start: Instant, end: Instant, x: Instant, pos: nat)
    requires IsAscending(s.samples) && ExtremeOf(s, pick, start, end).Some? && s.interpolation.Linear?
    requires start < x < end && 0 < pos < |s.samples| && s.samples[pos - 1].t < x < s.samples[pos].t
    ensures InterpolateAt(s, x).Some?
    ensures Bounds(pick, ExtremeOf(s, pick, start, end).value, InterpolateAt(s, x).value)
  {
    hide Line, ExtremeOf, InterpolateAt;
    var p, q := s.samples[pos - 1], s.samples[pos];
    var lo, hi := MaxI(start, p.t), MinI(end, q.t);
    OnPiece(s, pos, lo);
    OnPiece(s, pos, x);
    OnPiece(s, pos, hi);
    ExtremeBoundsSamples(s, pick, start, end, lo);
    ExtremeBoundsSamples(s, pick, start, end, hi);
    LineBetween(pick, ExtremeOf(s, pick, start, end).value, p, q, lo, x, hi);
  }

  /** On a closed piece of a Linear series the value is the line's. */
  lemma OnPiece(s: Series, pos: nat, x: Instant)
    requires IsAscending(s.samples) && 0 < pos < |s.samples| && s.interpolation.Linear?
    requires s.samples[pos - 1].t <= x <= s.samples[pos].t
    ensures InterpolateAt(s, x) == Some(Line(s.samples[pos - 1], s.samples[pos], x))
  {
    hide Line;
    LineEnds(s.samples[pos - 1], s.samples[pos]);
    if x < s.samples[pos].t {
      PartitionPointAt(s.samples, x, pos);
    } else {
      SampleIsValue(s, pos);
    }
  }

  lemma {:induction false} ExtremeOverReached(s: Series, pick: Pick, n: nat, start: Instant, end: Instant,
        from: real) returns (x: Instant)
    requires n <= |s.samples| && start < end && InterpolateAt(s, start) == Some(from)
    ensures start <= x < end
    ensures InterpolateAt(s, x) == Some(ExtremeOver(s, pick, s.samples[..n], start, end, from))
  {
    hide InterpolateAt;
    if n == 0 {
      x := start;
    } else {
      x := ExtremeOverReached(s, pick, n - 1, start, end, from);
      assert s.samples[..n][..n - 1] == s.samples[..n - 1];
      var t := s.samples[n - 1].t;
      if start < t < end && InterpolateAt(s, t).Some?
         && !Bounds(pick, InterpolateAt(s, x).value, InterpolateAt(s, t).value) {
        x := t;
      }
    }
  }

  /** The extreme is a value of the signal on the closed stretch, so it is the least or greatest one. */
  lemma ExtremeIsReached(s: Series, pick: Pick, start: Instant, end: Instant) returns (x: Instant)
    requires ExtremeOf(s, pick, start, end).Some?
    ensures start <= x <= end && (s.interpolation.Step? ==> x < end)
    ensures InterpolateAt(s, x) == ExtremeOf(s, pick, start, end)
  {
    hide InterpolateAt;
    assert s.samples[..|s.samples|] == s.samples;
    x := ExtremeOverReached(s, pick, |s.samples|, start, end, InterpolateAt(s, start).value);
    if s.interpolation.Linear? && InterpolateAt(s, end).Some?
       && !Bounds(pick, InterpolateAt(s, x).value, InterpolateAt(s, end).value) {
      x := end;
    }
  }

  // ---- the mean lies between the extremes ------------------------------------------------------

  /** m bounds the signal on [a, b), for Linear on [a, b]. */
  ghost predicate BoundsOn(s: Series, pick: Pick, m: real, a: Instant, b: Instant) {
    forall x :: a <= x < b || (x == b && s.interpolation.Linear?) ==>
      InterpolateAt(s, x).Some? ==> Bounds(pick, m, InterpolateAt(s, x).value)
  }

  lemma PlainAreaBounded(s: Series, pick: Pick, m: real, a: Instant, b: Instant)
    requires a < b && InterpolateAt(s, a).Some? && InterpolateAt(s, b).Some? && BoundsOn(s, pick, m, a, b)
    ensures Bounds(pick, m * Width(a, b), PlainArea(s, a, b))
  {
    hide InterpolateAt;
    var w, x, z := Width(a, b), InterpolateAt(s, a).value, InterpolateAt(s, b).value;
    assert Bounds(pick, m, x);
    if s.interpolation.Step? {
      WeightedBound(pick, m, x, x, w, 0.0);
    } else {
      assert Bounds(pick, m, z);
      WeightedBound(pick, m, x, z, w / 2.0, w / 2.0);
      assert m * (w / 2.0 + w / 2.0) == m * w;
      assert x * (w / 2.0) + z * (w / 2.0) == (x + z) / 2.0 * w;
    }
  }

  lemma SumBounds(pick: Pick, m: real, a: Instant, c: Instant, b: Instant, x: real, y: real)
    requires Bounds(pick, m * Width(a, c), x) && Bounds(pick, m * Width(c, b), y)
    ensures Bounds(pick, m * Width(a, b), x + y)
  {
    assert Width(a, b) == Width(a, c) + Width(c, b);
    Distributes(m, Width(a, c), Width(c, b));
  }

  lemma BoundsOnPart(s: Series, pick: Pick, m: real, start: Instant, end: Instant, a: Instant, b: Instant)
    requires BoundsOn(s, pick, m, start, end) && start <= a < b <= end
    ensures BoundsOn(s, pick, m, a, b)
  {
    hide InterpolateAt;
  }

  /** One stretch more of the bounded sum. */
  lemma StretchBounded(s: Series, pick: Pick, m: real, start: Instant, end: Instant, i: nat)
    requires IsAscending(s.samples) && start < end && DefinedAt(s, start) && DefinedAt(s, end)
    requires BoundsOn(s, pick, m, start, end) && i + 1 < |Splits(s.samples, start, end)|
    requires Bounds(pick, m * Width(start, Splits(s.samples, start, end)[i]),
                    Integral(s.samples, s.interpolation, start, Splits(s.samples, start, end)[i]))
    ensures Bounds(pick, m * Width(start, Splits(s.samples, start, end)[i + 1]),
                   Integral(s.samples, s.interpolation, start, Splits(s.samples, start, end)[i + 1]))
  {
    hide Integral, InterpolateAt, PlainArea, Splits, BoundsOn, DefinedAt;
    var splits := Splits(s.samples, start, end);
    FirstSplit(s.samples, start, end);
    SplitsAscend(s.samples, start, end);
    if i + 2 < |splits| {
      SplitsDefined(s, start, end, i + 1);
    }
    OneStretchMore(s, start, end, i);
    BoundsOnPart(s, pick, m, start, end, splits[i], splits[i + 1]);
    PlainAreaBounded(s, pick, m, splits[i], splits[i + 1]);
    SumBounds(pick, m, start, splits[i], splits[i + 1],
              Integral(s.samples, s.interpolation, start, splits[i]), PlainArea(s, splits[i], splits[i + 1]));
  }

  /** A bound on the signal bounds its integral: the sum over the split points, stretch by stretch. */
  lemma IntegralBounded(s: Series, pick: Pick, m: real, start: Instant, end: Instant)
    requires IsAscending(s.samples) && start < end && DefinedAt(s, start) && DefinedAt(s, end)
    requires BoundsOn(s, pick, m, start, end)
    ensures Bounds(pick, m * Width(start, end), Integral(s.samples, s.interpolation, start, end))
  {
    hide Integral, InterpolateAt, Splits, BoundsOn, DefinedAt;
    var splits := Splits(s.samples, start, end);
    FirstSplit(s.samples, start, end);
    EmptyStretch(s.samples, s.interpolation, start);
    for i := 0 to |splits| - 1
      invariant Bounds(pick, m * Width(start, splits[i]), Integral(s.samples, s.interpolation, start, splits[i]))
    {
      StretchBounded(s, pick, m, start, end, i);
    }
  }

  /** Bucket bounds are sound: where a mean is defined, so are both extremes, and the mean lies between
      them; and so does every value of the signal (`ExtremeBoundsSignal`). */
  lemma MeanBetweenExtremes(s: Series, pick: Pick, start: Instant, end: Instant)
    requires IsAscending(s.samples) && MeanOf(s, start, end).Some?
    ensures ExtremeOf(s, pick, start, end).Some?
    ensures Bounds(pick, ExtremeOf(s, pick, start, end).value, MeanOf(s, start, end).value)
  {
    hide Integral, InterpolateAt;
    DefinedIff(s, start);
    DefinedIff(s, end);
    ExtremeBoundsAll(s, pick, start, end);
    var m := ExtremeOf(s, pick, start, end).value;
    IntegralBounded(s, pick, m, start, end);
    var area, w := Integral(s.samples, s.interpolation, start, end), Width(start, end);
    assert area / w * w == area;
    CancelWidth(pick, m, area / w, w);
  }

  lemma ExtremeBoundsAll(s: Series, pick: Pick, start: Instant, end: Instant)
    requires IsAscending(s.samples) && ExtremeOf(s, pick, start, end).Some?
    ensures BoundsOn(s, pick, ExtremeOf(s, pick, start, end).value, start, end)
  {
    hide ExtremeOf, InterpolateAt;
    forall x | (start <= x < end || (x == end && s.interpolation.Linear?)) && InterpolateAt(s, x).Some?
      ensures Bounds(pick, ExtremeOf(s, pick, start, end).value, InterpolateAt(s, x).value)
    {
      if x < end {
        ExtremeBoundsSignal(s, pick, start, end, x);
      } else {
        ExtremeBoundsSamples(s, pick, start, end, end);
      }
    }
  }

  // ---- refining the grid -----------------------------------------------------------------------

  /** The interpolated value at every grid time where there is one. */
  function ResampleToGrid(s: Series, grid: seq<Instant>): Series {
    Series(SamplesAt(s, grid), s.interpolation)
  }

  function SamplesAt(s: Series, grid: seq<Instant>): seq<Sample> {
    if grid == [] then [] else
      var n := |grid| - 1;
      var v := InterpolateAt(s, grid[n]);
      SamplesAt(s, grid[..n]) + if v.Some? then [Sample(grid[n], v.value)] else []
  }

  lemma {:induction false} SamplesAtAre(s: Series, grid: seq<Instant>)
    requires Ascends(grid)
    ensures var r := SamplesAt(s, grid);
      && IsAscending(r)
      && (forall k :: 0 <= k < |r| ==> r[k].t in grid && InterpolateAt(s, r[k].t) == Some(r[k].v))
      && (forall t :: t in grid && InterpolateAt(s, t).Some? ==> Sample(t, InterpolateAt(s, t).value) in r)
  {
    hide InterpolateAt;
    if grid != [] {
      var n := |grid| - 1;
      SamplesAtAre(s, grid[..n]);
      assert grid == grid[..n] + [grid[n]];
      var before := SamplesAt(s, grid[..n]);
      forall k | 0 <= k < |before|
        ensures before[k].t < grid[n]
      {
        assert before[k].t in grid[..n];
      }
    }
  }

  /** The grid holds every sample time. */
  ghost predicate Refines(grid: seq<Instant>, s: Series) {
    Ascends(grid) && forall k :: 0 <= k < |s.samples| ==> s.samples[k].t in grid
  }

  /** The resampled series begins where the series does, and for Linear ends where it does. */
  lemma SameReach(s: Series, grid: seq<Instant>)
    requires IsAscending(s.samples) && Refines(grid, s) && s.samples != []
    ensures var r := SamplesAt(s, grid);
      && r != [] && r[0].t == First(s)
      && (forall k :: 0 <= k < |s.samples| ==> s.samples[k] in r)
      && (s.interpolation.Linear? ==> r[|r| - 1].t == Last(s))
  {
    hide InterpolateAt, SamplesAt;
    var r := SamplesAt(s, grid);
    SamplesAtAre(s, grid);
    forall k | 0 <= k < |s.samples|
      ensures s.samples[k] in r
    {
      SampleIsValue(s, k);
    }
    assert s.samples[0] in r;
    var i :| 0 <= i < |r| && r[i] == s.samples[0];
    DefinedIff(s, r[0].t);
    assert i == 0;
    if s.interpolation.Linear? {
      assert s.samples[|s.samples| - 1] in r;
      var j :| 0 <= j < |r| && r[j] == s.samples[|s.samples| - 1];
      DefinedIff(s, r[|r| - 1].t);
      assert j == |r| - 1;
    }
  }

  /** Neighbours in the resampled series lie in one piece of the series. */
  lemma NeighboursInPiece(s: Series, grid: seq<Instant>, x: Instant, pos: nat)
    requires IsAscending(s.samples) && Refines(grid, s)
    requires pos == PartitionPoint(SamplesAt(s, grid), x) && pos > 0
    ensures var r := SamplesAt(s, grid);
            var was := PartitionPoint(s.samples, x);
      && was > 0 && s.samples[was - 1].t <= r[pos - 1].t
      && (was < |s.samples| ==> pos < |r| && r[pos].t <= s.samples[was].t)
  {
    hide InterpolateAt, SamplesAt, PartitionPoint;
    var r := SamplesAt(s, grid);
    SamplesAtAre(s, grid);
    DefinedIff(s, r[pos - 1].t);
    SameReach(s, grid);
    var was := PartitionPoint(s.samples, x);
    assert s.samples[was - 1] in r;
    var i :| 0 <= i < |r| && r[i] == s.samples[was - 1];
    assert i < pos;
    if was < |s.samples| {
      assert s.samples[was] in r;
      var j :| 0 <= j < |r| && r[j] == s.samples[was];
      assert pos <= j;
    }
  }

  /** Points of one line span the same line. */
  lemma LineThroughPoints(a: Sample, b: Sample, c: Sample, d: Sample, x: Instant)
    requires a.t < b.t && c.t < d.t
    requires c.v == Line(a, b, c.t) && d.v == Line(a, b, d.t)
    ensures Line(c, d, x) == Line(a, b, x)
  {
    var k := (b.v - a.v) / Width(a.t, b.t);
    SlopeForm(a, b, c.t);
    SlopeForm(a, b, d.t);
    SlopeForm(a, b, x);
    SlopeForm(c, d, x);
    var w := Width(c.t, d.t);
    Distributes(k, Width(a.t, c.t), w);
    assert Width(a.t, d.t) == Width(a.t, c.t) + w;
    assert d.v - c.v == k * w;
    assert (k * w) / w == k;
    Distributes(k, Width(a.t, c.t), Width(c.t, x));
    assert Width(a.t, x) == Width(a.t, c.t) + Width(c.t, x);
  }

  lemma SamePlace(s: Series, grid: seq<Instant>, x: Instant, pos: nat)
    requires IsAscending(s.samples) && Refines(grid, s)
    requires pos == PartitionPoint(SamplesAt(s, grid), x) && pos > 0
    ensures PartitionPoint(s.samples, x) > 0
    ensures PartitionPoint(s.samples, SamplesAt(s, grid)[pos - 1].t) == PartitionPoint(s.samples, x)
  {
    hide SamplesAt, PartitionPoint;
    NeighboursInPiece(s, grid, x, pos);
    PartitionPointAt(s.samples, SamplesAt(s, grid)[pos - 1].t, PartitionPoint(s.samples, x));
  }

  /** Step: the values between two neighbours of the finer grid are the one carried forward. */
  lemma RefinedStep(s: Series, grid: seq<Instant>, x: Instant)
    requires IsAscending(s.samples) && Refines(grid, s) && s.samples != [] && s.interpolation.Step? && First(s) <= x
    ensures InterpolateAt(ResampleToGrid(s, grid), x) == InterpolateAt(s, x)
  {
    hide SamplesAt, InterpolateAt, PartitionPoint;
    var r := SamplesAt(s, grid);
    SamplesAtAre(s, grid);
    SameReach(s, grid);
    var pos := PartitionPoint(r, x);
    StepValue(ResampleToGrid(s, grid), x);
    SamePlace(s, grid, x, pos);
    StepValue(s, x);
    StepValue(s, r[pos - 1].t);
    StepValue(ResampleToGrid(s, grid), x);
  }

  lemma LinearValue(s: Series, x: Instant, pos: nat)
    requires s.interpolation.Linear? && pos == PartitionPoint(s.samples, x) && 0 < pos
    requires s.samples[pos - 1].t == x || pos < |s.samples|
    ensures InterpolateAt(s, x) == Some(if s.samples[pos - 1].t == x then s.samples[pos - 1].v
                                        else Line(s.samples[pos - 1], s.samples[pos], x))
  {
    hide Line;
  }

  /** Linear: neighbours of the finer grid lie on one line of the series. */
  lemma RefinedLinear(s: Series, grid: seq<Instant>, x: Instant)
    requires IsAscending(s.samples) && Refines(grid, s) && s.samples != [] && s.interpolation.Linear?
    requires First(s) <= x <= Last(s)
    ensures InterpolateAt(ResampleToGrid(s, grid), x) == InterpolateAt(s, x)
  {
    hide Line, SamplesAt, InterpolateAt;
    var r := SamplesAt(s, grid);
    SamplesAtAre(s, grid);
    SameReach(s, grid);
    var pos, was := PartitionPoint(r, x), PartitionPoint(s.samples, x);
    assert pos > 0;
    NeighboursInPiece(s, grid, x, pos);
    if r[pos - 1].t < x {
      InsidePiece(s, x, was);
      OnPiece(s, was, r[pos - 1].t);
      OnPiece(s, was, r[pos].t);
      OnPiece(s, was, x);
      LinearValue(ResampleToGrid(s, grid), x, pos);
      LineThroughPoints(s.samples[was - 1], s.samples[was], r[pos - 1], r[pos], x);
    } else {
      LinearValue(ResampleToGrid(s, grid), x, pos);
    }
  }

  lemma InsidePiece(s: Series, x: Instant, pos: nat)
    requires IsAscending(s.samples) && pos == PartitionPoint(s.samples, x) && 0 < pos && x <= Last(s)
    requires s.samples[pos - 1].t < x
    ensures pos < |s.samples|
  {
  }

  /** Refining the grid preserves the signal: resampled onto any ascending grid that keeps the sample
      times, the series has the same value at every instant, and none where it had none. */
  lemma RefiningPreservesSignal(s: Series, grid: seq<Instant>, x: Instant)
    requires IsAscending(s.samples) && Refines(grid, s)
    ensures InterpolateAt(ResampleToGrid(s, grid), x) == InterpolateAt(s, x)
  {
    hide InterpolateAt;
    var r := ResampleToGrid(s, grid);
    SamplesAtAre(s, grid);
    DefinedIff(s, x);
    DefinedIff(r, x);
    if s.samples == [] {
      if r.samples != [] {
        DefinedIff(s, r.samples[0].t);
      }
    } else {
      SameReach(s, grid);
      if DefinedAt(s, x) {
        if s.interpolation.Step? {
          RefinedStep(s, grid, x);
        } else {
          RefinedLinear(s, grid, x);
        }
      }
    }
  }

  // ---- the resampled series in plain terms -----------------------------------------------------

  /** Between two samples a Step signal keeps the earlier value, and after the last one the last. */
  lemma StepCarriesForward(s: Series, k: nat, x: Instant)
    requires IsAscending(s.samples) && s.interpolation.Step? && k < |s.samples|
    requires s.samples[k].t <= x && (k + 1 < |s.samples| ==> x < s.samples[k + 1].t)
    ensures InterpolateAt(s, x) == Some(s.samples[k].v)
  {
    PartitionPointAt(s.samples, x, k + 1);
  }

  /** Between two samples a Linear signal divides the rise as the time is divided. */
  lemma LinearDividesRise(s: Series, k: nat, x: Instant)
    requires IsAscending(s.samples) && s.interpolation.Linear? && k + 1 < |s.samples|
    requires s.samples[k].t <= x <= s.samples[k + 1].t
    ensures InterpolateAt(s, x).Some?
    ensures (var a, b := s.samples[k], s.samples[k + 1];
             (InterpolateAt(s, x).value - a.v) * (b.t - a.t) as real == (b.v - a.v) * (x - a.t) as real)
  {
    var a, b := s.samples[k], s.samples[k + 1];
    hide InterpolateAt;
    OnPiece(s, k + 1, x);
    RiseDivided(b.v - a.v, (x - a.t) as real, (b.t - a.t) as real);
  }

  lemma RiseDivided(rise: real, part: real, whole: real)
    requires whole > 0.0
    ensures rise * (part / whole) * whole == rise * part
  {
    var q := part / whole;
    assert q * whole == part;
    assert rise * q * whole == rise * (q * whole);
  }

  /** Min: no value of the signal within the bucket is below the sample, and it is a value of the signal in it. */
  lemma MinSampleIsLeast(s: Series, width: int, k: nat) returns (x: Instant)
    requires IsAscending(s.samples) && s.samples != [] && width > 0 && k < |UniformOf(s, width, Min).samples|
    ensures (var r := UniformOf(s, width, Min).samples[k];
             && (forall y :: r.t <= y < r.t + width && InterpolateAt(s, y).Some? ==> r.v <= InterpolateAt(s, y).value)
             && r.t <= x <= r.t + width && InterpolateAt(s, x) == Some(r.v))
  {
    hide InterpolateAt, UniformOf, ExtremeOf;
    ResampledOnGrid(s, width, Min);
    var r := UniformOf(s, width, Min).samples[k];
    forall y | r.t <= y < r.t + width && InterpolateAt(s, y).Some?
      ensures r.v <= InterpolateAt(s, y).value
    {
      ExtremeBoundsSignal(s, Lowest, r.t, r.t + width, y);
    }
    x := ExtremeIsReached(s, Lowest, r.t, r.t + width);
  }

  /** Max: likewise from above. */
  lemma MaxSampleIsGreatest(s: Series, width: int, k: nat) returns (x: Instant)
    requires IsAscending(s.samples) && s.samples != [] && width > 0 && k < |UniformOf(s, width, Max).samples|
    ensures (var r := UniformOf(s, width, Max).samples[k];
             && (forall y :: r.t <= y < r.t + width && InterpolateAt(s, y).Some? ==> InterpolateAt(s, y).value <= r.v)
             && r.t <= x <= r.t + width && InterpolateAt(s, x) == Some(r.v))
  {
    hide InterpolateAt, UniformOf, ExtremeOf;
    ResampledOnGrid(s, width, Max);
    var r := UniformOf(s, width, Max).samples[k];
    forall y | r.t <= y < r.t + width && InterpolateAt(s, y).Some?
      ensures InterpolateAt(s, y).value <= r.v
    {
      ExtremeBoundsSignal(s, Highest, r.t, r.t + width, y);
    }
    x := ExtremeIsReached(s, Highest, r.t, r.t + width);
  }

  /** Mean: the sample times the width is the signal's integral over the bucket. */
  lemma MeanSampleIsIntegral(s: Series, width: int, k: nat)
    requires s.samples != [] && width > 0 && k < |UniformOf(s, width, Mean).samples|
    ensures (var r := UniformOf(s, width, Mean).samples[k];
             r.v * width as real == Integral(s.samples, s.interpolation, r.t, r.t + width))
  {
    hide Integral, UniformOf;
    ResampledOnGrid(s, width, Mean);
    var r := UniformOf(s, width, Mean).samples[k];
    var area := Integral(s.samples, s.interpolation, r.t, r.t + width);
    assert area / (width as real) * width as real == area;
  }

  /** Every grid point from the first sample to the last has a sample; only a Linear mean whose bucket reaches past
      the data has none. */
  lemma EveryGridPointSampled(s: Series, width: int, agg: Aggregation, g: Instant)
    requires IsAscending(s.samples) && s.samples != [] && width > 0 && g % width == 0
    requires First(s) <= g <= Last(s)
    ensures (exists k :: 0 <= k < |UniformOf(s, width, agg).samples| && UniformOf(s, width, agg).samples[k].t == g)
       <==> (agg.Mean? && s.interpolation.Linear? ==> g + width <= Last(s))
  {
    hide BucketValue, Buckets, CeilToGrid, FloorToGrid, UniformOf, IsAscending;
    UniformIsBuckets(s, width, agg);
    var from, upTo := CeilToGrid(First(s), width), FloorToGrid(Last(s), width);
    GridPointsAround(First(s), g, width);
    GridPointsAround(g, Last(s), width);
    BucketSampledIff(s, width, agg, from, upTo, g);
    BucketOnGridIff(s, width, agg, g);
  }

  lemma UniformIsBuckets(s: Series, width: int, agg: Aggregation)
    requires s.samples != [] && width > 0
    ensures UniformOf(s, width, agg).samples
         == Buckets(s, width, agg, CeilToGrid(First(s), width), FloorToGrid(Last(s), width))
  {
  }

  lemma BucketOnGridIff(s: Series, width: int, agg: Aggregation, g: Instant)
    requires IsAscending(s.samples) && s.samples != [] && width > 0 && g % width == 0
    requires First(s) <= g <= Last(s)
    ensures BucketValue(s, agg, g, g + width).Some? <==>
      (agg.Mean? && s.interpolation.Linear? ==> g + width <= Last(s))
  {
    hide InterpolateAt, ExtremeOf, MeanOf, FloorToGrid, CoveredEnd;
    DefinedIff(s, g);
    GridPointsAround(g, Last(s), width);
    BucketDefined(s, width, g);
    LinearCovers(s, width, g);
    ExtremeDefinedIff(s, Lowest, g, g + width);
    ExtremeDefinedIff(s, Highest, g, g + width);
  }

  lemma LinearCovers(s: Series, width: int, g: Instant)
    requires s.samples != [] && width > 0 && g % width == 0 && g <= Last(s)
    ensures g + width <= CoveredEnd(s, width) <==> (s.interpolation.Linear? ==> g + width <= Last(s))
  {
    GridNext(g, width);
    GridPointsAround(g, Last(s), width);
    if g + width <= Last(s) {
      GridPointsAround(g + width, Last(s), width);
    }
  }

  lemma ExtremeDefinedIff(s: Series, pick: Pick, start: Instant, end: Instant)
    ensures ExtremeOf(s, pick, start, end).Some? <==> start < end && InterpolateAt(s, start).Some?
  {
    hide InterpolateAt;
  }

  /** A grid point between two instants is between the grid points next to them. */
  lemma GridPointsAround(a: Instant, b: Instant, width: int)
    requires width > 0 && a <= b
    ensures a % width == 0 ==> a <= FloorToGrid(b, width)
    ensures b % width == 0 ==> CeilToGrid(a, width) <= b
  {
    if a % width == 0 && FloorToGrid(b, width) < a {
      GridStep(FloorToGrid(b, width), a, width);
      assert false;
    }
    if b % width == 0 && b < CeilToGrid(a, width) {
      GridStep(b, CeilToGrid(a, width), width);
      assert false;
    }
  }

  ghost predicate HasTime(samples: seq<Sample>, g: Instant) {
    exists k :: 0 <= k < |samples| && samples[k].t == g
  }

  lemma HasTimeConcat(a: seq<Sample>, b: seq<Sample>, g: Instant)
    ensures HasTime(a + b, g) <==> HasTime(a, g) || HasTime(b, g)
  {
    if k :| 0 <= k < |a| && a[k].t == g {
      assert (a + b)[k].t == g;
    }
    if k :| 0 <= k < |b| && b[k].t == g {
      assert (a + b)[|a| + k].t == g;
    }
  }

  lemma FirstBucket(s: Series, width: int, agg: Aggregation, t: Instant, upTo: Instant, g: Instant)
    requires width > 0 && t % width == 0 && t <= upTo && t <= g
    ensures HasTime(Buckets(s, width, agg, t, upTo), g) <==>
      (if g == t then BucketValue(s, agg, t, t + width).Some? else HasTime(Buckets(s, width, agg, t + width, upTo), g))
  {
    hide BucketValue, HasTime;
    var rest := Buckets(s, width, agg, t + width, upTo);
    var value := BucketValue(s, agg, t, t + width);
    var first := if value.Some? then [Sample(t, value.value)] else [];
    assert Buckets(s, width, agg, t, upTo) == first + rest;
    HasTimeConcat(first, rest, g);
    OneTime(value, t, g);
    GridNext(t, width);
    BucketsOnGrid(s, width, agg, t + width, upTo);
    NoEarlierTime(s, width, agg, t + width, upTo, rest, t);
  }

  lemma OneTime(value: Option<real>, t: Instant, g: Instant)
    ensures HasTime(if value.Some? then [Sample(t, value.value)] else [], g) <==> value.Some? && g == t
  {
    if value.Some? {
      assert [Sample(t, value.value)][0].t == t;
    }
  }

  lemma NoEarlierTime(s: Series, width: int, agg: Aggregation, t: Instant, upTo: Instant, rest: seq<Sample>, g: Instant)
    requires width > 0 && g < t && forall k :: 0 <= k < |rest| ==> GridSample(s, width, agg, t, upTo, rest[k])
    ensures !HasTime(rest, g)
  {
    hide BucketValue;
  }

  lemma {:induction false} BucketSampledIff(s: Series, width: int, agg: Aggregation, t: Instant, upTo: Instant,
        g: Instant)
    requires width > 0 && t % width == 0 && g % width == 0 && t <= g
    ensures HasTime(Buckets(s, width, agg, t, upTo), g) <==> g <= upTo && BucketValue(s, agg, g, g + width).Some?
    decreases upTo - t
  {
    hide BucketValue, Buckets;
    if t <= upTo {
      FirstBucket(s, width, agg, t, upTo, g);
      if t < g {
        GridStep(t, g, width);
        BucketSampledIff(s, width, agg, t + width, upTo, g);
      }
    } else {
      NoBucketAfter(s, width, agg, t, upTo);
    }
  }

  /** Nothing to resample gives nothing, and resampling keeps the interpolation. */
  lemma ResampledKeepsInterpolation(s: Series, width: int, agg: Aggregation)
    ensures UniformOf(s, width, agg).interpolation == s.interpolation
    ensures s.samples == [] || width <= 0 ==> UniformOf(s, width, agg).samples == []
  {
  }
}
