/** Samples in time with a declared interpolation: the value at an instant, and the integral that means
    and resampled series are measured against. Times are milliseconds, values are reals. */
module TimeSeries {
  import opened Options
  import opened Numbers

  datatype Interpolation = Linear | Step

  datatype Sample = Sample(t: Instant, v: real)

  datatype Series = Series(samples: seq<Sample>, interpolation: Interpolation)

  predicate IsAscending(samples: seq<Sample>) {
    forall i, j :: 0 <= i < j < |samples| ==> samples[i].t < samples[j].t
  }

  /** Width of a stretch as a number. */
  function Width(a: Instant, b: Instant): real { (b - a) as real }

  // ---- the value at an instant -----------------------------------------------------------------

  /** The number of leading samples that are not after ts. */
  function PartitionPoint(samples: seq<Sample>, ts: Instant): (n: nat)
    ensures n <= |samples|
    ensures n > 0 ==> samples[n - 1].t <= ts
    ensures n < |samples| ==> ts < samples[n].t
  {
    if samples == [] || samples[0].t > ts then 0 else 1 + PartitionPoint(samples[1..], ts)
  }

  /** The straight line through two samples. */
  function Line(a: Sample, b: Sample, x: Instant): real
    requires a.t < b.t
  {
    a.v + (b.v - a.v) * (Width(a.t, x) / Width(a.t, b.t))
  }

  function InterpolateAt(s: Series, ts: Instant): Option<real> {
    var pos := PartitionPoint(s.samples, ts);
    if pos == 0 then None else
      var left := s.samples[pos - 1];
      if left.t == ts then Some(left.v)
      else if pos == |s.samples| then (if s.interpolation.Step? then Some(left.v) else None)
      else if s.interpolation.Step? then Some(left.v)
      else Some(Line(left, s.samples[pos], ts))
  }

  /** Where the signal is defined: from the first sample on, for Linear up to the last one. */
  predicate DefinedAt(s: Series, ts: Instant) {
    && s.samples != [] && s.samples[0].t <= ts
    && (s.interpolation.Step? || ts <= s.samples[|s.samples| - 1].t)
  }

  lemma PartitionPointAt(samples: seq<Sample>, ts: Instant, n: nat)
    requires IsAscending(samples) && n <= |samples|
    requires n > 0 ==> samples[n - 1].t <= ts
    requires n < |samples| ==> ts < samples[n].t
    ensures PartitionPoint(samples, ts) == n
  {
    var m := PartitionPoint(samples, ts);
  }

  lemma DefinedIff(s: Series, ts: Instant)
    requires IsAscending(s.samples)
    ensures InterpolateAt(s, ts).Some? <==> DefinedAt(s, ts)
  {
    var pos := PartitionPoint(s.samples, ts);
    if s.samples != [] {
      assert pos > 0 ==> s.samples[0].t <= s.samples[pos - 1].t;
      assert pos < |s.samples| ==> s.samples[pos].t <= s.samples[|s.samples| - 1].t;
    }
  }

  /** At its own time, a sample is the value. */
  lemma SampleIsValue(s: Series, k: nat)
    requires IsAscending(s.samples) && k < |s.samples|
    ensures InterpolateAt(s, s.samples[k].t) == Some(s.samples[k].v)
  {
    PartitionPointAt(s.samples, s.samples[k].t, k + 1);
  }

  function Tail(s: Series): Series
    requires s.samples != []
  {
    Series(s.samples[1..], s.interpolation)
  }

  /** From the second sample on, the first one no longer matters. */
  lemma TailValue(s: Series, ts: Instant)
    requires |s.samples| >= 2 && s.samples[0].t <= ts && s.samples[1].t <= ts
    ensures InterpolateAt(s, ts) == InterpolateAt(Tail(s), ts)
  {
    var pos := PartitionPoint(s.samples[1..], ts);
    assert PartitionPoint(s.samples, ts) == 1 + pos;
  }

  // ---- lines -----------------------------------------------------------------------------------

  /** A line is affine: its value at x is the mix of its values at lo and hi. */
  lemma LineMix(a: Sample, b: Sample, lo: Instant, x: Instant, hi: Instant)
    requires a.t < b.t
    ensures Line(a, b, x) * Width(lo, hi) == Line(a, b, lo) * Width(x, hi) + Line(a, b, hi) * Width(lo, x)
  {
    var k := (b.v - a.v) / Width(a.t, b.t);
    SlopeForm(a, b, lo);
    SlopeForm(a, b, x);
    SlopeForm(a, b, hi);
    var v, p, q := Line(a, b, lo), Width(lo, x), Width(x, hi);
    assert Width(a.t, x) == Width(a.t, lo) + p && Width(a.t, hi) == Width(a.t, lo) + (p + q);
    Distributes(k, Width(a.t, lo), p);
    Distributes(k, Width(a.t, lo), p + q);
    assert Line(a, b, x) == v + k * p && Line(a, b, hi) == v + k * (p + q);
    MixIdentity(v, k, p, q);
  }

  lemma MixIdentity(v: real, k: real, p: real, q: real)
    ensures (v + k * p) * (p + q) == v * q + (v + k * (p + q)) * p
  {
    assert (v + k * p) * (p + q) == v * p + v * q + (k * p) * (p + q);
    assert (v + k * (p + q)) * p == v * p + (k * (p + q)) * p;
    assert (k * p) * (p + q) == (k * (p + q)) * p;
  }

  lemma SlopeForm(a: Sample, b: Sample, x: Instant)
    requires a.t < b.t
    ensures Line(a, b, x) == a.v + ((b.v - a.v) / Width(a.t, b.t)) * Width(a.t, x)
  {
    var d, w, y := b.v - a.v, Width(a.t, b.t), Width(a.t, x);
    assert d * (y / w) == (d / w) * y;
  }

  lemma LineEnds(a: Sample, b: Sample)
    requires a.t < b.t
    ensures Line(a, b, a.t) == a.v && Line(a, b, b.t) == b.v
  {
    assert Width(a.t, b.t) / Width(a.t, b.t) == 1.0;
  }

  // ---- the integral ----------------------------------------------------------------------------

  /** The area under one piece of the signal inside [a, b): a rectangle for Step, a trapezoid for Linear. */
  function PieceArea(p: Sample, q: Sample, mode: Interpolation, a: Instant, b: Instant): real {
    var lo, hi := MaxI(a, p.t), MinI(b, q.t);
    if lo >= hi then 0.0
    else if mode.Step? then p.v * Width(lo, hi)
    else (Line(p, q, lo) + Line(p, q, hi)) / 2.0 * Width(lo, hi)
  }

  /** The area after the last sample: carried forward for Step, nothing for Linear. */
  function LastArea(p: Sample, mode: Interpolation, a: Instant, b: Instant): real {
    var lo := MaxI(a, p.t);
    if mode.Linear? || lo >= b then 0.0 else p.v * Width(lo, b)
  }

  /** The area under the signal over [a, b), piece by piece. */
  function Integral(samples: seq<Sample>, mode: Interpolation, a: Instant, b: Instant): real {
    if samples == [] then 0.0
    else if |samples| == 1 then LastArea(samples[0], mode, a, b)
    else PieceArea(samples[0], samples[1], mode, a, b) + Integral(samples[1..], mode, a, b)
  }

  lemma RectangleSplits(v: real, lo: Instant, m: Instant, hi: Instant)
    ensures v * Width(lo, hi) == v * Width(lo, m) + v * Width(m, hi)
  {
    assert Width(lo, hi) == Width(lo, m) + Width(m, hi);
    Distributes(v, Width(lo, m), Width(m, hi));
  }

  lemma TrapezoidSplits(p: Sample, q: Sample, lo: Instant, m: Instant, hi: Instant)
    requires p.t < q.t
    ensures (Line(p, q, lo) + Line(p, q, hi)) / 2.0 * Width(lo, hi)
         == (Line(p, q, lo) + Line(p, q, m)) / 2.0 * Width(lo, m)
             + (Line(p, q, m) + Line(p, q, hi)) / 2.0 * Width(m, hi)
  {
    LineMix(p, q, lo, m, hi);
    assert Width(lo, hi) == Width(lo, m) + Width(m, hi);
    TrapezoidIdentity(Line(p, q, lo), Line(p, q, m), Line(p, q, hi), Width(lo, m), Width(m, hi));
  }

  lemma TrapezoidIdentity(x: real, y: real, z: real, p: real, q: real)
    requires y * (p + q) == x * q + z * p
    ensures (x + z) / 2.0 * (p + q) == (x + y) / 2.0 * p + (y + z) / 2.0 * q
  {
    assert (x + z) / 2.0 * (p + q) == (x * p + x * q + z * p + z * q) / 2.0;
    assert (x + y) / 2.0 * p == (x * p + y * p) / 2.0;
    assert (y + z) / 2.0 * q == (y * q + z * q) / 2.0;
    Distributes(y, p, q);
  }

  lemma PieceSplits(p: Sample, q: Sample, mode: Interpolation, a: Instant, m: Instant, b: Instant)
    requires a <= m <= b
    ensures PieceArea(p, q, mode, a, b) == PieceArea(p, q, mode, a, m) + PieceArea(p, q, mode, m, b)
  {
    hide Line;
    var lo, hi := MaxI(a, p.t), MinI(b, q.t);
    if lo < m < hi {
      if mode.Step? {
        RectangleSplits(p.v, lo, m, hi);
      } else {
        TrapezoidSplits(p, q, lo, m, hi);
      }
    }
  }

  /** The integral is additive over any split point. */
  lemma {:induction false} IntegralSplits(samples: seq<Sample>, mode: Interpolation, a: Instant, m: Instant, b: Instant)
    requires a <= m <= b
    ensures Integral(samples, mode, a, b) == Integral(samples, mode, a, m) + Integral(samples, mode, m, b)
  {
    if |samples| == 1 {
      var lo := MaxI(a, samples[0].t);
      if lo < m < b {
        RectangleSplits(samples[0].v, lo, m, b);
      }
    } else if samples != [] {
      PieceSplits(samples[0], samples[1], mode, a, m, b);
      IntegralSplits(samples[1..], mode, a, m, b);
    }
  }

  lemma {:induction false} NothingBeforeFirst(samples: seq<Sample>, mode: Interpolation, a: Instant, b: Instant)
    requires IsAscending(samples) && samples != [] && b <= samples[0].t
    ensures Integral(samples, mode, a, b) == 0.0
  {
    if |samples| > 1 {
      NothingBeforeFirst(samples[1..], mode, a, b);
    }
  }

  predicate NoSampleInside(samples: seq<Sample>, a: Instant, b: Instant) {
    forall k :: 0 <= k < |samples| ==> samples[k].t <= a || b <= samples[k].t
  }

  /** The area of a stretch without samples inside, from the values at its ends. */
  function PlainArea(s: Series, a: Instant, b: Instant): real
    requires InterpolateAt(s, a).Some? && InterpolateAt(s, b).Some?
  {
    if s.interpolation.Step? then InterpolateAt(s, a).value * Width(a, b)
    else (InterpolateAt(s, a).value + InterpolateAt(s, b).value) / 2.0 * Width(a, b)
  }

  lemma PieceOver(p: Sample, q: Sample, mode: Interpolation, a: Instant, b: Instant)
    requires q.t <= a
    ensures PieceArea(p, q, mode, a, b) == 0.0
  {
  }

  lemma InFirstPiece(s: Series, a: Instant, b: Instant)
    requires IsAscending(s.samples) && |s.samples| > 1
    requires s.samples[0].t <= a < b <= s.samples[1].t
    ensures InterpolateAt(s, a).Some? && InterpolateAt(s, b).Some?
    ensures PieceArea(s.samples[0], s.samples[1], s.interpolation, a, b) == PlainArea(s, a, b)
  {
    hide Line;
    LineEnds(s.samples[0], s.samples[1]);
    PartitionPointAt(s.samples, a, 1);
    if b < s.samples[1].t {
      PartitionPointAt(s.samples, b, 1);
    } else {
      SampleIsValue(s, 1);
    }
  }

  /** A stretch without samples inside has the area its end values say. */
  lemma {:induction false} PlainStretch(s: Series, a: Instant, b: Instant)
    requires IsAscending(s.samples) && a < b && DefinedAt(s, a) && DefinedAt(s, b)
    requires NoSampleInside(s.samples, a, b)
    ensures InterpolateAt(s, a).Some? && InterpolateAt(s, b).Some?
    ensures Integral(s.samples, s.interpolation, a, b) == PlainArea(s, a, b)
    decreases |s.samples|
  {
    hide Line, InterpolateAt, PieceArea;
    DefinedIff(s, a);
    DefinedIff(s, b);
    if |s.samples| == 1 {
      SingleSample(s, a);
    } else if s.samples[1].t <= a {
      TailValue(s, a);
      TailValue(s, b);
      PlainStretch(Tail(s), a, b);
      PieceOver(s.samples[0], s.samples[1], s.interpolation, a, b);
    } else {
      InFirstPiece(s, a, b);
      NothingBeforeFirst(s.samples[1..], s.interpolation, a, b);
    }
  }

  lemma SingleSample(s: Series, a: Instant)
    requires |s.samples| == 1 && s.samples[0].t <= a && s.interpolation.Step?
    ensures InterpolateAt(s, a) == Some(s.samples[0].v)
  {
    PartitionPointAt(s.samples, a, 1);
  }
}
