/** The base-load learner: recency-weighted hourly means per weekday, shrunk toward the overall mean, and
    a seasonal factor. Weights are any positive function of a sample's age; times are milliseconds. */
module BaseLoadLearner {
  import opened Options
  import opened Numbers

  const HOUR_MS := 3_600_000
  const DAY_MS := 86_400_000

  datatype LoadSample = LoadSample(ts: Instant, kw: real)

  /** One of the 168 cells: day 0 is Monday. The epoch was a Thursday. */
  datatype Cell = Cell(day: nat, hour: nat)

  function CellOf(ts: Instant): (c: Cell)
    ensures c.day < 7 && c.hour < 24
  {
    Cell((ts / DAY_MS + 3) % 7, (ts / HOUR_MS) % 24)
  }

  datatype Config = Config(windowDays: nat, shrinkageKDays: real, minSamples: nat)

  /** The settings a learner can run with. */
  predicate Usable(cfg: Config) { cfg.windowDays > 0 && cfg.shrinkageKDays > 0.0 }

  /** Weight by age in milliseconds. */
  type Weight = Instant -> real

  ghost predicate Positive(weight: Weight) { forall age :: weight(age) > 0.0 }

  datatype Profile = Profile(
    cells: map<Cell, real>, seasonalFactor: real, lastUpdated: Instant, meanAbsError: Option<real>)

  // ---- weighted sums ---------------------------------------------------------------------------

  /** What a sum ranges over: everything, one cell, or the last thirty days. */
  datatype Part = Everything | InCell(cell: Cell) | Since(from: Instant)

  predicate Belongs(x: LoadSample, part: Part) {
    match part
    case Everything => true
    case InCell(cell) => CellOf(x.ts) == cell
    case Since(from) => x.ts >= from
  }

  /** What is summed. */
  datatype Term = Weights(part: Part) | Loads(part: Part) | Errors(previous: Profile)

  function TermOf(x: LoadSample, term: Term, w: real): real {
    match term
    case Weights(part) => if Belongs(x, part) then w else 0.0
    case Loads(part) => if Belongs(x, part) then x.kw * w else 0.0
    case Errors(previous) => AbsR(x.kw - SampleKw(previous, x.ts)) * w
  }

  function Sum(xs: seq<LoadSample>, term: Term, weight: Weight, now: Instant): real {
    if xs == [] then 0.0 else
      var x := xs[|xs| - 1];
      Sum(xs[..|xs| - 1], term, weight, now) + TermOf(x, term, weight(now - x.ts))
  }

  function WeightSum(xs: seq<LoadSample>, part: Part, weight: Weight, now: Instant): real {
    Sum(xs, Weights(part), weight, now)
  }

  function LoadSum(xs: seq<LoadSample>, part: Part, weight: Weight, now: Instant): real {
    Sum(xs, Loads(part), weight, now)
  }

  function MeanOr(sum: real, weights: real, default: real): real {
    if weights > 0.0 then sum / weights else default
  }

  function PartMean(xs: seq<LoadSample>, part: Part, weight: Weight, now: Instant, default: real): real {
    MeanOr(LoadSum(xs, part, weight, now), WeightSum(xs, part, weight, now), default)
  }

  // ---- the profile -----------------------------------------------------------------------------

  function InWindow(x: LoadSample, now: Instant, cfg: Config): bool {
    now - cfg.windowDays * DAY_MS <= x.ts <= now
  }

  function Window(xs: seq<LoadSample>, now: Instant, cfg: Config): seq<LoadSample> {
    if xs == [] then [] else
      Window(xs[..|xs| - 1], now, cfg) + if InWindow(xs[|xs| - 1], now, cfg) then [xs[|xs| - 1]] else []
  }

  /** Blend weight of a cell's own mean: 0 without data, one half at k days of it. */
  function ShrinkageBlend(effectiveDays: real, kDays: real): real
    requires effectiveDays + kDays != 0.0
  {
    effectiveDays / (effectiveDays + kDays)
  }

  function SamplesPerHour(n: nat, cfg: Config): real
    requires Usable(cfg)
  {
    n as real / (cfg.windowDays as real * 24.0)
  }

  /** The learner replaces a smaller number of samples per hour. */
  const FEWEST_PER_HOUR := 0.000000001

  function CellValue(sum: real, weights: real, overall: real, n: nat, cfg: Config): real
    requires Usable(cfg) && weights >= 0.0
  {
    var effective := weights / MaxR(SamplesPerHour(n, cfg), FEWEST_PER_HOUR);
    BlendDefined(weights, MaxR(SamplesPerHour(n, cfg), FEWEST_PER_HOUR));
    var blend := ShrinkageBlend(effective, cfg.shrinkageKDays);
    blend * MeanOr(sum, weights, 0.0) + (1.0 - blend) * overall
  }

  lemma BlendDefined(weights: real, perHour: real)
    requires weights >= 0.0 && perHour > 0.0
    ensures weights / perHour >= 0.0
  {
  }

  function SeasonalFactor(recent: real, overall: real): real {
    if AbsR(overall) > 0.000000001 then recent / overall else 1.0
  }

  function SampleKw(p: Profile, t: Instant): real {
    (if CellOf(t) in p.cells then p.cells[CellOf(t)] else 0.0) * p.seasonalFactor
  }

  function ErrorSum(xs: seq<LoadSample>, previous: Profile, weight: Weight, now: Instant): real {
    Sum(xs, Errors(previous), weight, now)
  }

  const CELLS: set<Cell> := set day: nat, hour: nat | day < 7 && hour < 24 :: Cell(day, hour)

  lemma {:induction false} WeightsNotNegative(xs: seq<LoadSample>, part: Part, weight: Weight, now: Instant)
    requires Positive(weight)
    ensures WeightSum(xs, part, weight, now) >= 0.0
    ensures WeightSum(xs, part, weight, now) > 0.0 <==> exists x :: x in xs && Belongs(x, part)
  {
    if xs != [] {
      var n := |xs| - 1;
      assert xs == xs[..n] + [xs[n]];
      WeightsNotNegative(xs[..n], part, weight, now);
    }
  }

  /** The profile as sums over the window. */
  ghost function LearnedFrom(xs: seq<LoadSample>, now: Instant, cfg: Config, weight: Weight,
        previous: Option<Profile>): Option<Profile>
    requires Usable(cfg) && Positive(weight)
  {
    var window := Window(xs, now, cfg);
    if |window| < cfg.minSamples then None else
      var overall := PartMean(window, Everything, weight, now, 0.0);
      var recent := PartMean(window, Since(now - 30 * DAY_MS), weight, now, overall);
      Some(Profile(
        map cell | cell in CELLS :: LearnedCell(window, now, cfg, weight, cell),
        SeasonalFactor(recent, overall), now,
        if previous.None? then None
        else Some(MeanOr(ErrorSum(window, previous.value, weight, now),
                         WeightSum(window, Everything, weight, now), 0.0))))
  }

  ghost function LearnedCell(window: seq<LoadSample>, now: Instant, cfg: Config, weight: Weight, cell: Cell): real
    requires Usable(cfg) && Positive(weight)
  {
    WeightsNotNegative(window, InCell(cell), weight, now);
    CellValue(LoadSum(window, InCell(cell), weight, now), WeightSum(window, InCell(cell), weight, now),
              PartMean(window, Everything, weight, now, 0.0), |window|, cfg)
  }

  // ---- as the program runs it ------------------------------------------------------------------

  method FilterWindow(xs: seq<LoadSample>, now: Instant, cfg: Config) returns (window: seq<LoadSample>)
    ensures window == Window(xs, now, cfg)
  {
    window := [];
    for i := 0 to |xs|
      invariant window == Window(xs[..i], now, cfg)
    {
      assert xs[..i + 1][..i] == xs[..i];
      if InWindow(xs[i], now, cfg) {
        window := window + [xs[i]];
      }
    }
    assert xs[..|xs|] == xs;
  }

  lemma SumsOneMore(xs: seq<LoadSample>, i: nat, part: Part, weight: Weight, now: Instant)
    requires i < |xs|
    ensures LoadSum(xs[..i + 1], part, weight, now)
         == LoadSum(xs[..i], part, weight, now)
             + if Belongs(xs[i], part) then xs[i].kw * weight(now - xs[i].ts) else 0.0
    ensures WeightSum(xs[..i + 1], part, weight, now)
         == WeightSum(xs[..i], part, weight, now) + if Belongs(xs[i], part) then weight(now - xs[i].ts) else 0.0
  {
    assert xs[..i + 1][..i] == xs[..i];
  }

  /** Each entry of the tables is the sum over its cell. */
  ghost predicate Tabulates(hourSum: array2<real>, hourWeight: array2<real>, xs: seq<LoadSample>, weight: Weight,
        now: Instant)
    requires hourSum.Length0 == hourWeight.Length0 == 7 && hourSum.Length1 == hourWeight.Length1 == 24
    reads hourSum, hourWeight
  {
    forall d, h :: 0 <= d < 7 && 0 <= h < 24 ==>
      hourSum[d, h] == LoadSum(xs, InCell(Cell(d, h)), weight, now)
      && hourWeight[d, h] == WeightSum(xs, InCell(Cell(d, h)), weight, now)
  }

  /** One sample more in its cell. */
  method AddToCell(hourSum: array2<real>, hourWeight: array2<real>, window: seq<LoadSample>, i: nat, weight: Weight,
        now: Instant)
    requires hourSum.Length0 == hourWeight.Length0 == 7 && hourSum.Length1 == hourWeight.Length1 == 24
    requires hourSum != hourWeight && i < |window| && Tabulates(hourSum, hourWeight, window[..i], weight, now)
    modifies hourSum, hourWeight
    ensures Tabulates(hourSum, hourWeight, window[..i + 1], weight, now)
  {
    hide CellOf, LoadSum, WeightSum;
    var x := window[i];
    var w := weight(now - x.ts);
    var cell := CellOf(x.ts);
    hourSum[cell.day, cell.hour] := hourSum[cell.day, cell.hour] + x.kw * w;
    hourWeight[cell.day, cell.hour] := hourWeight[cell.day, cell.hour] + w;
    forall d, h | 0 <= d < 7 && 0 <= h < 24
      ensures hourSum[d, h] == LoadSum(window[..i + 1], InCell(Cell(d, h)), weight, now)
      ensures hourWeight[d, h] == WeightSum(window[..i + 1], InCell(Cell(d, h)), weight, now)
    {
      SumsOneMore(window, i, InCell(Cell(d, h)), weight, now);
      assert old(hourSum[d, h]) == LoadSum(window[..i], InCell(Cell(d, h)), weight, now);
    }
  }

  /** One pass over the window fills the two 7 by 24 tables and the overall sums. */
  method Accumulate(window: seq<LoadSample>, now: Instant, weight: Weight)
    returns (hourSum: array2<real>, hourWeight: array2<real>, overallSum: real, overallWeight: real)
    ensures hourSum.Length0 == hourWeight.Length0 == 7 && hourSum.Length1 == hourWeight.Length1 == 24
    ensures Tabulates(hourSum, hourWeight, window, weight, now)
    ensures overallSum == LoadSum(window, Everything, weight, now)
    ensures overallWeight == WeightSum(window, Everything, weight, now)
  {
    hourSum := new real[7, 24]((_, _) => 0.0);
    hourWeight := new real[7, 24]((_, _) => 0.0);
    overallSum, overallWeight := 0.0, 0.0;
    for i := 0 to |window|
      invariant Tabulates(hourSum, hourWeight, window[..i], weight, now)
      invariant overallSum == LoadSum(window[..i], Everything, weight, now)
      invariant overallWeight == WeightSum(window[..i], Everything, weight, now)
    {
      hide LoadSum, WeightSum, CellOf;
      AddToCell(hourSum, hourWeight, window, i, weight, now);
      SumsOneMore(window, i, Everything, weight, now);
      overallSum := overallSum + window[i].kw * weight(now - window[i].ts);
      overallWeight := overallWeight + weight(now - window[i].ts);
    }
    assert window[..|window|] == window;
  }

  method AccumulateSince(window: seq<LoadSample>, now: Instant, weight: Weight, from: Instant)
    returns (sum: real, weights: real)
    ensures sum == LoadSum(window, Since(from), weight, now)
    ensures weights == WeightSum(window, Since(from), weight, now)
  {
    sum, weights := 0.0, 0.0;
    for i := 0 to |window|
      invariant sum == LoadSum(window[..i], Since(from), weight, now)
      invariant weights == WeightSum(window[..i], Since(from), weight, now)
    {
      assert window[..i + 1][..i] == window[..i];
      if window[i].ts >= from {
        sum, weights := sum + window[i].kw * weight(now - window[i].ts), weights + weight(now - window[i].ts);
      }
    }
    assert window[..|window|] == window;
  }

  method AccumulateError(window: seq<LoadSample>, now: Instant, weight: Weight, previous: Profile)
    returns (sum: real, weights: real)
    ensures sum == ErrorSum(window, previous, weight, now)
    ensures weights == WeightSum(window, Everything, weight, now)
  {
    sum, weights := 0.0, 0.0;
    for i := 0 to |window|
      invariant sum == ErrorSum(window[..i], previous, weight, now)
      invariant weights == WeightSum(window[..i], Everything, weight, now)
    {
      hide SampleKw;
      assert window[..i + 1][..i] == window[..i];
      var w := weight(now - window[i].ts);
      sum, weights := sum + AbsR(window[i].kw - SampleKw(previous, window[i].ts)) * w, weights + w;
    }
    assert window[..|window|] == window;
  }

  /** The 168 cells from the tables. */
  method Shrink(hourSum: array2<real>, hourWeight: array2<real>, overall: real,
      window: seq<LoadSample>, now: Instant, cfg: Config, ghost weight: Weight) returns (cells: map<Cell, real>)
    requires Usable(cfg) && Positive(weight)
    requires hourSum.Length0 == hourWeight.Length0 == 7 && hourSum.Length1 == hourWeight.Length1 == 24
    requires Tabulates(hourSum, hourWeight, window, weight, now)
    requires overall == PartMean(window, Everything, weight, now, 0.0)
    ensures cells == map cell | cell in CELLS :: LearnedCell(window, now, cfg, weight, cell)
  {
    hide CellValue, LoadSum, WeightSum, PartMean;
    cells := map[];
    for d := 0 to 7
      invariant forall cell :: cell in cells <==> cell.hour < 24 && cell.day < d
      invariant forall cell :: cell in cells ==> cells[cell] == LearnedCell(window, now, cfg, weight, cell)
    {
      for h := 0 to 24
        invariant forall cell :: cell in cells <==> cell.hour < 24 && (cell.day < d || (cell.day == d && cell.hour < h))
        invariant forall cell :: cell in cells ==> cells[cell] == LearnedCell(window, now, cfg, weight, cell)
      {
        WeightsNotNegative(window, InCell(Cell(d, h)), weight, now);
        assert hourWeight[d, h] == WeightSum(window, InCell(Cell(d, h)), weight, now);
        cells := cells[Cell(d, h) := CellValue(hourSum[d, h], hourWeight[d, h], overall, |window|, cfg)];
      }
    }
  }

  method LearnProfile(xs: seq<LoadSample>, now: Instant, cfg: Config, weight: Weight, previous: Option<Profile>)
    returns (r: Option<Profile>)
    requires Usable(cfg) && Positive(weight)
    ensures r == LearnedFrom(xs, now, cfg, weight, previous)
  {
    hide CellValue, CellOf;
    var window := FilterWindow(xs, now, cfg);
    if |window| < cfg.minSamples {
      return None;
    }
    var hourSum, hourWeight, overallSum, overallWeight := Accumulate(window, now, weight);
    var overall := MeanOr(overallSum, overallWeight, 0.0);
    var cells := Shrink(hourSum, hourWeight, overall, window, now, cfg, weight);
    var recentSum, recentWeight := AccumulateSince(window, now, weight, now - 30 * DAY_MS);
    var recent := MeanOr(recentSum, recentWeight, overall);
    var meanAbsError := None;
    if previous.Some? {
      var errorSum, errorWeight := AccumulateError(window, now, weight, previous.value);
      meanAbsError := Some(MeanOr(errorSum, errorWeight, 0.0));
    }
    r := Some(Profile(cells, SeasonalFactor(recent, overall), now, meanAbsError));
  }

  // ---- the profile is a weighted average -------------------------------------------------------

  ghost predicate Between(lo: real, xs: seq<LoadSample>, hi: real) {
    forall x :: x in xs ==> lo <= x.kw <= hi
  }

  lemma ProductBounds(lo: real, v: real, hi: real, w: real)
    requires lo <= v <= hi && w >= 0.0
    ensures lo * w <= v * w <= hi * w
  {
    assert (v - lo) * w >= 0.0 && (hi - v) * w >= 0.0;
    assert (v - lo) * w == v * w - lo * w && (hi - v) * w == hi * w - v * w;
  }

  lemma {:induction false} SumBetween(xs: seq<LoadSample>, part: Part, weight: Weight, now: Instant, lo: real, hi: real)
    requires Positive(weight) && Between(lo, xs, hi)
    ensures (var w := WeightSum(xs, part, weight, now);
             lo * w <= LoadSum(xs, part, weight, now) <= hi * w)
  {
    hide TermOf;
    if xs != [] {
      var n := |xs| - 1;
      var x := xs[n];
      assert xs == xs[..n] + [x];
      SumBetween(xs[..n], part, weight, now, lo, hi);
      var w := weight(now - x.ts);
      TermBetween(x, part, w, lo, hi);
      BoundsAdd(lo, hi, LoadSum(xs[..n], part, weight, now), WeightSum(xs[..n], part, weight, now),
                TermOf(x, Loads(part), w), TermOf(x, Weights(part), w));
    }
  }

  lemma TermBetween(x: LoadSample, part: Part, w: real, lo: real, hi: real)
    requires lo <= x.kw <= hi && w >= 0.0
    ensures (var v := TermOf(x, Weights(part), w); lo * v <= TermOf(x, Loads(part), w) <= hi * v)
  {
    hide Belongs;
    ProductBounds(lo, x.kw, hi, w);
  }

  lemma BoundsAdd(lo: real, hi: real, a: real, v: real, b: real, w: real)
    requires lo * v <= a <= hi * v && lo * w <= b <= hi * w
    ensures lo * (v + w) <= a + b <= hi * (v + w)
  {
    Distributes(lo, v, w);
    Distributes(hi, v, w);
  }

  lemma QuotientBetween(lo: real, sum: real, hi: real, w: real)
    requires w > 0.0 && lo * w <= sum <= hi * w
    ensures lo <= sum / w <= hi
  {
    var q := sum / w;
    assert q * w == sum;
    PositiveProduct(lo - q, w);
    PositiveProduct(q - hi, w);
    assert (lo - q) * w == lo * w - q * w && (q - hi) * w == q * w - hi * w;
  }

  /** A mean over samples lies between their bounds. */
  lemma MeanBetween(xs: seq<LoadSample>, part: Part, weight: Weight, now: Instant, lo: real, hi: real, default: real)
    requires Positive(weight) && Between(lo, xs, hi)
    requires (exists x :: x in xs && Belongs(x, part)) || lo <= default <= hi
    ensures lo <= PartMean(xs, part, weight, now, default) <= hi
  {
    hide LoadSum, WeightSum;
    WeightsNotNegative(xs, part, weight, now);
    SumBetween(xs, part, weight, now, lo, hi);
    var w := WeightSum(xs, part, weight, now);
    if w > 0.0 {
      QuotientBetween(lo, LoadSum(xs, part, weight, now), hi, w);
    }
  }

  lemma BlendBetween(lo: real, a: real, b: real, hi: real, blend: real)
    requires 0.0 <= blend <= 1.0 && lo <= a <= hi && lo <= b <= hi
    ensures lo <= blend * a + (1.0 - blend) * b <= hi
  {
    NotNegative(a - lo, blend);
    NotNegative(b - lo, 1.0 - blend);
    NotNegative(hi - a, blend);
    NotNegative(hi - b, 1.0 - blend);
  }

  lemma BlendIsFraction(effective: real, k: real)
    requires effective >= 0.0 && k > 0.0
    ensures 0.0 <= ShrinkageBlend(effective, k) <= 1.0
    ensures effective == 0.0 ==> ShrinkageBlend(effective, k) == 0.0
  {
    QuotientBetween(0.0, effective, 1.0, effective + k);
  }

  /** A cell is a mix of its own mean and the overall one; without data it is the overall one. */
  lemma CellMixes(sum: real, weights: real, overall: real, n: nat, cfg: Config, lo: real, hi: real)
    requires Usable(cfg) && weights >= 0.0 && lo <= overall <= hi
    requires weights > 0.0 ==> lo * weights <= sum <= hi * weights
    ensures lo <= CellValue(sum, weights, overall, n, cfg) <= hi
  {
    var perHour := MaxR(SamplesPerHour(n, cfg), FEWEST_PER_HOUR);
    BlendDefined(weights, perHour);
    BlendIsFraction(weights / perHour, cfg.shrinkageKDays);
    var blend := ShrinkageBlend(weights / perHour, cfg.shrinkageKDays);
    if weights > 0.0 {
      QuotientBetween(lo, sum, hi, weights);
      BlendBetween(lo, sum / weights, overall, hi, blend);
    } else {
      assert weights / perHour == 0.0;
    }
  }

  /** Every one of the 168 cells lies between the least and the greatest sample of the window. */
  lemma CellsBetweenSamples(xs: seq<LoadSample>, now: Instant, cfg: Config, weight: Weight, previous: Option<Profile>,
        lo: real, hi: real)
    requires Usable(cfg) && Positive(weight)
    requires Window(xs, now, cfg) != [] && Between(lo, Window(xs, now, cfg), hi)
    requires LearnedFrom(xs, now, cfg, weight, previous).Some?
    ensures var cells := LearnedFrom(xs, now, cfg, weight, previous).value.cells;
            cells.Keys == CELLS && forall cell :: cell in CELLS ==> lo <= cells[cell] <= hi
  {
    hide CellValue, CellOf, LoadSum, WeightSum, Window, PartMean;
    var window := Window(xs, now, cfg);
    var cells := LearnedFrom(xs, now, cfg, weight, previous).value.cells;
    assert window[0] in window && Belongs(window[0], Everything);
    MeanBetween(window, Everything, weight, now, lo, hi, 0.0);
    forall cell | cell in CELLS
      ensures lo <= cells[cell] <= hi
    {
      WeightsNotNegative(window, InCell(cell), weight, now);
      SumBetween(window, InCell(cell), weight, now, lo, hi);
      CellMixes(LoadSum(window, InCell(cell), weight, now), WeightSum(window, InCell(cell), weight, now),
                PartMean(window, Everything, weight, now, 0.0), |window|, cfg, lo, hi);
    }
  }

  /** A constant load is learned exactly: every cell is that load and the seasonal factor is 1. */
  lemma ConstantLoadIsLearned(xs: seq<LoadSample>, now: Instant, cfg: Config, weight: Weight,
        previous: Option<Profile>, c: real)
    requires Usable(cfg) && Positive(weight)
    requires Window(xs, now, cfg) != [] && Between(c, Window(xs, now, cfg), c)
    requires LearnedFrom(xs, now, cfg, weight, previous).Some?
    ensures var p := LearnedFrom(xs, now, cfg, weight, previous).value;
            (forall cell :: cell in CELLS ==> cell in p.cells && p.cells[cell] == c) && p.seasonalFactor == 1.0
  {
    hide LoadSum, WeightSum, Window, PartMean, CellOf;
    var window := Window(xs, now, cfg);
    CellsBetweenSamples(xs, now, cfg, weight, previous, c, c);
    assert window[0] in window && Belongs(window[0], Everything);
    MeanBetween(window, Everything, weight, now, c, c, 0.0);
    MeanBetween(window, Since(now - 30 * DAY_MS), weight, now, c, c, c);
    if c != 0.0 {
      SelfQuotient(c);
    }
  }

  // ---- the profile in plain terms --------------------------------------------------------------

  /** The cell of an instant: the hours since a Monday midnight (the epoch's hours and three days), modulo a week. */
  lemma CellIff(ts: Instant, day: nat, hour: nat)
    requires day < 7 && hour < 24
    ensures CellOf(ts) == Cell(day, hour) <==> (ts / 3_600_000 + 72) % 168 == 24 * day + hour
  {
    var h := ts / 3_600_000;
    var d, weeks := h / 24, (h / 24 + 3) / 7;
    assert ts / 86_400_000 == d;
    assert h + 72 == 168 * weeks + (24 * ((d + 3) % 7) + h % 24);
    RemainderOf(h + 72, 168, weeks, 24 * ((d + 3) % 7) + h % 24);
  }

  lemma RemainderOf(x: int, d: nat, q: int, r: nat)
    requires d > 0 && x == d * q + r && r < d
    ensures x % d == r
  {
    var k := x / d;
    assert x == d * k + x % d;
    MulAtLeast(k - q, d);
    MulAtLeast(q - k, d);
    assert (k - q) * d == d * k - d * q;
    assert (q - k) * d == d * q - d * k;
  }

  /** A profile predicts its cell's value times the factor, and nothing where it has no cell. */
  lemma PredictionIs(p: Profile, t: Instant, day: nat, hour: nat)
    requires day < 7 && hour < 24 && (t / 3_600_000 + 72) % 168 == 24 * day + hour
    ensures SampleKw(p, t) == if Cell(day, hour) in p.cells then p.cells[Cell(day, hour)] * p.seasonalFactor else 0.0
  {
    CellIff(t, day, hour);
  }

  /** The window keeps, in order, the samples of its days up to now. */
  lemma WindowGrows(xs: seq<LoadSample>, x: LoadSample, now: Instant, cfg: Config)
    ensures Window([], now, cfg) == []
    ensures Window(xs + [x], now, cfg)
         == Window(xs, now, cfg) + if now - cfg.windowDays * 86_400_000 <= x.ts <= now then [x] else []
  {
    assert (xs + [x])[..|xs|] == xs;
  }

  /** What one more sample adds to the sums: its weight, and its load at that weight, to the sums of the whole
      window, of its own hour of the week and of the time it falls in. */
  lemma SumsGrow(xs: seq<LoadSample>, x: LoadSample, weight: Weight, now: Instant, day: nat, hour: nat, from: Instant,
        previous: Profile)
    requires day < 7 && hour < 24
    ensures (var w, ofCell := weight(now - x.ts), (x.ts / 3_600_000 + 72) % 168 == 24 * day + hour;
      && WeightSum(xs + [x], Everything, weight, now) == WeightSum(xs, Everything, weight, now) + w
      && LoadSum(xs + [x], Everything, weight, now) == LoadSum(xs, Everything, weight, now) + x.kw * w
      && WeightSum(xs + [x], InCell(Cell(day, hour)), weight, now)
         == WeightSum(xs, InCell(Cell(day, hour)), weight, now) + (if ofCell then w else 0.0)
      && LoadSum(xs + [x], InCell(Cell(day, hour)), weight, now)
         == LoadSum(xs, InCell(Cell(day, hour)), weight, now) + (if ofCell then x.kw * w else 0.0)
      && WeightSum(xs + [x], Since(from), weight, now)
         == WeightSum(xs, Since(from), weight, now) + (if from <= x.ts then w else 0.0)
      && LoadSum(xs + [x], Since(from), weight, now)
         == LoadSum(xs, Since(from), weight, now) + (if from <= x.ts then x.kw * w else 0.0)
      && ErrorSum(xs + [x], previous, weight, now) == ErrorSum(xs, previous, weight, now)
         + (if x.kw >= SampleKw(previous, x.ts) then x.kw - SampleKw(previous, x.ts)
            else SampleKw(previous, x.ts) - x.kw) * w)
    ensures forall term :: Sum([], term, weight, now) == 0.0
  {
    hide SampleKw, CellOf;
    CellIff(x.ts, day, hour);
    assert (xs + [x])[..|xs|] == xs;
  }

  /** The learned profile, by the equations of a weighted mean: no profile below the gate; each cell balances the
      loads of its hour against the overall mean at the strength of k days of samples; the factor is the mean of
      the last thirty days over the overall one; the error is the mean distance from the previous profile. */
  lemma ProfileBalances(xs: seq<LoadSample>, now: Instant, cfg: Config, weight: Weight, previous: Option<Profile>,
        cell: Cell) returns (overall: real)
    requires Usable(cfg) && Positive(weight) && cell.day < 7 && cell.hour < 24
    ensures (var window, learned := Window(xs, now, cfg), LearnedFrom(xs, now, cfg, weight, previous);
      var w, l := WeightSum(window, Everything, weight, now), LoadSum(window, Everything, weight, now);
      && (learned.None? <==> |window| < cfg.minSamples)
      && (if w > 0.0 then overall * w == l else overall == 0.0)
      && (learned.Some? ==>
            && learned.value.lastUpdated == now
            && CellBalances(learned.value, window, now, cfg, weight, cell, overall)
            && SeasonBalances(learned.value.seasonalFactor, window, now, weight, overall)
            && (learned.value.meanAbsError.Some? <==> previous.Some?)
            && (previous.Some? ==>
                  var e := learned.value.meanAbsError.value;
                  if w > 0.0 then e * w == ErrorSum(window, previous.value, weight, now) else e == 0.0)))
  {
    hide Sum, Window, CellValue, SeasonalFactor;
    var window := Window(xs, now, cfg);
    overall := PartMean(window, Everything, weight, now, 0.0);
    MeanBalances(LoadSum(window, Everything, weight, now), WeightSum(window, Everything, weight, now), 0.0);
    var recent := PartMean(window, Since(now - 30 * DAY_MS), weight, now, overall);
    SeasonOf(recent, overall, window, now, weight);
    if previous.Some? {
      MeanBalances(ErrorSum(window, previous.value, weight, now), WeightSum(window, Everything, weight, now), 0.0);
    }
    WeightsNotNegative(window, InCell(cell), weight, now);
    CellValueBalances(LoadSum(window, InCell(cell), weight, now), WeightSum(window, InCell(cell), weight, now),
                      overall, |window|, cfg);
  }

  /** Multiplied out: value * (weights + k * rate) == loads + k * rate * overall, where the rate is the window's
      samples per hour. */
  ghost predicate CellBalances(p: Profile, window: seq<LoadSample>, now: Instant, cfg: Config, weight: Weight,
      cell: Cell, overall: real)
    requires Usable(cfg)
  {
    var w, l := WeightSum(window, InCell(cell), weight, now), LoadSum(window, InCell(cell), weight, now);
    var perHour := |window| as real / (cfg.windowDays * 24) as real;
    var rate := if perHour > 0.000000001 then perHour else 0.000000001;
    && cell in p.cells
    && (w > 0.0 ==> p.cells[cell] * (w + cfg.shrinkageKDays * rate) == l + cfg.shrinkageKDays * rate * overall)
    && (w == 0.0 ==> p.cells[cell] == overall)
  }

  /** With recent samples, factor * overall mean is their mean; without, or when the overall mean is nearly zero,
      the factor is 1. */
  ghost predicate SeasonBalances(factor: real, window: seq<LoadSample>, now: Instant, weight: Weight, overall: real) {
    var from := now - 2_592_000_000;
    var w, l := WeightSum(window, Since(from), weight, now), LoadSum(window, Since(from), weight, now);
    if -0.000000001 <= overall <= 0.000000001 || w <= 0.0 then factor == 1.0 else factor * overall * w == l
  }

  lemma SeasonOf(recent: real, overall: real, window: seq<LoadSample>, now: Instant, weight: Weight)
    requires recent == PartMean(window, Since(now - 30 * DAY_MS), weight, now, overall)
    ensures SeasonBalances(SeasonalFactor(recent, overall), window, now, weight, overall)
  {
    hide Sum;
    var from := now - 30 * DAY_MS;
    var l, w := LoadSum(window, Since(from), weight, now), WeightSum(window, Since(from), weight, now);
    FactorBalances(recent, overall);
    MeanBalances(l, w, overall);
    if overall != 0.0 {
      SelfQuotient(overall);
    }
    assert w > 0.0 ==> recent * w == l;
  }

  lemma MeanBalances(sum: real, weights: real, default: real)
    ensures if weights > 0.0 then MeanOr(sum, weights, default) * weights == sum
            else MeanOr(sum, weights, default) == default
  {
  }

  lemma FactorBalances(recent: real, overall: real)
    ensures if -0.000000001 <= overall <= 0.000000001 then SeasonalFactor(recent, overall) == 1.0
            else SeasonalFactor(recent, overall) * overall == recent
  {
    if overall != 0.0 {
      SelfQuotient(overall);
    }
  }

  lemma CellValueBalances(sum: real, weights: real, overall: real, n: nat, cfg: Config)
    requires Usable(cfg) && weights >= 0.0
    ensures (var perHour := n as real / (cfg.windowDays * 24) as real;
             var rate := if perHour > 0.000000001 then perHour else 0.000000001;
             var v := CellValue(sum, weights, overall, n, cfg);
      && (weights > 0.0 ==> v * (weights + cfg.shrinkageKDays * rate) == sum + cfg.shrinkageKDays * rate * overall)
      && (weights == 0.0 ==> v == overall))
  {
    var k, rate := cfg.shrinkageKDays, MaxR(SamplesPerHour(n, cfg), FEWEST_PER_HOUR);
    BlendDefined(weights, rate);
    BlendSplits(weights, k, rate);
    var blend, mean := ShrinkageBlend(weights / rate, k), MeanOr(sum, weights, 0.0);
    if weights > 0.0 {
      MixBalances(blend, mean, overall, weights, k * rate, sum);
    } else {
      assert weights / rate == 0.0;
      BlendIsFraction(weights / rate, k);
    }
  }

  lemma MixBalances(b: real, mean: real, overall: real, w: real, rest: real, sum: real)
    requires b * (w + rest) == w && mean * w == sum
    ensures (b * mean + (1.0 - b) * overall) * (w + rest) == sum + rest * overall
  {
    var whole := w + rest;
    assert b * mean * whole == mean * (b * whole);
    assert (1.0 - b) * whole == rest;
    assert (1.0 - b) * overall * whole == overall * ((1.0 - b) * whole);
    assert (b * mean + (1.0 - b) * overall) * whole == b * mean * whole + (1.0 - b) * overall * whole;
  }

  lemma BlendSplits(weights: real, k: real, rate: real)
    requires weights >= 0.0 && k > 0.0 && rate > 0.0
    ensures (var effective := weights / rate;
             effective + k != 0.0 && ShrinkageBlend(effective, k) * (weights + k * rate) == weights)
  {
    var e := weights / rate;
    assert e >= 0.0 && e * rate == weights;
    var b := e / (e + k);
    assert b * (e + k) == e;
    assert b * (weights + k * rate) == b * (e + k) * rate;
  }

  // ---- the order of the samples ----------------------------------------------------------------

  lemma {:induction false} RemoveAt(xs: seq<LoadSample>, k: nat, term: Term, weight: Weight, now: Instant)
    requires k < |xs|
    ensures Sum(xs, term, weight, now)
         == Sum(xs[..k] + xs[k + 1..], term, weight, now) + TermOf(xs[k], term, weight(now - xs[k].ts))
  {
    hide TermOf;
    var n := |xs| - 1;
    var rest := xs[..k] + xs[k + 1..];
    if k == n {
      assert rest == xs[..n];
    } else {
      RemoveAt(xs[..n], k, term, weight, now);
      assert rest[..n - 1] == xs[..n][..k] + xs[..n][k + 1..];
      assert rest[n - 1] == xs[n];
    }
  }

  /** Sums do not depend on the order of the samples. */
  lemma {:induction false} SumPermutes(xs: seq<LoadSample>, ys: seq<LoadSample>, term: Term, weight: Weight,
        now: Instant)
    requires multiset(xs) == multiset(ys)
    ensures Sum(xs, term, weight, now) == Sum(ys, term, weight, now)
  {
    hide TermOf;
    if xs == [] {
      assert |ys| == |multiset(ys)| == |multiset(xs)| == 0;
    } else {
      var n := |xs| - 1;
      var k := FindLast(xs, ys);
      SumPermutes(xs[..n], ys[..k] + ys[k + 1..], term, weight, now);
      RemoveAt(ys, k, term, weight, now);
    }
  }

  lemma FindLast(xs: seq<LoadSample>, ys: seq<LoadSample>) returns (k: nat)
    requires multiset(xs) == multiset(ys) && xs != []
    ensures k < |ys| && ys[k] == xs[|xs| - 1]
    ensures multiset(xs[..|xs| - 1]) == multiset(ys[..k] + ys[k + 1..])
  {
    var n := |xs| - 1;
    assert xs[n] in multiset(ys);
    k :| 0 <= k < |ys| && ys[k] == xs[n];
    assert ys == ys[..k] + [ys[k]] + ys[k + 1..];
    assert xs == xs[..n] + [xs[n]];
    assert multiset(ys[..k] + ys[k + 1..]) == multiset(ys) - multiset{ys[k]};
    assert multiset(xs[..n]) == multiset(xs) - multiset{xs[n]};
  }

  lemma {:induction false} WindowMultiset(xs: seq<LoadSample>, now: Instant, cfg: Config, x: LoadSample)
    ensures multiset(Window(xs, now, cfg))[x] == if InWindow(x, now, cfg) then multiset(xs)[x] else 0
  {
    hide InWindow;
    if xs != [] {
      var n := |xs| - 1;
      assert xs == xs[..n] + [xs[n]];
      WindowMultiset(xs[..n], now, cfg, x);
    }
  }

  lemma WindowPermutes(xs: seq<LoadSample>, ys: seq<LoadSample>, now: Instant, cfg: Config)
    requires multiset(xs) == multiset(ys)
    ensures multiset(Window(xs, now, cfg)) == multiset(Window(ys, now, cfg))
  {
    hide Window, InWindow;
    forall x
      ensures multiset(Window(xs, now, cfg))[x] == multiset(Window(ys, now, cfg))[x]
    {
      WindowMultiset(xs, now, cfg, x);
      WindowMultiset(ys, now, cfg, x);
    }
  }

  /** The samples may come in any order: the whole result is the same. */
  lemma OrderDoesNotMatter(xs: seq<LoadSample>, ys: seq<LoadSample>, now: Instant, cfg: Config, weight: Weight,
        previous: Option<Profile>)
    requires Usable(cfg) && Positive(weight) && multiset(xs) == multiset(ys)
    ensures LearnedFrom(xs, now, cfg, weight, previous) == LearnedFrom(ys, now, cfg, weight, previous)
  {
    hide Sum, CellValue, Window;
    var a, b := Window(xs, now, cfg), Window(ys, now, cfg);
    WindowPermutes(xs, ys, now, cfg);
    assert |a| == |multiset(a)| == |multiset(b)| == |b|;
    forall term
      ensures Sum(a, term, weight, now) == Sum(b, term, weight, now)
    {
      SumPermutes(a, b, term, weight, now);
    }
    CellsAgree(a, b, now, cfg, weight);
  }

  lemma CellsAgree(a: seq<LoadSample>, b: seq<LoadSample>, now: Instant, cfg: Config, weight: Weight)
    requires Usable(cfg) && Positive(weight) && |a| == |b|
    requires forall term :: Sum(a, term, weight, now) == Sum(b, term, weight, now)
    ensures (map cell | cell in CELLS :: LearnedCell(a, now, cfg, weight, cell))
         == (map cell | cell in CELLS :: LearnedCell(b, now, cfg, weight, cell))
  {
    hide Sum, CellValue;
    forall cell | cell in CELLS
      ensures LearnedCell(a, now, cfg, weight, cell) == LearnedCell(b, now, cfg, weight, cell)
    {
    }
  }

  // ---- the grain of the samples ----------------------------------------------------------------

  function Copies(x: LoadSample, r: nat): (xs: seq<LoadSample>)
    ensures |xs| == r
  {
    if r == 0 then [] else Copies(x, r - 1) + [x]
  }

  /** Every sample r times: the same load, sampled r times as often. */
  function Repeated(xs: seq<LoadSample>, r: nat): seq<LoadSample> {
    if xs == [] then [] else Repeated(xs[..|xs| - 1], r) + Copies(xs[|xs| - 1], r)
  }

  lemma {:induction false} WindowConcat(a: seq<LoadSample>, b: seq<LoadSample>, now: Instant, cfg: Config)
    ensures Window(a + b, now, cfg) == Window(a, now, cfg) + Window(b, now, cfg)
  {
    hide InWindow;
    if b == [] {
      assert a + b == a;
    } else {
      var n := |b| - 1;
      WindowConcat(a, b[..n], now, cfg);
      assert (a + b)[..|a + b| - 1] == a + b[..n];
    }
  }

  lemma WindowOfOne(x: LoadSample, now: Instant, cfg: Config)
    ensures Window([], now, cfg) == [] && Window([x], now, cfg) == if InWindow(x, now, cfg) then [x] else []
  {
    assert [x][..0] == [];
  }

  lemma {:induction false} CopiesInWindow(x: LoadSample, r: nat, now: Instant, cfg: Config)
    ensures Window(Copies(x, r), now, cfg) == if InWindow(x, now, cfg) then Copies(x, r) else []
  {
    hide InWindow, Window;
    WindowOfOne(x, now, cfg);
    if r > 0 {
      CopiesInWindow(x, r - 1, now, cfg);
      WindowConcat(Copies(x, r - 1), [x], now, cfg);
    }
  }

  lemma {:induction false} RepeatedWindow(xs: seq<LoadSample>, r: nat, now: Instant, cfg: Config)
    ensures Window(Repeated(xs, r), now, cfg) == Repeated(Window(xs, now, cfg), r)
  {
    hide InWindow;
    if xs != [] {
      var n := |xs| - 1;
      var before := Window(xs[..n], now, cfg);
      RepeatedWindow(xs[..n], r, now, cfg);
      WindowConcat(Repeated(xs[..n], r), Copies(xs[n], r), now, cfg);
      CopiesInWindow(xs[n], r, now, cfg);
      if InWindow(xs[n], now, cfg) {
        assert (before + [xs[n]])[..|before|] == before;
        assert Window(xs, now, cfg) == before + [xs[n]];
      } else {
        assert Window(xs, now, cfg) == before;
      }
    }
  }

  lemma {:induction false} RepeatedLength(xs: seq<LoadSample>, r: nat)
    ensures |Repeated(xs, r)| == r * |xs|
  {
    if xs != [] {
      RepeatedLength(xs[..|xs| - 1], r);
      assert r * |xs| == r * (|xs| - 1) + r;
    }
  }

  lemma {:induction false} SumConcat(a: seq<LoadSample>, b: seq<LoadSample>, term: Term, weight: Weight, now: Instant)
    ensures Sum(a + b, term, weight, now) == Sum(a, term, weight, now) + Sum(b, term, weight, now)
  {
    hide TermOf;
    if b == [] {
      assert a + b == a;
    } else {
      var n := |b| - 1;
      SumConcat(a, b[..n], term, weight, now);
      assert (a + b)[..|a + b| - 1] == a + b[..n];
    }
  }

  lemma SumOfOne(x: LoadSample, term: Term, weight: Weight, now: Instant)
    ensures Sum([], term, weight, now) == 0.0
    ensures Sum([x], term, weight, now) == TermOf(x, term, weight(now - x.ts))
  {
    assert [x][..0] == [];
  }

  lemma {:induction false} CopiesSum(x: LoadSample, r: nat, term: Term, weight: Weight, now: Instant)
    ensures Sum(Copies(x, r), term, weight, now) == r as real * TermOf(x, term, weight(now - x.ts))
  {
    hide TermOf, Sum;
    SumOfOne(x, term, weight, now);
    if r > 0 {
      CopiesSum(x, r - 1, term, weight, now);
      SumConcat(Copies(x, r - 1), [x], term, weight, now);
      OnceMore(r, TermOf(x, term, weight(now - x.ts)));
    }
  }

  lemma SumOneMore(xs: seq<LoadSample>, term: Term, weight: Weight, now: Instant)
    requires xs != []
    ensures (var x := xs[|xs| - 1];
             Sum(xs, term, weight, now) == Sum(xs[..|xs| - 1], term, weight, now) + TermOf(x, term, weight(now - x.ts)))
  {
    hide TermOf;
  }

  lemma {:induction false} RepeatedSum(xs: seq<LoadSample>, r: nat, term: Term, weight: Weight, now: Instant)
    ensures Sum(Repeated(xs, r), term, weight, now) == r as real * Sum(xs, term, weight, now)
  {
    hide Sum, TermOf, Copies;
    if xs == [] {
      SumOfOne(LoadSample(0, 0.0), term, weight, now);
    } else {
      var front, x := xs[..|xs| - 1], xs[|xs| - 1];
      RepeatedSum(front, r, term, weight, now);
      CopiesSum(x, r, term, weight, now);
      SumConcat(Repeated(front, r), Copies(x, r), term, weight, now);
      SumOneMore(xs, term, weight, now);
      ScaledSum(r as real, Sum(front, term, weight, now), TermOf(x, term, weight(now - x.ts)),
                Sum(xs, term, weight, now),
                Sum(Repeated(front, r), term, weight, now), Sum(Copies(x, r), term, weight, now));
    }
  }

  lemma MeanScales(sum: real, weights: real, sum': real, weights': real, default: real, k: real)
    requires weights >= 0.0 && k > 0.0 && sum' == k * sum && weights' == k * weights
    ensures MeanOr(sum', weights', default) == MeanOr(sum, weights, default)
  {
    if weights > 0.0 {
      QuotientScales(sum, weights, k);
    }
  }

  lemma PerHourScales(n: nat, r: nat, cfg: Config)
    requires Usable(cfg)
    ensures SamplesPerHour(r * n, cfg) == r as real * SamplesPerHour(n, cfg)
  {
    var hours := cfg.windowDays as real * 24.0;
    assert (r * n) as real == r as real * n as real;
    var q := n as real / hours;
    assert q * hours == n as real;
    assert r as real * q * hours == r as real * (q * hours);
  }

  lemma CellScales(sum: real, weights: real, sum': real, weights': real, overall: real, n: nat, r: nat, cfg: Config)
    requires Usable(cfg) && weights >= 0.0 && r > 0 && SamplesPerHour(n, cfg) >= FEWEST_PER_HOUR
    requires sum' == r as real * sum && weights' == r as real * weights && weights' >= 0.0
    ensures CellValue(sum', weights', overall, r * n, cfg) == CellValue(sum, weights, overall, n, cfg)
  {
    hide ShrinkageBlend, MeanOr, SamplesPerHour;
    var k, perHour, perHour' := r as real, SamplesPerHour(n, cfg), SamplesPerHour(r * n, cfg);
    PerHourScales(n, r, cfg);
    NotNegative(k - 1.0, perHour);
    assert (k - 1.0) * perHour == k * perHour - perHour;
    assert MaxR(perHour', FEWEST_PER_HOUR) == perHour' && MaxR(perHour, FEWEST_PER_HOUR) == perHour;
    QuotientScales(weights, perHour, k);
    assert weights' / perHour' == weights / perHour;
    MeanScales(sum, weights, sum', weights', 0.0, k);
  }

  /** The sampling grain of the caller does not matter: the same load sampled r times as often gives the
      identical profile, once the window clears the gate and holds enough samples per hour for the
      learner not to replace their number. */
  lemma GrainDoesNotMatter(xs: seq<LoadSample>, r: nat, now: Instant, cfg: Config, weight: Weight,
                           previous: Option<Profile>)
    requires Usable(cfg) && Positive(weight) && r > 0
    requires (var window := Window(xs, now, cfg);
              |window| >= cfg.minSamples && (window == [] || SamplesPerHour(|window|, cfg) >= FEWEST_PER_HOUR))
    ensures LearnedFrom(Repeated(xs, r), now, cfg, weight, previous) == LearnedFrom(xs, now, cfg, weight, previous)
  {
    hide Sum, CellValue, Window, MeanOr, Repeated, SamplesPerHour, SeasonalFactor, LearnedCell, PartMean;
    var a := Window(xs, now, cfg);
    var b := Repeated(a, r);
    RepeatedWindow(xs, r, now, cfg);
    RepeatedLength(a, r);
    MulAtLeast(r - 1, |a|);
    assert (r - 1) * |a| == r * |a| - |a|;
    if a == [] {
      assert |b| == 0;
      assert a == b;
    } else {
      PartMeanScales(a, r, Everything, weight, now, 0.0);
      PartMeanScales(a, r, Since(now - 30 * DAY_MS), weight, now, PartMean(a, Everything, weight, now, 0.0));
      if previous.Some? {
        ErrorScales(a, r, previous.value, weight, now);
      }
      CellsScale(a, r, now, cfg, weight);
    }
  }

  lemma ErrorScales(xs: seq<LoadSample>, r: nat, previous: Profile, weight: Weight, now: Instant)
    requires Positive(weight) && r > 0
    ensures MeanOr(ErrorSum(Repeated(xs, r), previous, weight, now),
                   WeightSum(Repeated(xs, r), Everything, weight, now), 0.0)
         == MeanOr(ErrorSum(xs, previous, weight, now), WeightSum(xs, Everything, weight, now), 0.0)
  {
    hide Sum, MeanOr, Repeated;
    WeightsNotNegative(xs, Everything, weight, now);
    RepeatedSum(xs, r, Errors(previous), weight, now);
    RepeatedSum(xs, r, Weights(Everything), weight, now);
    MeanScales(ErrorSum(xs, previous, weight, now), WeightSum(xs, Everything, weight, now),
               ErrorSum(Repeated(xs, r), previous, weight, now), WeightSum(Repeated(xs, r), Everything, weight, now),
               0.0, r as real);
  }

  lemma PartMeanScales(xs: seq<LoadSample>, r: nat, part: Part, weight: Weight, now: Instant, default: real)
    requires Positive(weight) && r > 0
    ensures PartMean(Repeated(xs, r), part, weight, now, default) == PartMean(xs, part, weight, now, default)
  {
    hide Sum, MeanOr, Repeated;
    WeightsNotNegative(xs, part, weight, now);
    RepeatedSum(xs, r, Loads(part), weight, now);
    RepeatedSum(xs, r, Weights(part), weight, now);
    MeanScales(LoadSum(xs, part, weight, now), WeightSum(xs, part, weight, now),
               LoadSum(Repeated(xs, r), part, weight, now), WeightSum(Repeated(xs, r), part, weight, now),
               default, r as real);
  }

  lemma CellsScale(a: seq<LoadSample>, r: nat, now: Instant, cfg: Config, weight: Weight)
    requires Usable(cfg) && Positive(weight) && r > 0 && SamplesPerHour(|a|, cfg) >= FEWEST_PER_HOUR
    ensures (map cell | cell in CELLS :: LearnedCell(Repeated(a, r), now, cfg, weight, cell))
         == (map cell | cell in CELLS :: LearnedCell(a, now, cfg, weight, cell))
  {
    hide Sum, CellValue, Repeated, SamplesPerHour, PartMean;
    RepeatedLength(a, r);
    PartMeanScales(a, r, Everything, weight, now, 0.0);
    forall cell | cell in CELLS
      ensures LearnedCell(Repeated(a, r), now, cfg, weight, cell) == LearnedCell(a, now, cfg, weight, cell)
    {
      var part := InCell(cell);
      WeightsNotNegative(a, part, weight, now);
      WeightsNotNegative(Repeated(a, r), part, weight, now);
      RepeatedSum(a, r, Loads(part), weight, now);
      RepeatedSum(a, r, Weights(part), weight, now);
      CellScales(LoadSum(a, part, weight, now), WeightSum(a, part, weight, now),
                 LoadSum(Repeated(a, r), part, weight, now), WeightSum(Repeated(a, r), part, weight, now),
                 PartMean(a, Everything, weight, now, 0.0), |a|, r, cfg);
    }
  }

  // ---- the error of the previous profile -------------------------------------------------------

  lemma {:induction false} ErrorZeroIff(xs: seq<LoadSample>, previous: Profile, weight: Weight, now: Instant)
    requires Positive(weight)
    ensures ErrorSum(xs, previous, weight, now) >= 0.0
    ensures ErrorSum(xs, previous, weight, now) == 0.0 <==> forall x :: x in xs ==> x.kw == SampleKw(previous, x.ts)
  {
    hide SampleKw;
    if xs != [] {
      var n := |xs| - 1;
      assert xs == xs[..n] + [xs[n]];
      ErrorZeroIff(xs[..n], previous, weight, now);
      var e := AbsR(xs[n].kw - SampleKw(previous, xs[n].ts));
      PositiveProduct(e, weight(now - xs[n].ts));
    }
  }

  /** The reported error is never negative, and zero exactly when the previous profile predicted every
      sample of the window. */
  lemma ErrorMeasuresPrevious(xs: seq<LoadSample>, now: Instant, cfg: Config, weight: Weight, previous: Profile)
    requires Usable(cfg) && Positive(weight) && LearnedFrom(xs, now, cfg, weight, Some(previous)).Some?
    ensures var e := LearnedFrom(xs, now, cfg, weight, Some(previous)).value.meanAbsError;
      && e.Some? && e.value >= 0.0
      && (e.value == 0.0 <==> forall x :: x in Window(xs, now, cfg) ==> x.kw == SampleKw(previous, x.ts))
  {
    hide SampleKw, Sum, CellValue, Window, PartMean;
    var window := Window(xs, now, cfg);
    ErrorZeroIff(window, previous, weight, now);
    WeightsNotNegative(window, Everything, weight, now);
    var sum, w := ErrorSum(window, previous, weight, now), WeightSum(window, Everything, weight, now);
    assert w > 0.0 ==> sum / w * w == sum;
    if window != [] {
      assert window[0] in window && Belongs(window[0], Everything);
    }
  }
}
