/** The forecaster's measured house load: readings collected in ten-minute buckets, kept for the learner's
    window, saved and restored over a restart, and turned into a 48-hour series. */
module BaseLoadBuckets {
  import opened Options
  import opened Numbers
  import opened BaseLoadLearner

  const BUCKET_S := 600
  const HORIZON_H: nat := 48
  const COLD_START_DEFAULT_KW := 0.4

  type Bucket = int

  /** Sum of the readings' power and their number. */
  datatype Entry = Entry(sum: real, count: nat)

  const NOTHING := Entry(0.0, 0)

  type Buckets = map<Bucket, Entry>

  function BucketOf(ts: Instant): Bucket { (ts / 1000) / BUCKET_S }

  function BucketStart(b: Bucket): Instant { b * BUCKET_S * 1000 }

  /** How many buckets the learner's window spans. */
  function WindowBuckets(cfg: Config): nat { cfg.windowDays * 86_400 / BUCKET_S }

  /** A bucket is ten minutes on the clock. */
  lemma BucketIff(ts: Instant, b: Bucket)
    ensures BucketOf(ts) == b <==> b * 600_000 <= ts < (b + 1) * 600_000
    ensures BucketStart(b) == b * 600_000
  {
    assert ts / 600_000 == ts / 1000 / 600;
    var q := ts / 600_000;
    assert q * 600_000 <= ts < (q + 1) * 600_000;
  }

  /** The buckets span exactly the days of the window. */
  lemma WindowSpans(cfg: Config)
    ensures WindowBuckets(cfg) * 600_000 == cfg.windowDays * 86_400_000
  {
    assert cfg.windowDays * 86_400 == cfg.windowDays * 144 * 600;
  }

  function Added(m: Buckets, x: LoadSample): Buckets {
    var b := BucketOf(x.ts);
    m[b := if b in m then Entry(m[b].sum + x.kw, m[b].count + 1) else Entry(0.0 + x.kw, 1)]
  }

  function SplitOff(m: Buckets, oldest: Bucket): Buckets {
    map b | b in m && oldest <= b :: m[b]
  }

  function Recorded(m: Buckets, x: LoadSample, cfg: Config): Buckets {
    SplitOff(Added(m, x), BucketOf(x.ts) - WindowBuckets(cfg))
  }

  function AddedAll(m: Buckets, xs: seq<LoadSample>): Buckets {
    if xs == [] then m else Added(AddedAll(m, xs[..|xs| - 1]), xs[|xs| - 1])
  }

  function MaxTs(xs: seq<LoadSample>): Instant
    requires xs != []
  {
    var last := xs[|xs| - 1].ts;
    if |xs| == 1 then last else
      var before := MaxTs(xs[..|xs| - 1]);
      if before <= last then last else before
  }

  lemma {:induction false} MaxTsIs(xs: seq<LoadSample>)
    requires xs != []
    ensures exists x :: x in xs && x.ts == MaxTs(xs)
    ensures forall x :: x in xs ==> x.ts <= MaxTs(xs)
  {
    var n := |xs| - 1;
    assert xs == xs[..n] + [xs[n]];
    if n > 0 {
      MaxTsIs(xs[..n]);
    } else {
      assert xs == [xs[0]];
    }
  }

  function Restored(m: Buckets, xs: seq<LoadSample>, cfg: Config): Buckets {
    if xs == [] then m else SplitOff(AddedAll(m, xs), BucketOf(MaxTs(xs)) - WindowBuckets(cfg))
  }

  // ---- the saved form --------------------------------------------------------------------------

  predicate Counted(m: Buckets) { forall b :: b in m ==> m[b].count > 0 }

  function Mean(e: Entry): (kw: real)
    requires e.count > 0
    ensures kw * e.count as real == e.sum
  {
    e.sum / e.count as real
  }

  lemma EmptyOrNot(s: set<Bucket>)
    ensures s == {} || exists b :: b in s
  {
    if forall b :: b !in s {
      assert s == {};
    }
  }

  lemma {:induction false} GreatestExists(s: set<Bucket>) returns (b: Bucket)
    requires s != {}
    ensures b in s && forall x :: x in s ==> x <= b
  {
    EmptyOrNot(s);
    var y :| y in s;
    b := y;
    if s != {y} {
      var c := GreatestExists(s - {y});
      b := if c <= y then y else c;
      assert forall x :: x in s ==> x == y || x in s - {y};
    } else {
      assert forall x :: x in s ==> x in {y};
    }
  }

  lemma {:induction false} LeastExists(s: set<Bucket>) returns (b: Bucket)
    requires s != {}
    ensures b in s && forall x :: x in s ==> b <= x
  {
    EmptyOrNot(s);
    var y :| y in s;
    b := y;
    if s != {y} {
      var c := LeastExists(s - {y});
      b := if y <= c then y else c;
      assert forall x :: x in s ==> x == y || x in s - {y};
    } else {
      assert forall x :: x in s ==> x in {y};
    }
  }

  ghost function Greatest(s: set<Bucket>): (b: Bucket)
    requires s != {}
    ensures b in s && forall x :: x in s ==> x <= b
  {
    assert exists b :: b in s && forall x :: x in s ==> x <= b by {
      var b := GreatestExists(s);
    }
    var b :| b in s && forall x :: x in s ==> x <= b;
    b
  }

  function SampleOf(b: Bucket, e: Entry): LoadSample
    requires e.count > 0
  {
    LoadSample(BucketStart(b), Mean(e))
  }

  /** One sample per bucket, at its start, oldest first. */
  ghost function HistoryOf(m: Buckets): seq<LoadSample>
    requires Counted(m)
    decreases |m|
  {
    if m == map[] then [] else
      var b := Greatest(m.Keys);
      Smaller(m, b);
      HistoryOf(m - {b}) + [SampleOf(b, m[b])]
  }

  lemma Smaller(m: Buckets, b: Bucket)
    requires b in m
    ensures |m - {b}| < |m|
  {
    assert (m - {b}).Keys == m.Keys - {b};
    assert |(m - {b}).Keys| == |m.Keys| - 1;
  }

  // ---- the model as the program keeps it -------------------------------------------------------

  datatype BaseLoadSeries = BaseLoadSeries(start: Instant, valuesKw: seq<real>, coldStart: bool)

  function TotalKw(xs: seq<LoadSample>): real {
    if xs == [] then 0.0 else TotalKw(xs[..|xs| - 1]) + xs[|xs| - 1].kw
  }

  /** The level of a cold start. */
  function FlatKw(xs: seq<LoadSample>): real {
    if xs == [] then COLD_START_DEFAULT_KW else TotalKw(xs) / |xs| as real
  }

  function HourStart(t: Instant): Instant { (t / 1000) / 3600 * 3600 * 1000 }

  function HourAhead(start: Instant, i: nat): Instant { start + i * HOUR_MS }

  class BaseLoadModel {
    const cfg: Config
    var buckets: Buckets
    var learned: Option<Profile>
    var lastReadingAt: Option<Instant>

    ghost predicate Valid()
      reads this
    {
      Counted(buckets)
    }

    constructor (cfg: Config)
      ensures Valid() && this.cfg == cfg && buckets == map[] && learned == None && lastReadingAt == None
    {
      this.cfg := cfg;
      buckets, learned, lastReadingAt := map[], None, None;
    }

    method Add(x: LoadSample)
      requires Valid()
      modifies this`buckets
      ensures Valid() && buckets == Added(old(buckets), x)
    {
      var b := BucketOf(x.ts);
      var entry := if b in buckets then buckets[b] else Entry(0.0, 0);
      buckets := buckets[b := Entry(entry.sum + x.kw, entry.count + 1)];
    }

    method Record(x: LoadSample)
      requires Valid()
      modifies this`buckets, this`lastReadingAt
      ensures Valid() && buckets == Recorded(old(buckets), x, cfg)
      ensures lastReadingAt.Some? && lastReadingAt.value >= x.ts
      ensures lastReadingAt == old(lastReadingAt) || lastReadingAt == Some(x.ts)
      ensures old(lastReadingAt).Some? ==> lastReadingAt.value >= old(lastReadingAt).value
    {
      Add(x);
      if lastReadingAt.None? || x.ts > lastReadingAt.value {
        lastReadingAt := Some(x.ts);
      }
      buckets := SplitOff(buckets, BucketOf(x.ts) - WindowBuckets(cfg));
    }

    method History() returns (h: seq<LoadSample>)
      requires Valid()
      ensures h == HistoryOf(buckets)
    {
      h := [];
      var rest := buckets.Keys;
      ghost var done: Buckets := map[];
      while rest != {}
        invariant rest <= buckets.Keys && done == buckets - rest
        invariant forall a, b :: a in done && b in rest ==> a < b
        invariant h == HistoryOf(done)
        decreases |rest|
      {
        ghost var least := LeastExists(rest);
        var b :| b in rest && forall x :: x in rest ==> b <= x;
        NewGreatest(done, b, buckets[b]);
        h := h + [LoadSample(BucketStart(b), buckets[b].sum / buckets[b].count as real)];
        rest := rest - {b};
        assert done[b := buckets[b]] == buckets - rest;
        done := done[b := buckets[b]];
      }
      assert done == buckets;
    }

    method Restore(xs: seq<LoadSample>)
      requires Valid()
      modifies this`buckets
      ensures Valid() && buckets == Restored(old(buckets), xs, cfg)
    {
      if xs != [] {
        var newest := xs[0].ts;
        for i := 0 to |xs|
          invariant Valid() && buckets == AddedAll(old(buckets), xs[..i])
          invariant newest == if i == 0 then xs[0].ts else MaxTs(xs[..i])
        {
          assert xs[..i + 1][..i] == xs[..i];
          Add(xs[i]);
          newest := if newest <= xs[i].ts then xs[i].ts else newest;
        }
        assert xs[..|xs|] == xs;
        buckets := SplitOff(buckets, BucketOf(newest) - WindowBuckets(cfg));
      }
    }

    /** The series to publish: learned when the history clears the learner's gate, else flat. */
    method Series(now: Instant, weight: Weight) returns (s: BaseLoadSeries)
      requires Valid() && Usable(cfg) && Positive(weight)
      modifies this`learned
      ensures s == SeriesOf(buckets, old(learned), now, cfg, weight)
      ensures learned == if s.coldStart then old(learned)
                         else LearnedFrom(HistoryOf(buckets), now, cfg, weight, old(learned))
    {
      var samples := History();
      var start := HourStart(now);
      var profile := LearnProfile(samples, now, cfg, weight, learned);
      var values := [];
      if profile.Some? {
        for i := 0 to HORIZON_H
          invariant values == LearnedValues(profile.value, start, i)
        {
          values := values + [MaxR(SampleKw(profile.value, start + i * HOUR_MS), 0.0)];
        }
        learned := profile;
        return BaseLoadSeries(start, values, false);
      }
      var flat := COLD_START_DEFAULT_KW;
      if samples != [] {
        var total := 0.0;
        for i := 0 to |samples|
          invariant total == TotalKw(samples[..i])
        {
          assert samples[..i + 1][..i] == samples[..i];
          total := total + samples[i].kw;
        }
        assert samples[..|samples|] == samples;
        flat := total / |samples| as real;
      }
      return BaseLoadSeries(start, FlatValues(flat, HORIZON_H), true);
    }
  }

  function LearnedValues(p: Profile, start: Instant, n: nat): seq<real> {
    if n == 0 then [] else LearnedValues(p, start, n - 1) + [MaxR(SampleKw(p, HourAhead(start, n - 1)), 0.0)]
  }

  function FlatValues(kw: real, n: nat): seq<real> {
    if n == 0 then [] else FlatValues(kw, n - 1) + [kw]
  }

  ghost function SeriesOf(m: Buckets, previous: Option<Profile>, now: Instant, cfg: Config,
        weight: Weight): BaseLoadSeries
    requires Counted(m) && Usable(cfg) && Positive(weight)
  {
    var p := LearnedFrom(HistoryOf(m), now, cfg, weight, previous);
    if p.Some? then BaseLoadSeries(HourStart(now), LearnedValues(p.value, HourStart(now), HORIZON_H), false)
    else BaseLoadSeries(HourStart(now), FlatValues(FlatKw(HistoryOf(m)), HORIZON_H), true)
  }

  lemma NewGreatest(done: Buckets, b: Bucket, e: Entry)
    requires Counted(done) && e.count > 0 && forall a :: a in done ==> a < b
    ensures Counted(done[b := e]) && HistoryOf(done[b := e]) == HistoryOf(done) + [SampleOf(b, e)]
  {
    var m := done[b := e];
    assert b in m.Keys;
    assert Greatest(m.Keys) == b;
    assert m - {b} == done;
  }

  // ---- what a run of readings leaves in the buckets --------------------------------------------

  /** Readings on top of what a model holds. */
  function RunOn(m: Buckets, log: seq<LoadSample>, cfg: Config): Buckets {
    if log == [] then m else Recorded(RunOn(m, log[..|log| - 1], cfg), log[|log| - 1], cfg)
  }

  function Run(log: seq<LoadSample>, cfg: Config): Buckets { RunOn(map[], log, cfg) }

  /** All that ever fell in a bucket. */
  function EverIn(log: seq<LoadSample>, b: Bucket): Entry {
    if log == [] then NOTHING else
      var before := EverIn(log[..|log| - 1], b);
      var x := log[|log| - 1];
      if BucketOf(x.ts) == b then Entry(before.sum + x.kw, before.count + 1) else before
  }

  /** The newest bucket of the readings, `seen` being the newest before them. */
  function NewestAfter(seen: Option<Bucket>, log: seq<LoadSample>): (newest: Option<Bucket>)
    ensures newest.None? <==> seen.None? && log == []
  {
    if log == [] then seen else
      var before, last := NewestAfter(seen, log[..|log| - 1]), BucketOf(log[|log| - 1].ts);
      if before.Some? && last < before.value then before else Some(last)
  }

  function NewestBucket(log: seq<LoadSample>): Bucket
    requires log != []
  {
    NewestAfter(None, log).value
  }

  /** Every reading arrives within one window of the newest one before it. */
  predicate NoneTooLate(seen: Option<Bucket>, log: seq<LoadSample>, cfg: Config) {
    log == [] ||
    (NoneTooLate(seen, log[..|log| - 1], cfg) && !TooLate(NewestAfter(seen, log[..|log| - 1]), log[|log| - 1], cfg))
  }

  predicate TooLate(newest: Option<Bucket>, x: LoadSample, cfg: Config) {
    newest.Some? && BucketOf(x.ts) < newest.value - WindowBuckets(cfg)
  }

  ghost predicate InWindowOf(b: Bucket, newest: Bucket, cfg: Config) {
    newest - WindowBuckets(cfg) <= b <= newest
  }

  /** The buckets are exactly those of the newest reading's window that a reading fell in, with all
      readings that ever did. */
  ghost predicate Exact(m: Buckets, log: seq<LoadSample>, cfg: Config)
    requires log != []
  {
    forall b ::
      && (b in m <==> InWindowOf(b, NewestBucket(log), cfg) && EverIn(log, b).count > 0)
      && (b in m ==> m[b] == EverIn(log, b))
  }

  lemma RecordKeepsExact(m: Buckets, log: seq<LoadSample>, cfg: Config)
    requires log != []
    requires if |log| == 1 then m == map[] else Exact(m, log[..|log| - 1], cfg)
    requires NoneTooLate(None, log, cfg)
    ensures Exact(Recorded(m, log[|log| - 1], cfg), log, cfg)
  {
    hide BucketOf, WindowBuckets;
    var x := log[|log| - 1];
    var prior := log[..|log| - 1];
    forall b
      ensures b in Recorded(m, x, cfg) <==> InWindowOf(b, NewestBucket(log), cfg) && EverIn(log, b).count > 0
      ensures b in Recorded(m, x, cfg) ==> Recorded(m, x, cfg)[b] == EverIn(log, b)
    {
      assert |log| == 1 ==> EverIn(prior, b) == NOTHING;
      if |log| > 1 {
        FellNoLater(prior, b);
      }
    }
  }

  lemma {:induction false} FellNoLater(log: seq<LoadSample>, b: Bucket)
    requires log != []
    ensures EverIn(log, b).count > 0 ==> b <= NewestBucket(log)
    ensures EverIn(log, b).count == 0 ==> EverIn(log, b).sum == 0.0
  {
    if |log| > 1 {
      FellNoLater(log[..|log| - 1], b);
    } else {
      assert EverIn(log[..0], b) == NOTHING;
    }
  }

  /** After any run in which no reading comes more than a window late, every kept bucket holds the exact sum
      and count of all readings that fell in it, and exactly the window of the newest reading is kept. */
  lemma {:induction false} RunIsExact(log: seq<LoadSample>, cfg: Config)
    requires log != [] && NoneTooLate(None, log, cfg)
    ensures Exact(Run(log, cfg), log, cfg) && Counted(Run(log, cfg))
  {
    if |log| > 1 {
      RunIsExact(log[..|log| - 1], cfg);
    }
    RecordKeepsExact(Run(log[..|log| - 1], cfg), log, cfg);
  }

  ghost predicate WindowOnly(m: Buckets, newest: Bucket, cfg: Config) {
    forall b :: b in m ==> InWindowOf(b, newest, cfg)
  }

  ghost predicate InNewestWindow(m: Buckets, newest: Option<Bucket>, cfg: Config) {
    if newest.None? then m == map[] else WindowOnly(m, newest.value, cfg)
  }

  lemma ReadingDecides(m: Buckets, newest: Option<Bucket>, x: LoadSample, cfg: Config)
    requires InNewestWindow(m, newest, cfg)
    ensures (var b := BucketOf(x.ts);
             var next := if newest.Some? && b < newest.value then newest else Some(b);
             InNewestWindow(Recorded(m, x, cfg), next, cfg) <==> !TooLate(newest, x, cfg))
  {
    hide BucketOf, WindowBuckets;
    assert BucketOf(x.ts) in Recorded(m, x, cfg);
  }

  /** The buckets stay inside the newest reading's window, at every point of a run, if and only if no reading
      comes more than a window late: one that does is itself kept. The model may hold buckets already, from a
      restore; the newest of them counts as seen. */
  lemma {:induction false} WindowKeptIff(m: Buckets, seen: Option<Bucket>, log: seq<LoadSample>, cfg: Config)
    requires InNewestWindow(m, seen, cfg)
    ensures (forall n :: 0 <= n <= |log| ==> InNewestWindow(RunOn(m, log[..n], cfg), NewestAfter(seen, log[..n]), cfg))
            <==> NoneTooLate(seen, log, cfg)
  {
    hide InNewestWindow, TooLate, Recorded, BucketOf;
    if log == [] {
      assert log[..0] == [];
    } else {
      var k := |log| - 1;
      var prior := log[..k];
      WindowKeptIff(m, seen, prior, cfg);
      forall n | 0 <= n <= k
        ensures prior[..n] == log[..n]
      {
      }
      assert log[..|log|] == log;
      if NoneTooLate(seen, prior, cfg) {
        assert InNewestWindow(RunOn(m, prior[..k], cfg), NewestAfter(seen, prior[..k]), cfg);
        assert prior[..k] == prior;
        ReadingDecides(RunOn(m, prior, cfg), NewestAfter(seen, prior), log[k], cfg);
      }
    }
  }

  /** A reading of day 60 and then one of day 1 with a window of 56 days: the late one is kept, outside the
      window of the newest. */
  lemma LateReadingIsKept()
    ensures (var cfg := Config(56, 2.5, 100);
             var log := [LoadSample(60 * DAY_MS, 1.0), LoadSample(DAY_MS, 2.0)];
             && BucketOf(DAY_MS) in Run(log, cfg)
             && !InWindowOf(BucketOf(DAY_MS), NewestBucket(log), cfg))
  {
    var cfg := Config(56, 2.5, 100);
    var log := [LoadSample(60 * DAY_MS, 1.0), LoadSample(DAY_MS, 2.0)];
    assert log[..1] == [LoadSample(60 * DAY_MS, 1.0)];
    assert BucketOf(60 * DAY_MS) == 8640 && BucketOf(DAY_MS) == 144 && WindowBuckets(cfg) == 8064;
    assert NewestBucket(log[..1]) == 8640;
  }

  predicate InOrder(log: seq<LoadSample>) {
    forall i, j :: 0 <= i < j < |log| ==> log[i].ts <= log[j].ts
  }

  /** Readings in time order are never late. */
  lemma {:induction false} InOrderIsNeverLate(log: seq<LoadSample>, cfg: Config)
    requires InOrder(log)
    ensures NoneTooLate(None, log, cfg)
    ensures log != [] ==> NewestBucket(log) == BucketOf(log[|log| - 1].ts)
  {
    if log != [] {
      InOrderIsNeverLate(log[..|log| - 1], cfg);
      if |log| > 1 {
        assert log[|log| - 2].ts <= log[|log| - 1].ts;
        BucketsFollowTime(log[|log| - 2].ts, log[|log| - 1].ts);
      }
    }
  }

  lemma BucketsFollowTime(s: Instant, t: Instant)
    requires s <= t
    ensures BucketOf(s) <= BucketOf(t)
  {
  }

  // ---- saving and restoring --------------------------------------------------------------------

  /** A history: strictly ascending, one sample for each bucket. */
  ghost predicate IsHistory(h: seq<LoadSample>, m: Buckets)
    requires Counted(m)
  {
    && (forall i, j :: 0 <= i < j < |h| ==> h[i].ts < h[j].ts)
    && (forall i :: 0 <= i < |h| ==>
          BucketOf(h[i].ts) in m && h[i] == SampleOf(BucketOf(h[i].ts), m[BucketOf(h[i].ts)]))
    && (forall b :: b in m ==> SampleOf(b, m[b]) in h)
  }

  lemma BucketStarts(b: Bucket)
    ensures BucketOf(BucketStart(b)) == b
  {
    assert BucketStart(b) == (b * BUCKET_S) * 1000;
    assert BucketStart(b) / 1000 == b * BUCKET_S;
  }

  /** The saved history is strictly ascending and holds every bucket once. */
  lemma {:induction false} HistoryIsAscending(m: Buckets)
    requires Counted(m)
    ensures IsHistory(HistoryOf(m), m)
    decreases |m|
  {
    hide IsHistory, Mean;
    if m == map[] {
      EmptyHistory();
    } else {
      var b := Greatest(m.Keys);
      Smaller(m, b);
      HistoryIsAscending(m - {b});
      OneMoreBucket(m, b, HistoryOf(m - {b}));
    }
  }

  lemma EmptyHistory()
    ensures IsHistory([], map[])
  {
  }

  lemma OneMoreBucket(m: Buckets, b: Bucket, h: seq<LoadSample>)
    requires Counted(m) && b in m && (forall a :: a in m ==> a <= b) && IsHistory(h, m - {b})
    ensures IsHistory(h + [SampleOf(b, m[b])], m)
  {
    hide Mean, BucketOf, BucketStart;
    var last := SampleOf(b, m[b]);
    BucketStarts(b);
    forall i | 0 <= i < |h|
      ensures h[i].ts < last.ts
    {
      assert BucketOf(h[i].ts) in m - {b};
      StartsAscend(BucketOf(h[i].ts), b);
    }
    forall a | a in m
      ensures SampleOf(a, m[a]) in h + [last]
    {
      assert a != b ==> a in m - {b};
    }
  }

  lemma StartsAscend(a: Bucket, b: Bucket)
    ensures BucketStart(a) < BucketStart(b) <==> a < b
  {
  }

  lemma SharedHistory(h: seq<LoadSample>, m: Buckets, n: Buckets, b: Bucket)
    requires Counted(m) && Counted(n) && IsHistory(h, m) && IsHistory(h, n) && b in m
    ensures b in n && Mean(m[b]) == Mean(n[b])
  {
    hide Mean, BucketOf, BucketStart;
    BucketStarts(b);
    var i :| 0 <= i < |h| && h[i] == SampleOf(b, m[b]);
    assert BucketOf(h[i].ts) in n;
  }

  /** Two sets of buckets have the same history exactly when they have the same buckets with the same means. */
  lemma SameHistoryIff(m: Buckets, n: Buckets)
    requires Counted(m) && Counted(n)
    ensures HistoryOf(m) == HistoryOf(n)
            <==> m.Keys == n.Keys && forall b :: b in m && b in n ==> Mean(m[b]) == Mean(n[b])
  {
    hide Mean, HistoryOf, IsHistory;
    HistoryIsAscending(m);
    HistoryIsAscending(n);
    if m.Keys == n.Keys && forall b :: b in m && b in n ==> Mean(m[b]) == Mean(n[b]) {
      SameMeansSameHistory(m, n);
    }
    if HistoryOf(m) == HistoryOf(n) {
      forall b
        ensures b in m ==> b in n && Mean(m[b]) == Mean(n[b])
        ensures b in n ==> b in m
      {
        if b in m {
          SharedHistory(HistoryOf(m), m, n, b);
        }
        if b in n {
          SharedHistory(HistoryOf(m), n, m, b);
        }
      }
      assert forall b :: b in m.Keys <==> b in n.Keys;
    }
  }

  lemma {:induction false} SameMeansSameHistory(m: Buckets, n: Buckets)
    requires Counted(m) && Counted(n)
    requires m.Keys == n.Keys && forall b :: b in m && b in n ==> Mean(m[b]) == Mean(n[b])
    ensures HistoryOf(m) == HistoryOf(n)
    decreases |m|
  {
    hide Mean, BucketOf, BucketStart;
    if m != map[] {
      assert n != map[] by { assert n.Keys != {}; }
      var b := Greatest(m.Keys);
      Smaller(m, b);
      assert (m - {b}).Keys == (n - {b}).Keys;
      SameMeansSameHistory(m - {b}, n - {b});
    } else {
      assert n.Keys == {};
      assert n == map[];
    }
  }

  /** One reading per bucket, at its mean. */
  function OnePerBucket(m: Buckets): Buckets
    requires Counted(m)
  {
    map b | b in m :: Entry(Mean(m[b]), 1)
  }

  lemma {:induction false} HistoryRefills(m: Buckets)
    requires Counted(m)
    ensures AddedAll(map[], HistoryOf(m)) == OnePerBucket(m)
    decreases |m|
  {
    hide Mean, BucketOf, BucketStart;
    if m != map[] {
      var b := Greatest(m.Keys);
      var rest := m - {b};
      Smaller(m, b);
      HistoryRefills(rest);
      BucketStarts(b);
      assert HistoryOf(m)[..|HistoryOf(m)| - 1] == HistoryOf(rest);
      assert b !in OnePerBucket(rest);
    }
  }

  lemma {:induction false} MaxTsOfHistory(m: Buckets)
    requires Counted(m) && m != map[]
    ensures HistoryOf(m) != [] && BucketOf(MaxTs(HistoryOf(m))) == Greatest(m.Keys)
  {
    hide Mean, BucketOf, BucketStart;
    var h := HistoryOf(m);
    HistoryIsAscending(m);
    BucketStarts(Greatest(m.Keys));
    MaxTsOfAscending(h);
  }

  lemma {:induction false} MaxTsOfAscending(h: seq<LoadSample>)
    requires h != [] && forall i, j :: 0 <= i < j < |h| ==> h[i].ts < h[j].ts
    ensures MaxTs(h) == h[|h| - 1].ts
  {
    if |h| > 1 {
      MaxTsOfAscending(h[..|h| - 1]);
    }
  }

  /** What a restore keeps of what was saved: one window up to the newest saved bucket. */
  ghost predicate Reloads(b: Bucket, m: Buckets, cfg: Config) {
    b in m && Greatest(m.Keys) - WindowBuckets(cfg) <= b
  }

  ghost function Reloaded(m: Buckets, cfg: Config): Buckets
    requires Counted(m)
  {
    map b | b in m && Reloads(b, m, cfg) :: OnePerBucket(m)[b]
  }

  /** Restoring a saved history into a fresh model brings back the buckets of the newest one's window, each
      with its mean as one reading; so the same history exactly when nothing saved lay outside that window. */
  lemma RestoreReproduces(m: Buckets, cfg: Config)
    requires Counted(m)
    ensures Restored(map[], HistoryOf(m), cfg) == Reloaded(m, cfg)
    ensures HistoryOf(Restored(map[], HistoryOf(m), cfg)) == HistoryOf(m)
       <==> (m != map[] ==> WindowOnly(m, Greatest(m.Keys), cfg))
  {
    RestoredIsReloaded(m, cfg);
    hide Mean, BucketOf, WindowBuckets, HistoryOf, Restored, OnePerBucket;
    SameHistoryIff(Reloaded(m, cfg), m);
    forall b | b in m
      ensures b in Reloaded(m, cfg) <==> InWindowOf(b, Greatest(m.Keys), cfg)
      ensures b in Reloaded(m, cfg) ==> Mean(Reloaded(m, cfg)[b]) == Mean(m[b])
    {
      SavedMean(m, b);
    }
    assert Reloaded(m, cfg).Keys == m.Keys <==> forall b :: b in m ==> b in Reloaded(m, cfg);
  }

  lemma SavedMean(m: Buckets, b: Bucket)
    requires Counted(m) && b in m
    ensures Mean(OnePerBucket(m)[b]) == Mean(m[b])
  {
    hide Mean;
    MeanOfOne(Mean(m[b]));
  }

  lemma RestoredIsReloaded(m: Buckets, cfg: Config)
    requires Counted(m)
    ensures Restored(map[], HistoryOf(m), cfg) == Reloaded(m, cfg)
  {
    hide Mean, BucketOf, WindowBuckets, HistoryOf, AddedAll, MaxTs;
    HistoryRefills(m);
    if m == map[] {
      NoHistory();
    } else {
      MaxTsOfHistory(m);
    }
  }

  lemma NoHistory()
    ensures HistoryOf(map[]) == [] && OnePerBucket(map[]) == map[]
  {
  }

  lemma MeanOfOne(kw: real)
    ensures Mean(Entry(kw, 1)) == kw
  {
  }

  /** After a restore the window is kept exactly as before one, the newest saved bucket counting as seen. */
  lemma RestoredWindowKeptIff(m: Buckets, log: seq<LoadSample>, cfg: Config)
    requires Counted(m) && m != map[]
    ensures (var restored, seen := Restored(map[], HistoryOf(m), cfg), Some(Greatest(m.Keys));
             (forall n :: 0 <= n <= |log| ==>
                InNewestWindow(RunOn(restored, log[..n], cfg), NewestAfter(seen, log[..n]), cfg))
             <==> NoneTooLate(seen, log, cfg))
  {
    hide WindowBuckets, Restored, HistoryOf, RunOn, NewestAfter, NoneTooLate;
    RestoreReproduces(m, cfg);
    assert InNewestWindow(Reloaded(m, cfg), Some(Greatest(m.Keys)), cfg);
    WindowKeptIff(Restored(map[], HistoryOf(m), cfg), Some(Greatest(m.Keys)), log, cfg);
  }

  /** After any run of readings, saving and restoring reproduces the history. */
  lemma RunSurvivesRestart(log: seq<LoadSample>, cfg: Config)
    requires log != [] && NoneTooLate(None, log, cfg)
    ensures Counted(Run(log, cfg))
    ensures Counted(Restored(map[], HistoryOf(Run(log, cfg)), cfg))
    ensures HistoryOf(Restored(map[], HistoryOf(Run(log, cfg)), cfg)) == HistoryOf(Run(log, cfg))
  {
    hide BucketOf, WindowBuckets, HistoryOf, Restored, EverIn, Run, NewestBucket;
    var m := Run(log, cfg);
    RunIsExact(log, cfg);
    if m != map[] {
      var g := Greatest(m.Keys);
      assert g in m;
      NewestIsKept(log, cfg);
    }
    RestoreReproduces(m, cfg);
  }

  lemma NewestIsKept(log: seq<LoadSample>, cfg: Config)
    requires log != [] && Exact(Run(log, cfg), log, cfg)
    ensures NewestBucket(log) in Run(log, cfg)
  {
    hide BucketOf, Run;
    FellSomewhere(log);
  }

  lemma {:induction false} FellSomewhere(log: seq<LoadSample>)
    requires log != []
    ensures EverIn(log, NewestBucket(log)).count > 0
  {
    hide BucketOf;
    if |log| > 1 {
      FellSomewhere(log[..|log| - 1]);
    }
  }

  // ---- what a restart changes ------------------------------------------------------------------

  /** No later reading moves the window past the bucket. */
  predicate Survives(b: Bucket, log: seq<LoadSample>, cfg: Config) {
    log == [] || (Survives(b, log[..|log| - 1], cfg) && BucketOf(log[|log| - 1].ts) - WindowBuckets(cfg) <= b)
  }

  function Joined(a: Entry, b: Entry): Entry { Entry(a.sum + b.sum, a.count + b.count) }

  function HeldAt(m: Buckets, b: Bucket): Entry { if b in m then m[b] else NOTHING }

  lemma RecordedAt(m: Buckets, x: LoadSample, cfg: Config, b: Bucket)
    ensures HeldAt(Recorded(m, x, cfg), b)
         == if BucketOf(x.ts) - WindowBuckets(cfg) > b then NOTHING
            else if BucketOf(x.ts) == b then Joined(HeldAt(m, b), Entry(x.kw, 1)) else HeldAt(m, b)
  {
    hide BucketOf, WindowBuckets;
  }

  lemma JoinedCounts(a: Entry, b: Entry)
    ensures Joined(a, b).count == a.count + b.count
  {
  }

  lemma JoinedAssociates(a: Entry, b: Entry, c: Entry)
    ensures Joined(Joined(a, b), c) == Joined(a, Joined(b, c))
    ensures Joined(NOTHING, b) == b && Joined(a, NOTHING) == a
  {
  }

  lemma RunOnOneMore(m: Buckets, log: seq<LoadSample>, cfg: Config, b: Bucket)
    requires log != []
    ensures (var prior, x := log[..|log| - 1], log[|log| - 1];
             && RunOn(m, log, cfg) == Recorded(RunOn(m, prior, cfg), x, cfg)
             && (Survives(b, log, cfg) <==> Survives(b, prior, cfg) && BucketOf(x.ts) - WindowBuckets(cfg) <= b))
  {
    hide Recorded, BucketOf, WindowBuckets;
  }

  /** What the model held before and what came later add up, bucket by bucket, for the buckets that were
      never dropped; a dropped bucket starts over. */
  lemma {:induction false} RunOnAdds(m: Buckets, log: seq<LoadSample>, cfg: Config, b: Bucket)
    ensures HeldAt(RunOn(m, log, cfg), b)
         == Joined(if Survives(b, log, cfg) then HeldAt(m, b) else NOTHING, HeldAt(RunOn(map[], log, cfg), b))
  {
    hide BucketOf, WindowBuckets, HeldAt, Recorded, RunOn, Survives, Joined;
    if log == [] {
      NothingRecorded(m, cfg, b);
      JoinedAssociates(HeldAt(m, b), NOTHING, NOTHING);
    } else {
      var prior, x := log[..|log| - 1], log[|log| - 1];
      var before := if Survives(b, prior, cfg) then HeldAt(m, b) else NOTHING;
      RunOnAdds(m, prior, cfg, b);
      RunOnOneMore(m, log, cfg, b);
      RunOnOneMore(map[], log, cfg, b);
      RecordedAt(RunOn(m, prior, cfg), x, cfg, b);
      RecordedAt(RunOn(map[], prior, cfg), x, cfg, b);
      JoinedAssociates(before, HeldAt(RunOn(map[], prior, cfg), b), Entry(x.kw, 1));
      JoinedAssociates(NOTHING, NOTHING, NOTHING);
    }
  }

  lemma NothingRecorded(m: Buckets, cfg: Config, b: Bucket)
    ensures RunOn(m, [], cfg) == m && Survives(b, [], cfg)
    ensures HeldAt(RunOn(map[], [], cfg), b) == NOTHING
  {
  }

  lemma NothingHeld(b: Bucket)
    ensures HeldAt(map[], b) == NOTHING
  {
  }

  /** A bucket that was never dropped has collected all later readings that fell in it. */
  lemma {:induction false} SurvivorCollectsAll(log: seq<LoadSample>, cfg: Config, b: Bucket)
    requires Survives(b, log, cfg)
    ensures HeldAt(RunOn(map[], log, cfg), b) == EverIn(log, b)
  {
    hide BucketOf, WindowBuckets, HeldAt, Recorded;
    if log == [] {
      NothingHeld(b);
    } else {
      SurvivorCollectsAll(log[..|log| - 1], cfg, b);
      RecordedAt(RunOn(map[], log[..|log| - 1], cfg), log[|log| - 1], cfg, b);
    }
  }

  lemma {:induction false} RunOnCounted(m: Buckets, log: seq<LoadSample>, cfg: Config)
    requires Counted(m)
    ensures Counted(RunOn(m, log, cfg))
  {
    hide BucketOf, WindowBuckets;
    if log != [] {
      RunOnCounted(m, log[..|log| - 1], cfg);
    }
  }

  /** A mean counted n times over against the same mean counted once, joined with c later readings. */
  lemma Reweighed(mean: real, n: real, sum: real, c: real)
    requires n >= 1.0 && c >= 0.0
    ensures (mean * n + sum) / (n + c) == (mean + sum) / (1.0 + c) <==> n == 1.0 || sum == mean * c
  {
    var left, right := (mean * n + sum) / (n + c), (mean + sum) / (1.0 + c);
    CrossMultiplied(mean * n + sum, n + c, mean + sum, 1.0 + c);
    assert (mean * n + sum) * (1.0 + c) - (mean + sum) * (n + c) == (n - 1.0) * (mean * c - sum);
    ZeroProduct(n - 1.0, mean * c - sum);
  }

  lemma CrossMultiplied(a: real, b: real, c: real, d: real)
    requires b > 0.0 && d > 0.0
    ensures a / b == c / d <==> a * d == c * b
  {
    var p, q := a / b, c / d;
    assert p * b == a && q * d == c;
    assert a * d - c * b == (p - q) * (b * d);
    PositiveProduct(b, d);
    ZeroProduct(p - q, b * d);
  }

  /** The later readings of a bucket leave its mean where it was. */
  predicate MeanStays(e: Entry, later: Entry)
    requires e.count > 0
  {
    later.sum == Mean(e) * later.count as real
  }

  lemma JoinedMeanIs(e: Entry, later: Entry)
    requires e.count > 0
    ensures Mean(Joined(e, later))
         == (Mean(e) * e.count as real + later.sum) / (e.count as real + later.count as real)
  {
    assert Mean(e) * e.count as real == e.sum;
    assert (e.count + later.count) as real == e.count as real + later.count as real;
  }

  lemma JoinedMeans(e: Entry, later: Entry)
    requires e.count > 0
    ensures Mean(Joined(Entry(Mean(e), 1), later)) == Mean(Joined(e, later)) <==> e.count == 1 || MeanStays(e, later)
  {
    hide Mean, Joined;
    JoinedMeanIs(e, later);
    JoinedMeanIs(Entry(Mean(e), 1), later);
    MeanOfOne(Mean(e));
    Reweighed(Mean(e), e.count as real, later.sum, later.count as real);
  }

  lemma JoinedKeepsMean(e: Entry, later: Entry)
    requires e.count > 0 && later.count > 0
    ensures Mean(later) == Mean(Joined(e, later)) <==> MeanStays(e, later)
  {
    var mean, n, c := Mean(e), e.count as real, later.count as real;
    assert mean * n == e.sum;
    assert (e.count + later.count) as real == n + c;
    CrossMultiplied(later.sum, c, mean * n + later.sum, n + c);
    assert later.sum * (n + c) - (mean * n + later.sum) * c == n * (later.sum - mean * c);
    ZeroProduct(n, later.sum - mean * c);
  }

  lemma InIffHeld(m: Buckets, b: Bucket)
    requires Counted(m)
    ensures b in m <==> HeldAt(m, b).count > 0
    ensures HeldAt(m, b) == if b in m then m[b] else NOTHING
  {
  }

  lemma HeldOfReloaded(m: Buckets, cfg: Config, b: Bucket)
    requires Counted(m)
    ensures HeldAt(Reloaded(m, cfg), b) == if Reloads(b, m, cfg) then Entry(Mean(m[b]), 1) else NOTHING
  {
    hide Mean, WindowBuckets;
  }

  /** Two entries save alike. */
  predicate SavesAlike(a: Entry, b: Entry) {
    (a.count > 0 <==> b.count > 0) && (a.count > 0 && b.count > 0 ==> Mean(a) == Mean(b))
  }

  /** What later readings must be for a saved bucket that is still kept: any, if it was restored and held one
      reading; else readings that leave its mean, and at least one if the restore dropped it. */
  ghost predicate SeamlessAt(m: Buckets, log: seq<LoadSample>, cfg: Config, b: Bucket)
    requires Counted(m) && b in m
  {
    if Reloads(b, m, cfg) then m[b].count == 1 || MeanStays(m[b], EverIn(log, b))
    else EverIn(log, b).count > 0 && MeanStays(m[b], EverIn(log, b))
  }

  /** What a restart and later readings do to one bucket. */
  lemma BucketIsSeamlessIff(m: Buckets, log: seq<LoadSample>, cfg: Config, b: Bucket)
    requires Counted(m)
    ensures SavesAlike(HeldAt(RunOn(Reloaded(m, cfg), log, cfg), b), HeldAt(RunOn(m, log, cfg), b))
       <==> (b in m && Survives(b, log, cfg) ==> SeamlessAt(m, log, cfg, b))
  {
    hide BucketOf, WindowBuckets, RunOn, EverIn, Survives, Mean, HeldAt, MeanStays, Joined, Reloads, Reloaded;
    var live, restarted := HeldAt(RunOn(m, log, cfg), b), HeldAt(RunOn(Reloaded(m, cfg), log, cfg), b);
    RunOnAdds(m, log, cfg, b);
    RunOnAdds(Reloaded(m, cfg), log, cfg, b);
    InIffHeld(m, b);
    HeldOfReloaded(m, cfg, b);
    ReloadsOnlySaved(b, m, cfg);
    if b in m && Survives(b, log, cfg) {
      SurvivorCollectsAll(log, cfg, b);
      var later := EverIn(log, b);
      assert live == Joined(m[b], later);
      JoinedCounts(m[b], later);
      if Reloads(b, m, cfg) {
        assert restarted == Joined(Entry(Mean(m[b]), 1), later);
        JoinedCounts(Entry(Mean(m[b]), 1), later);
        JoinedMeans(m[b], later);
      } else {
        JoinedAssociates(NOTHING, later, NOTHING);
        assert restarted == later;
        if later.count > 0 {
          JoinedKeepsMean(m[b], later);
        }
      }
    } else {
      assert live == restarted;
    }
  }

  lemma ReloadsOnlySaved(b: Bucket, m: Buckets, cfg: Config)
    ensures Reloads(b, m, cfg) ==> b in m
  {
  }

  lemma SameHistoryBucketwise(m: Buckets, n: Buckets)
    requires Counted(m) && Counted(n)
    ensures HistoryOf(m) == HistoryOf(n) <==> forall b :: SavesAlike(HeldAt(m, b), HeldAt(n, b))
  {
    hide Mean, HistoryOf, SavesAlike, HeldAt;
    SameHistoryIff(m, n);
    forall b
      ensures SavesAlike(HeldAt(m, b), HeldAt(n, b))
         <==> (b in m.Keys <==> b in n.Keys) && (b in m && b in n ==> Mean(m[b]) == Mean(n[b]))
    {
      InIffHeld(m, b);
      InIffHeld(n, b);
      SavesAlikeIs(HeldAt(m, b), HeldAt(n, b));
    }
    SameKeysIff(m, n);
  }

  lemma SameKeysIff(m: Buckets, n: Buckets)
    ensures m.Keys == n.Keys <==> forall b :: b in m.Keys <==> b in n.Keys
  {
    if forall b :: b in m.Keys <==> b in n.Keys {
      assert m.Keys == n.Keys;
    }
  }

  lemma SavesAlikeIs(a: Entry, b: Entry)
    ensures SavesAlike(a, b)
       <==> (a.count > 0 <==> b.count > 0) && (a.count > 0 && b.count > 0 ==> Mean(a) == Mean(b))
  {
  }

  lemma {:induction false} ReloadedCounted(m: Buckets, cfg: Config)
    requires Counted(m)
    ensures Counted(Reloaded(m, cfg))
  {
    hide Mean, WindowBuckets;
  }

  /** A restored bucket counts as one reading, and a restore drops saved buckets older than a window. So a
      model restored from its saved history goes on giving the history it would have given without the
      restart, after any run of later readings, exactly when that is so for every saved bucket no later
      reading has dropped (`SeamlessAt`). Saved samples do not land in their buckets like the readings they
      were made of. */
  lemma RestartIsSeamlessIff(m: Buckets, log: seq<LoadSample>, cfg: Config)
    requires Counted(m)
    ensures (var restored := Restored(map[], HistoryOf(m), cfg);
             && Counted(RunOn(m, log, cfg)) && Counted(RunOn(restored, log, cfg))
             && (HistoryOf(RunOn(restored, log, cfg)) == HistoryOf(RunOn(m, log, cfg))
                 <==> forall b :: b in m && Survives(b, log, cfg) ==> SeamlessAt(m, log, cfg, b)))
  {
    hide WindowBuckets, RunOn, Survives, SeamlessAt, HistoryOf, Restored, Reloaded, SavesAlike, HeldAt;
    var live, restarted := RunOn(m, log, cfg), RunOn(Reloaded(m, cfg), log, cfg);
    RestoreReproduces(m, cfg);
    ReloadedCounted(m, cfg);
    RunOnCounted(m, log, cfg);
    RunOnCounted(Reloaded(m, cfg), log, cfg);
    SameHistoryBucketwise(restarted, live);
    forall b
      ensures SavesAlike(HeldAt(restarted, b), HeldAt(live, b))
         <==> (b in m && Survives(b, log, cfg) ==> SeamlessAt(m, log, cfg, b))
    {
      BucketIsSeamlessIff(m, log, cfg, b);
    }
  }

  /** A bucket of two readings of 1 kW is saved; one reading of 4 kW later, the restored model holds a mean
      of 2.5 kW and the other one of 2 kW. */
  lemma RestartMovesTheMean(cfg: Config)
    ensures (var m := map[0 := Entry(2.0, 2)];
             var log := [LoadSample(60_000, 4.0)];
             && RunOn(m, log, cfg) == map[0 := Entry(6.0, 3)]
             && RunOn(Restored(map[], HistoryOf(m), cfg), log, cfg) == map[0 := Entry(5.0, 2)])
  {
    hide Restored, HistoryOf;
    var m := map[0 := Entry(2.0, 2)];
    var x := LoadSample(60_000, 4.0);
    assert [x][..0] == [] && BucketOf(x.ts) == 0;
    RestoreReproduces(m, cfg);
    assert 0 in m && Greatest(m.Keys) == 0;
    assert Reloaded(m, cfg) == map[0 := Entry(1.0, 1)];
    assert RunOn(m, [x][..0], cfg) == m && RunOn(Reloaded(m, cfg), [x][..0], cfg) == Reloaded(m, cfg);
  }

  /** The late bucket of `LateReadingIsKept` is saved, and a restore drops it. */
  lemma LateBucketIsNotRestored()
    ensures (var cfg := Config(56, 2.5, 100);
             var m := Run([LoadSample(60 * DAY_MS, 1.0), LoadSample(DAY_MS, 2.0)], cfg);
             Counted(m) && BucketOf(DAY_MS) in m && BucketOf(DAY_MS) !in Restored(map[], HistoryOf(m), cfg))
  {
    hide Restored, HistoryOf;
    var cfg := Config(56, 2.5, 100);
    var log := [LoadSample(60 * DAY_MS, 1.0), LoadSample(DAY_MS, 2.0)];
    var m := Run(log, cfg);
    assert BucketOf(60 * DAY_MS) == 8640 && BucketOf(DAY_MS) == 144 && WindowBuckets(cfg) == 8064;
    assert log[..1] == [LoadSample(60 * DAY_MS, 1.0)] && log[..1][..0] == [];
    assert RunOn(map[], log[..1], cfg) == map[8640 := Entry(1.0, 1)];
    assert m == map[8640 := Entry(1.0, 1), 144 := Entry(2.0, 1)];
    RestoreReproduces(m, cfg);
    assert 8640 in m.Keys && Greatest(m.Keys) == 8640;
  }

  // ---- what is published -----------------------------------------------------------------------

  lemma {:induction false} LearnedValueAt(p: Profile, start: Instant, n: nat, i: nat)
    requires i < n
    ensures |LearnedValues(p, start, n)| == n
            && LearnedValues(p, start, n)[i] == MaxR(SampleKw(p, HourAhead(start, i)), 0.0)
  {
    hide SampleKw, HourAhead, MaxR;
    LearnedLength(p, start, n - 1);
    if i < n - 1 {
      LearnedValueAt(p, start, n - 1, i);
    }
  }

  lemma {:induction false} LearnedLength(p: Profile, start: Instant, n: nat)
    ensures |LearnedValues(p, start, n)| == n
  {
    if n > 0 {
      LearnedLength(p, start, n - 1);
    }
  }

  lemma {:induction false} FlatValueAt(kw: real, n: nat)
    ensures |FlatValues(kw, n)| == n && forall i :: 0 <= i < n ==> FlatValues(kw, n)[i] == kw
  {
    if n > 0 {
      FlatValueAt(kw, n - 1);
    }
  }

  lemma {:induction false} TotalOfConstant(xs: seq<LoadSample>, c: real)
    requires Between(c, xs, c)
    ensures TotalKw(xs) == c * |xs| as real
  {
    if xs != [] {
      TotalOfConstant(xs[..|xs| - 1], c);
      assert xs[|xs| - 1] in xs;
      Distributes(c, (|xs| - 1) as real, 1.0);
    }
  }

  lemma HistoryIsConstant(m: Buckets, c: real)
    requires Counted(m) && m != map[] && forall b :: b in m ==> Mean(m[b]) == c
    ensures HistoryOf(m) != [] && Between(c, HistoryOf(m), c)
  {
    hide BucketOf, BucketStart, Mean, HistoryOf;
    var h := HistoryOf(m);
    HistoryIsAscending(m);
    forall x | x in h
      ensures x.kw == c
    {
      var i :| 0 <= i < |h| && h[i] == x;
    }
    var b := Greatest(m.Keys);
    assert SampleOf(b, m[b]) in h;
  }

  lemma FlatIsConstant(h: seq<LoadSample>, c: real)
    requires h != [] && Between(c, h, c)
    ensures FlatKw(h) == c
  {
    hide Between, TotalKw;
    TotalOfConstant(h, c);
    var n := |h| as real;
    assert c * n / n == c;
  }

  /** The published series: 48 values from the hour of `now` on, an hour apart. Once enough samples lie in the
      window, they are what the learned profile says for those hours, and never negative; before, they all are
      the mean of the samples, or 0.4 kW without any. */
  lemma PublishedSeries(m: Buckets, previous: Option<Profile>, now: Instant, cfg: Config, weight: Weight, i: nat)
    requires Counted(m) && Usable(cfg) && Positive(weight) && i < 48
    ensures (var h, s := HistoryOf(m), SeriesOf(m, previous, now, cfg, weight);
      && s.start <= now < s.start + 3_600_000 && s.start % 3_600_000 == 0 && |s.valuesKw| == 48
      && (s.coldStart <==> |Window(h, now, cfg)| < cfg.minSamples)
      && (!s.coldStart ==>
            var p := LearnedFrom(h, now, cfg, weight, previous).value;
            var kw := SampleKw(p, s.start + i * 3_600_000);
            s.valuesKw[i] == if kw < 0.0 then 0.0 else kw)
      && (s.coldStart && h != [] ==> s.valuesKw[i] * |h| as real == TotalKw(h))
      && (s.coldStart && h == [] ==> s.valuesKw[i] == 0.4))
  {
    hide HistoryOf, SampleKw, LearnedValues, FlatValues, HourStart, TotalKw, LearnedFrom;
    var h := HistoryOf(m);
    HourIs(now);
    var p := LearnedFrom(h, now, cfg, weight, previous);
    GateIs(h, now, cfg, weight, previous);
    if p.Some? {
      LearnedLength(p.value, HourStart(now), HORIZON_H);
      LearnedValueAt(p.value, HourStart(now), HORIZON_H, i);
    } else {
      FlatValueAt(FlatKw(h), HORIZON_H);
      if h != [] {
        assert TotalKw(h) / |h| as real * |h| as real == TotalKw(h);
      }
    }
  }

  lemma GateIs(h: seq<LoadSample>, now: Instant, cfg: Config, weight: Weight, previous: Option<Profile>)
    requires Usable(cfg) && Positive(weight)
    ensures LearnedFrom(h, now, cfg, weight, previous).None? <==> |Window(h, now, cfg)| < cfg.minSamples
  {
  }

  lemma HourIs(t: Instant)
    ensures HourStart(t) <= t < HourStart(t) + 3_600_000 && HourStart(t) % 3_600_000 == 0
  {
    assert t / 1000 / 3600 == t / 3_600_000;
    var q := t / 3_600_000;
    assert HourStart(t) == q * 3_600_000;
  }

  lemma TotalGrows(xs: seq<LoadSample>, x: LoadSample)
    ensures TotalKw([]) == 0.0 && TotalKw(xs + [x]) == TotalKw(xs) + x.kw
  {
    assert (xs + [x])[..|xs|] == xs;
  }

  /** A house that always drew c is forecast to draw c in every one of the 48 hours, learned or cold. */
  lemma ConstantLoadIsForecast(m: Buckets, previous: Option<Profile>, now: Instant, cfg: Config, weight: Weight,
        c: real)
    requires Counted(m) && Usable(cfg) && cfg.minSamples > 0 && Positive(weight) && c >= 0.0
    requires m != map[] && forall b :: b in m ==> Mean(m[b]) == c
    ensures (var s := SeriesOf(m, previous, now, cfg, weight);
             s.start == HourStart(now) && |s.valuesKw| == 48 && forall i :: 0 <= i < 48 ==> s.valuesKw[i] == c)
  {
    hide Mean, HistoryOf, LearnedFrom, SampleKw, HourStart, HourAhead, Between, FlatKw, LearnedValues, FlatValues;
    var h := HistoryOf(m);
    HistoryIsConstant(m, c);
    var p := LearnedFrom(h, now, cfg, weight, previous);
    if p.Some? {
      LearnedIsConstant(h, now, cfg, weight, previous, c);
      LearnedLength(p.value, HourStart(now), HORIZON_H);
      forall i: nat | i < HORIZON_H
        ensures LearnedValues(p.value, HourStart(now), HORIZON_H)[i] == c
      {
        LearnedValueAt(p.value, HourStart(now), HORIZON_H, i);
      }
    } else {
      FlatIsConstant(h, c);
      FlatValueAt(c, HORIZON_H);
    }
  }

  lemma {:induction false} WindowWithin(xs: seq<LoadSample>, now: Instant, cfg: Config, lo: real, hi: real)
    requires Between(lo, xs, hi)
    ensures Between(lo, Window(xs, now, cfg), hi)
  {
    hide InWindow;
    if xs != [] {
      WindowWithin(xs[..|xs| - 1], now, cfg, lo, hi);
      assert xs[|xs| - 1] in xs;
    }
  }

  lemma LearnedIsConstant(h: seq<LoadSample>, now: Instant, cfg: Config, weight: Weight, previous: Option<Profile>,
        c: real)
    requires Usable(cfg) && cfg.minSamples > 0 && Positive(weight) && Between(c, h, c)
    requires LearnedFrom(h, now, cfg, weight, previous).Some?
    ensures forall t :: SampleKw(LearnedFrom(h, now, cfg, weight, previous).value, t) == c
  {
    WindowWithin(h, now, cfg, c, c);
    assert Window(h, now, cfg) != [] by {
      hide Window;
    }
    ConstantLoadIsLearned(h, now, cfg, weight, previous, c);
    var p := LearnedFrom(h, now, cfg, weight, previous).value;
    forall t
      ensures SampleKw(p, t) == c
    {
      hide LearnedFrom, Window;
      CellsAreAll(CellOf(t));
    }
  }

  lemma CellsAreAll(c: Cell)
    ensures c in CELLS <==> c.day < 7 && c.hour < 24
  {
  }
}
