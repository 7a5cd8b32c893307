/** What looping means: a sequence repeated by `event.duration` is the declared sequence read one lap of its
    span later each time, which for a sequence whose last interval ends last is the time since the event's
    start modulo the span. A contiguous one tiles the event. */
module LoopedTime {
  import opened Options
  import opened Numbers
  import opened EventModel
  import opened EventTiming

  /** Starts never go back. */
  ghost predicate Rising(base: seq<TimedInterval>) {
    forall i, j :: 0 <= i < j < |base| ==> base[i].start <= base[j].start
  }

  /** What repeating by the span needs: starts never go back, also not from the last interval to the next
      repetition. Gaps between intervals and overlaps are allowed. */
  ghost predicate InSequence(base: seq<TimedInterval>) {
    Rising(base) && (base != [] ==> base[|base| - 1].start <= base[|base| - 1].end)
  }

  /** In sequence, and the last interval ends last. */
  ghost predicate Ordered(base: seq<TimedInterval>) {
    InSequence(base) && forall i :: 0 <= i < |base| ==> base[i].end <= base[|base| - 1].end
  }

  /** Interval i is bounded and begins where the one before it ends. */
  ghost predicate FollowsOn(base: seq<TimedInterval>, i: nat)
    requires i < |base|
  {
    && base[i].Bounded() && base[i].start <= base[i].end
    && (i > 0 ==> base[i - 1].end == base[i].start)
  }

  /** Interval follows interval without gap or overlap, and no end is open. */
  ghost predicate Contiguous(base: seq<TimedInterval>) {
    forall i :: 0 <= i < |base| ==> FollowsOn(base, i)
  }

  lemma TailContiguous(base: seq<TimedInterval>)
    requires Contiguous(base) && base != []
    ensures Contiguous(base[1..])
  {
    forall i | 0 <= i < |base[1..]|
      ensures FollowsOn(base[1..], i)
    {
      assert FollowsOn(base, i + 1);
    }
  }

  lemma {:induction false} ContiguousAscends(base: seq<TimedInterval>, i: nat, j: nat)
    requires Contiguous(base) && i <= j < |base|
    ensures base[i].start <= base[j].start && base[i].end <= base[j].end && base[i].start <= base[j].end
    decreases j - i
  {
    assert FollowsOn(base, j);
    if i < j {
      ContiguousAscends(base, i, j - 1);
    }
  }

  lemma ContiguousIsOrdered(base: seq<TimedInterval>)
    requires Contiguous(base)
    ensures Ordered(base)
  {
    forall i, j | 0 <= i < j < |base|
      ensures base[i].start <= base[j].start
    {
      ContiguousAscends(base, i, j);
    }
    forall i | 0 <= i < |base|
      ensures base[i].end <= base[|base| - 1].end
    {
      ContiguousAscends(base, i, |base| - 1);
    }
    assert base != [] ==> FollowsOn(base, |base| - 1);
  }

  /** The event declares a duration and a sequence that repeats, listed in order, and its expansion stays
      in the range of dates. */
  ghost predicate RepeatsInSequence(e: Event) {
    var base := BaseIntervals(e);
    InSequence(base) && Repeats(base) && EventWindowEnd(e, base).Some? && Returns(e)
  }

  /** And its last interval ends last. */
  ghost predicate Loops(e: Event) {
    RepeatsInSequence(e) && Ordered(BaseIntervals(e))
  }

  /** Division with remainder by repeated subtraction; `LapsAndRest` identifies it with / and %. */
  function Laps(x: nat, n: nat): nat
    requires n > 0
  {
    if x < n then 0 else Laps(x - n, n) + 1
  }

  function Rest(x: nat, n: nat): (r: nat)
    requires n > 0
    ensures r < n
  {
    if x < n then x else Rest(x - n, n)
  }

  /** Which declared interval the k-th interval of the endless repetition copies, and how much later
      it runs. */
  function Index(base: seq<TimedInterval>, k: nat): (j: nat)
    requires base != []
    ensures j < |base|
  {
    Rest(k, |base|)
  }

  function Shift(base: seq<TimedInterval>, k: nat): int
    requires base != []
  {
    if k < |base| then 0 else Shift(base, k - |base|) + Span(base)
  }

  /** The k-th interval of the endless repetition, clipped at the event's end. */
  function Unrolled(base: seq<TimedInterval>, end: Instant, k: nat): TimedInterval
    requires base != []
  {
    Clip(base[Index(base, k)], Shift(base, k), end)
  }

  ghost predicate IsUnrolling(base: seq<TimedInterval>, end: Instant, from: nat, r: seq<TimedInterval>)
    requires base != []
  {
    forall k :: 0 <= k < |r| ==> r[k] == Unrolled(base, end, from + k) && r[k].start < end
  }

  /** Nothing may follow: the cap is reached, or the next interval would start past the end. */
  ghost predicate Complete(base: seq<TimedInterval>, end: Instant, len: nat)
    requires base != []
  {
    len >= 2000 || Unrolled(base, end, len).start >= end
  }

  lemma QuotientUnique(q: int, r: nat, m: int, k: nat, n: nat)
    requires r < n && k < n && q * n + r == m * n + k
    ensures q == m && r == k
  {
    if q > m {
      assert q * n - m * n == (q - m) * n;
      MulAtLeast(q - m, n);
    } else if q < m {
      assert m * n - q * n == (m - q) * n;
      MulAtLeast(m - q, n);
    }
  }

  lemma {:induction false} LapsAndRest(x: nat, n: nat)
    requires n > 0
    ensures Laps(x, n) == x / n && Rest(x, n) == x % n
  {
    LapsTimesPlusRest(x, n);
    QuotientUnique(x / n, x % n, Laps(x, n), Rest(x, n), n);
  }

  lemma {:induction false} LapsTimesPlusRest(x: nat, n: nat)
    requires n > 0
    ensures x == Laps(x, n) * n + Rest(x, n)
  {
    if x >= n {
      LapsTimesPlusRest(x - n, n);
      assert (Laps(x - n, n) + 1) * n == Laps(x - n, n) * n + n;
    }
  }

  /** From a seam between two repetitions, the next repetition is the declared list in order, and
      leads to the next seam. */
  lemma {:induction false} FromSeam(base: seq<TimedInterval>, len: nat, j: nat)
    requires base != [] && Index(base, len) == 0 && j < |base|
    ensures Index(base, len + j) == j && Shift(base, len + j) == Shift(base, len)
    decreases len
  {
    if len >= |base| {
      FromSeam(base, len - |base|, j);
    }
  }

  lemma NextSeam(base: seq<TimedInterval>, len: nat)
    requires base != []
    ensures Index(base, len + |base|) == Index(base, len)
    ensures Shift(base, len + |base|) == Shift(base, len) + Span(base)
  {
  }

  lemma {:induction false} PassIsClipped(base: seq<TimedInterval>, shift: int, end: Instant, room: nat)
    ensures var r := Pass(base, shift, end, room);
      && |r| <= |base|
      && (forall k :: 0 <= k < |r| ==> r[k] == Clip(base[k], shift, end) && r[k].start < end)
      && (|r| == |base| || |r| == room || base[|r|].start + shift >= end)
  {
    if base != [] && room > 0 && base[0].start + shift < end {
      PassIsClipped(base[1..], shift, end, room - 1);
      var rest := Pass(base[1..], shift, end, room - 1);
      var r := Pass(base, shift, end, room);
      assert r == [Clip(base[0], shift, end)] + rest;
      forall k | 0 <= k < |r|
        ensures r[k] == Clip(base[k], shift, end) && r[k].start < end
      {
        if k > 0 {
          assert r[k] == rest[k - 1] && base[1..][k - 1] == base[k];
        }
      }
      if |rest| < |base[1..]| && |rest| < room - 1 {
        assert base[1..][|rest|] == base[|r|];
      }
    }
  }

  /** A pass that begins at a seam, and all passes after it, are the unrolled sequence from there on,
      up to the cap or the event's end. */
  lemma {:induction false} PassesUnroll(base: seq<TimedInterval>, end: Instant, len: nat)
    requires InSequence(base) && Repeats(base) && Index(base, len) == 0
    ensures var r := Passes(base, Span(base), Shift(base, len), end, len);
            IsUnrolling(base, end, len, r) && Complete(base, end, len + |r|)
    decreases MAX_LOOPED_INTERVALS - len
  {
    hide Pass, Shift, Index, InSequence;
    var span, shift := Span(base), Shift(base, len);
    FromSeam(base, len, 0);
    if len < MAX_LOOPED_INTERVALS && base[0].start + shift < end {
      var room := MAX_LOOPED_INTERVALS - len;
      var pass := Pass(base, shift, end, room);
      var rest := Passes(base, span, shift + span, end, len + |pass|);
      assert Passes(base, span, shift, end, len) == pass + rest;
      PassUnrolls(base, end, len);
      PassCompletes(base, end, len);
      if |pass| == |base| {
        NextSeam(base, len);
        PassesUnroll(base, end, len + |pass|);
        UnrollingConcat(base, end, len, pass, rest);
        assert len + |pass + rest| == (len + |pass|) + |rest|;
      } else {
        StoppedInside(base, end, len);
        assert pass + rest == pass;
      }
    }
  }

  /** One pass from a seam is unrolled too, and unless it is whole nothing may follow it. */
  lemma PassUnrolls(base: seq<TimedInterval>, end: Instant, len: nat)
    requires base != [] && Index(base, len) == 0 && len < MAX_LOOPED_INTERVALS
    ensures IsUnrolling(base, end, len, Pass(base, Shift(base, len), end, MAX_LOOPED_INTERVALS - len))
  {
    hide Pass, Index, Shift, Clip;
    var pass := Pass(base, Shift(base, len), end, MAX_LOOPED_INTERVALS - len);
    PassIsClipped(base, Shift(base, len), end, MAX_LOOPED_INTERVALS - len);
    forall k | 0 <= k < |pass|
      ensures pass[k] == Unrolled(base, end, len + k)
    {
      FromSeam(base, len, k);
    }
  }

  lemma PassCompletes(base: seq<TimedInterval>, end: Instant, len: nat)
    requires base != [] && Index(base, len) == 0 && len < MAX_LOOPED_INTERVALS
    ensures var pass := Pass(base, Shift(base, len), end, MAX_LOOPED_INTERVALS - len);
            |pass| == |base| || (|pass| < |base| && Complete(base, end, len + |pass|))
  {
    hide Pass, Index, Shift;
    var room := MAX_LOOPED_INTERVALS - len;
    var pass := Pass(base, Shift(base, len), end, room);
    PassIsClipped(base, Shift(base, len), end, room);
    if |pass| < |base| && |pass| < room {
      FromSeam(base, len, |pass|);
    }
  }

  lemma StoppedInside(base: seq<TimedInterval>, end: Instant, len: nat)
    requires InSequence(base) && Repeats(base) && Index(base, len) == 0 && len < MAX_LOOPED_INTERVALS
    requires |Pass(base, Shift(base, len), end, MAX_LOOPED_INTERVALS - len)| < |base|
    ensures var pass := Pass(base, Shift(base, len), end, MAX_LOOPED_INTERVALS - len);
            Passes(base, Span(base), Shift(base, len) + Span(base), end, len + |pass|) == []
  {
    var room, shift := MAX_LOOPED_INTERVALS - len, Shift(base, len);
    var pass := Pass(base, shift, end, room);
    PassIsClipped(base, shift, end, room);
    assert base[|pass|].start <= base[|base| - 1].start;
  }

  lemma UnrollingConcat(base: seq<TimedInterval>, end: Instant, from: nat, a: seq<TimedInterval>, b: seq<TimedInterval>)
    requires base != [] && IsUnrolling(base, end, from, a) && IsUnrolling(base, end, from + |a|, b)
    ensures IsUnrolling(base, end, from, a + b)
  {
    forall k | |a| <= k < |a + b|
      ensures (a + b)[k] == Unrolled(base, end, from + k)
    {
      assert (a + b)[k] == b[k - |a|] && from + k == (from + |a|) + (k - |a|);
    }
  }

  lemma {:induction false} AllPastEnd(base: seq<TimedInterval>, end: Instant)
    requires Rising(base) && (base != [] ==> base[0].start >= end)
    ensures Trim(base, end) == []
  {
    if base != [] {
      AllPastEnd(base[1..], end);
    }
  }

  lemma {:induction false} TrimIsPrefix(base: seq<TimedInterval>, end: Instant)
    requires Rising(base)
    ensures var r := Trim(base, end);
      && |r| <= |base|
      && (forall k :: 0 <= k < |r| ==> r[k] == Clip(base[k], 0, end) && r[k].start < end)
      && (|r| < |base| ==> base[|r|].start >= end)
  {
    if base != [] {
      var tail := base[1..];
      if base[0].start < end {
        TrimIsPrefix(tail, end);
        var r, rest := Trim(base, end), Trim(tail, end);
        assert r == [Clip(base[0], 0, end)] + rest;
        forall k | 0 <= k < |r|
          ensures r[k] == Clip(base[k], 0, end) && r[k].start < end
        {
          assert k > 0 ==> r[k] == rest[k - 1] && tail[k - 1] == base[k];
        }
        assert |rest| < |tail| ==> tail[|rest|] == base[|r|];
      } else {
        AllPastEnd(base, end);
      }
    }
  }

  lemma TrimUnrolls(base: seq<TimedInterval>, end: Instant)
    requires InSequence(base) && Repeats(base)
    ensures var r := Trim(base, end);
      && IsUnrolling(base, end, 0, r)
      && |r| <= |base|
      && (|r| < |base| ==> Complete(base, end, |r|) && base[0].start + Span(base) >= end)
  {
    TrimIsPrefix(base, end);
    var r := Trim(base, end);
    if |r| < |base| {
      assert base[|r|].start <= base[|base| - 1].start;
    }
  }

  lemma WindowUnrolls(base: seq<TimedInterval>, end: Instant)
    requires InSequence(base) && Repeats(base)
    ensures IsUnrolling(base, end, 0, FillWindow(base, end)) && Complete(base, end, |FillWindow(base, end)|)
  {
    hide Trim, Passes, Index, Shift, InSequence, IsUnrolling, Complete;
    var trimmed := Trim(base, end);
    TrimUnrolls(base, end);
    var rest := Passes(base, Span(base), Span(base), end, |trimmed|);
    if |trimmed| == |base| {
      FirstSeam(base);
      PassesUnroll(base, end, |base|);
      assert 0 + |trimmed| == |base|;
      UnrollingConcat(base, end, 0, trimmed, rest);
    } else {
      NoPasses(base, Span(base), Span(base), end, |trimmed|);
      assert trimmed + rest == trimmed;
    }
  }

  lemma FirstSeam(base: seq<TimedInterval>)
    requires base != []
    ensures Index(base, |base|) == 0 && Shift(base, |base|) == Span(base)
  {
    NextSeam(base, 0);
  }

  lemma NoPasses(base: seq<TimedInterval>, span: int, shift: int, end: Instant, len: nat)
    requires base != [] && base[0].start + shift >= end
    ensures Passes(base, span, shift, end, len) == []
  {
  }

  /** The closed form of the expansion: its k-th interval is interval k mod n of the declared list,
      moved k div n spans later and clipped, and it goes on exactly until the cap or the end. */
  lemma ExpansionUnrolls(e: Event)
    requires RepeatsInSequence(e)
    ensures var base := BaseIntervals(e);
            var end := EventWindowEnd(e, base).value;
            IsUnrolling(base, end, 0, TimedIntervals(e)) && Complete(base, end, |TimedIntervals(e)|)
  {
    var base := BaseIntervals(e);
    WindowUnrolls(base, EventWindowEnd(e, base).value);
  }

  // ---- when the closed form holds --------------------------------------------------------------

  lemma {:induction false} TrimCounts(base: seq<TimedInterval>, end: Instant, n: nat, m: nat)
    requires n <= m < |base| && base[m].start < end && forall k :: 0 <= k < n ==> base[k].start < end
    ensures |Trim(base, end)| > n
  {
    if m > 0 {
      TrimCounts(base[1..], end, if n > 0 then n - 1 else 0, m - 1);
    }
  }

  lemma LateOneIsCopied(base: seq<TimedInterval>, i: nat, j: nat) returns (k: nat)
    requires i < j < |base| && base[j].start < base[i].start
    ensures k < |base| && k < |FillWindow(base, base[i].start)| && base[k].start >= base[i].start
  {
    hide Passes;
    var end, out := base[i].start, FillWindow(base, base[i].start);
    k := i;
    if |out| <= i {
      if forall m :: 0 <= m < |out| ==> base[m].start < end {
        TrimCounts(base, end, |out|, j);
      }
      k :| 0 <= k < |out| && base[k].start >= end;
    }
  }

  /** An interval that starts before an earlier one of the list breaks the closed form for an event that
      ends where the earlier one starts. */
  lemma BackwardStartBreaks(base: seq<TimedInterval>, i: nat, j: nat)
    requires i < j < |base| && base[j].start < base[i].start
    ensures !IsUnrolling(base, base[i].start, 0, FillWindow(base, base[i].start))
  {
    hide FillWindow;
    var out := FillWindow(base, base[i].start);
    var k := LateOneIsCopied(base, i, j);
    assert Unrolled(base, base[i].start, 0 + k).start == base[k].start;
    assert !(out[k] == Unrolled(base, base[i].start, 0 + k) && out[k].start < base[i].start);
  }

  /** The closed form, with the copies in list order from the first repetition on, is what every event that
      declares this sequence gets, whatever its end, exactly when the starts never go back. */
  lemma UnrollsForEveryEndIff(base: seq<TimedInterval>)
    requires Repeats(base) && base[|base| - 1].start <= base[|base| - 1].end
    requires forall i :: 0 <= i < |base| ==> WindowInRange(base, base[i].start)
    ensures (forall end :: WindowInRange(base, end) ==>
               IsUnrolling(base, end, 0, FillWindow(base, end)) && Complete(base, end, |FillWindow(base, end)|))
            <==> Rising(base)
  {
    hide WindowInRange, FillWindow, IsUnrolling, Complete;
    if Rising(base) {
      forall end
        ensures IsUnrolling(base, end, 0, FillWindow(base, end)) && Complete(base, end, |FillWindow(base, end)|)
      {
        WindowUnrolls(base, end);
      }
    } else {
      var i, j :| 0 <= i < j < |base| && base[i].start > base[j].start;
      BackwardStartBreaks(base, i, j);
      assert WindowInRange(base, base[i].start);
    }
  }

  lemma {:induction false} UnrolledAscend(base: seq<TimedInterval>, end: Instant, i: nat, j: nat)
    requires InSequence(base) && Repeats(base) && i <= j
    ensures Unrolled(base, end, i).start <= Unrolled(base, end, j).start
    decreases j - i
  {
    if i < j {
      UnrolledAscend(base, end, i, j - 1);
      UnrolledStep(base, end, j - 1);
    }
  }

  /** Unrolled starts never go back, also across the seam between two repetitions. */
  lemma {:induction false} UnrolledStep(base: seq<TimedInterval>, end: Instant, k: nat)
    requires InSequence(base) && Repeats(base)
    ensures Unrolled(base, end, k).start <= Unrolled(base, end, k + 1).start
    decreases k
  {
    if k >= |base| {
      UnrolledStep(base, end, k - |base|);
      assert Index(base, k + 1) == Index(base, k - |base| + 1);
    } else if k + 1 == |base| {
      assert Rest(k + 1, |base|) == Rest(0, |base|) == 0;
      assert Shift(base, k + 1) == Shift(base, 0) + Span(base);
      assert base[k].start <= base[|base| - 1].start;
    }
  }

  // ---- laps ------------------------------------------------------------------------------------

  /** Declared interval j, moved by `lap` spans, runs at t. */
  predicate RunsInLap(base: seq<TimedInterval>, t: Instant, j: nat, lap: nat)
    requires j < |base|
  {
    base[j].Covers(t - lap * Span(base))
  }

  lemma {:induction false} ShiftIsLaps(base: seq<TimedInterval>, k: nat)
    requires base != []
    ensures Shift(base, k) == (k / |base|) * Span(base) && Index(base, k) == k % |base|
  {
    LapsAndRest(k, |base|);
    ShiftByLaps(base, k);
  }

  lemma {:induction false} ShiftByLaps(base: seq<TimedInterval>, k: nat)
    requires base != []
    ensures Shift(base, k) == Laps(k, |base|) * Span(base)
  {
    if k >= |base| {
      ShiftByLaps(base, k - |base|);
      var laps, span := Laps(k - |base|, |base|), Span(base);
      assert (laps + 1) * span == laps * span + span;
    }
  }

  /** The lap of the k-th copy of n intervals. */
  function LapOf(k: nat, n: nat): nat
    requires n > 0
  {
    k / n
  }

  lemma UnrolledCovers(base: seq<TimedInterval>, end: Instant, k: nat, t: Instant)
    requires base != []
    ensures Unrolled(base, end, k).interval == base[k % |base|].interval
    ensures Unrolled(base, end, k).Covers(t) <==> t < end && RunsInLap(base, t, k % |base|, LapOf(k, |base|))
  {
    hide Shift, Index;
    ShiftIsLaps(base, k);
  }

  /** Looping, lap by lap: an interval of the expansion is in force exactly while the declared interval it
      copies was, as many spans earlier as its lap says, and the event has not ended. Intervals that outlast
      the last one run on into the next lap. */
  lemma LoopingIsByLaps(e: Event, t: Instant, k: nat)
    requires RepeatsInSequence(e) && k < |TimedIntervals(e)|
    ensures var base := BaseIntervals(e);
            var out := TimedIntervals(e);
      && out[k].interval == base[k % |base|].interval
      && (out[k].Covers(t) <==>
            t < EventWindowEnd(e, base).value && RunsInLap(base, t, k % |base|, LapOf(k, |base|)))
  {
    hide TimedIntervals, BaseIntervals, Returns, EventWindowEnd, Unrolled, RunsInLap;
    var base := BaseIntervals(e);
    var end := EventWindowEnd(e, base).value;
    ExpansionUnrolls(e);
    assert TimedIntervals(e)[k] == Unrolled(base, end, 0 + k);
    UnrolledCovers(base, end, k, t);
  }

  lemma DivMod(q: nat, r: nat, n: nat)
    requires r < n
    ensures q * n + r >= 0 && (q * n + r) / n == q && (q * n + r) % n == r
  {
    MulAtLeast(q, n);
    var x := q * n + r;
    assert x == (x / n) * n + x % n;
    QuotientUnique(x / n, x % n, q, r, n);
  }

  /** Where the copy of declared interval j in a lap stands in the expansion. */
  function PlaceOf(base: seq<TimedInterval>, j: nat, lap: nat): (k: nat)
    requires j < |base|
    ensures k / |base| == lap && k % |base| == j
  {
    DivMod(lap, j, |base|);
    lap * |base| + j
  }

  /** And no copy is missing: whatever a lap has in force at an instant of the event is in the expansion, in
      force at that instant, unless the cap ended the expansion before. */
  lemma LapIsExpanded(e: Event, t: Instant, j: nat, lap: nat)
    requires RepeatsInSequence(e) && j < |BaseIntervals(e)|
    requires t < EventWindowEnd(e, BaseIntervals(e)).value && RunsInLap(BaseIntervals(e), t, j, lap)
    ensures (var k := PlaceOf(BaseIntervals(e), j, lap);
             && (k < |TimedIntervals(e)| ==> TimedIntervals(e)[k].Covers(t))
             && (k >= |TimedIntervals(e)| ==> |TimedIntervals(e)| >= MAX_LOOPED_INTERVALS))
  {
    hide TimedIntervals, BaseIntervals, Returns, Shift, Index, EventWindowEnd, PlaceOf;
    var base, out := BaseIntervals(e), TimedIntervals(e);
    var end, k := EventWindowEnd(e, base).value, PlaceOf(base, j, lap);
    if k < |out| {
      LoopingIsByLaps(e, t, k);
    } else {
      ShiftIsLaps(base, k);
      ExpansionUnrolls(e);
      UnrolledAscend(base, end, |out|, k);
    }
  }

  lemma LapNotAfter(base: seq<TimedInterval>, t: Instant, j: nat, lap: nat)
    requires InSequence(base) && Repeats(base) && j < |base| && RunsInLap(base, t, j, lap)
    ensures lap * Span(base) <= t - base[0].start && base[0].start <= t && lap <= (t - base[0].start) / Span(base)
  {
    var x, span := t - base[0].start, Span(base);
    assert base[0].start <= base[j].start;
    MulAtLeast(lap, span);
    assert x == (x / span) * span + x % span;
    MulAtLeast(lap - x / span, span);
    assert (lap - x / span) * span == lap * span - (x / span) * span;
  }

  /** Copy k of declared interval j is in force at t. */
  ghost predicate CopyInForce(e: Event, t: Instant, j: nat, k: nat)
    requires BaseIntervals(e) != []
  {
    k < |TimedIntervals(e)| && k % |BaseIntervals(e)| == j && TimedIntervals(e)[k].Covers(t)
  }

  /** As a rule about instants, as far as the cap lets the expansion reach: a declared interval has a copy in
      force at t iff some lap up to t's own, counted from the event's start, has it in force. */
  lemma InForceIff(e: Event, t: Instant, j: nat)
    requires RepeatsInSequence(e) && j < |BaseIntervals(e)| && |TimedIntervals(e)| < MAX_LOOPED_INTERVALS
    requires BaseIntervals(e)[0].start <= t < EventWindowEnd(e, BaseIntervals(e)).value
    ensures (exists k: nat :: CopyInForce(e, t, j, k))
       <==> exists lap: nat :: lap <= (t - BaseIntervals(e)[0].start) / Span(BaseIntervals(e))
                                && RunsInLap(BaseIntervals(e), t, j, lap)
  {
    hide TimedIntervals, BaseIntervals, Returns, EventWindowEnd, PlaceOf, RunsInLap;
    var base := BaseIntervals(e);
    if k: nat :| CopyInForce(e, t, j, k) {
      LoopingIsByLaps(e, t, k);
      LapNotAfter(base, t, j, LapOf(k, |base|));
    }
    if lap: nat :| lap <= (t - base[0].start) / Span(base) && RunsInLap(base, t, j, lap) {
      LapIsExpanded(e, t, j, lap);
      assert CopyInForce(e, t, j, PlaceOf(base, j, lap));
    }
  }

  // ---- modular time ----------------------------------------------------------------------------

  /** The instant of the first repetition that corresponds to t. */
  function Phase(base: seq<TimedInterval>, t: Instant): Instant
    requires base != [] && Span(base) > 0
  {
    base[0].start + (t - base[0].start) % Span(base)
  }

  /** When the last interval ends last, only the lap t falls in can have anything in force at t. */
  lemma OrderedRunsInOneLap(base: seq<TimedInterval>, t: Instant, j: nat, lap: nat)
    requires Ordered(base) && Repeats(base) && j < |base|
    ensures RunsInLap(base, t, j, lap) <==>
            base[0].start <= t && lap == (t - base[0].start) / Span(base) && base[j].Covers(Phase(base, t))
  {
    var x, span := t - base[0].start, Span(base);
    assert base[j].end <= base[|base| - 1].end && base[0].start <= base[j].start;
    assert x == (x / span) * span + x % span;
    if RunsInLap(base, t, j, lap) {
      LapNotAfter(base, t, j, lap);
      QuotientUnique(lap, x - lap * span, x / span, x % span, span);
    }
  }

  /** Looping is modular time. At any instant from the event's start on, an interval of the expansion
      is in force iff it belongs to the repetition the instant falls in and the declared interval it
      copies is in force at the instant's phase. */
  lemma LoopingIsModularTime(e: Event, t: Instant, k: nat)
    requires Loops(e) && k < |TimedIntervals(e)|
    ensures var base := BaseIntervals(e);
            var out := TimedIntervals(e);
      && out[k].interval == base[k % |base|].interval
      && (t < base[0].start ==> !out[k].Covers(t))
      && (base[0].start <= t ==>
            (out[k].Covers(t) <==>
              && t < EventWindowEnd(e, base).value
              && k / |base| == (t - base[0].start) / Span(base)
              && base[k % |base|].Covers(Phase(base, t))))
  {
    hide TimedIntervals, BaseIntervals, RunsInLap, Returns, EventWindowEnd, Phase, InSequence;
    var base := BaseIntervals(e);
    LoopingIsByLaps(e, t, k);
    OrderedRunsInOneLap(base, t, k % |base|, LapOf(k, |base|));
  }

  /** Order matters: repeating stops at the first interval that starts past the event's end. Here the
      third interval, listed after a later one, is in force at the phase of an instant of the event, and
      no copy of it runs at that instant. */
  lemma OutOfOrderLosesCopies()
    ensures exists e: Event, t: Instant ::
      var base := BaseIntervals(e);
      var out := TimedIntervals(e);
      && |base| == 3 && Repeats(base) && base[0].start <= t && EventWindowEnd(e, base).Some?
      && t < EventWindowEnd(e, base).value && |out| < MAX_LOOPED_INTERVALS && Returns(e)
      && base[2].Covers(Phase(base, t))
      && forall k :: 0 <= k < |out| && out[k].Covers(t) ==> out[k].interval != base[2].interval
  {
    var a := Interval(Some(Period(0, Some(10), None)), []);
    var b := Interval(Some(Period(30, Some(10), None)), []);
    var c := Interval(Some(Period(10, Some(10), None)), []);
    var e := Event("e", "p", None, 0, None, None, None, Some(45), Some([a, b, c]));
    BaseFollowsCursorRule([a, b, c], None, None, 0);
    BaseFollowsCursorRule([a, b, c], None, None, 1);
    BaseFollowsCursorRule([a, b, c], None, None, 2);
    var base := BaseIntervals(e);
    assert base == [TimedInterval(a, 0, 10), TimedInterval(b, 30, 40), TimedInterval(c, 10, 20)];
    assert base[1..] == [TimedInterval(b, 30, 40), TimedInterval(c, 10, 20)];
    assert base[1..][1..] == [TimedInterval(c, 10, 20)];
    assert Trim(base[1..][1..], 45) == base[1..][1..] && Trim(base[1..], 45) == base[1..];
    assert Trim(base, 45) == base;
    assert Pass(base, 20, 45, 1997) == [TimedInterval(a, 20, 30)];
    assert Pass(base, 40, 45, 1996) == [TimedInterval(a, 40, 45)];
    assert Passes(base, 20, 60, 45, 5) == [];
    assert Passes(base, 20, 40, 45, 4) == [TimedInterval(a, 40, 45)];
    assert Passes(base, 20, 20, 45, 3) == [TimedInterval(a, 20, 30), TimedInterval(a, 40, 45)];
    assert Phase(base, 35) == 15;
    assert base[1..][1..][1..] == [];
    assert PassInRange(base, 20, 45, 1997) && PassInRange(base, 40, 45, 1996);
    assert PassesInRange(base, 20, 60, 45, 5) && PassesInRange(base, 20, 40, 45, 4);
    assert PassesInRange(base, 20, 20, 45, 3);
  }

  // ---- tiling ----------------------------------------------------------------------------------

  /** Neighbouring unrolled intervals touch, also across the seam between two repetitions. */
  lemma {:induction false} UnrolledTouch(base: seq<TimedInterval>, end: Instant, k: nat)
    requires Contiguous(base) && Repeats(base)
    ensures Unrolled(base, end, k + 1).start == base[Index(base, k)].end + Shift(base, k)
    decreases k
  {
    assert FollowsOn(base, Index(base, k)) && FollowsOn(base, Index(base, k + 1));
    if k >= |base| {
      UnrolledTouch(base, end, k - |base|);
      assert Index(base, k + 1) == Index(base, k - |base| + 1);
    } else if k + 1 == |base| {
      assert Rest(k + 1, |base|) == Rest(0, |base|) == 0;
      assert Shift(base, k + 1) == Shift(base, 0) + Span(base);
    }
  }

  /** The event declares a duration and a contiguous sequence that repeats. */
  ghost predicate LoopsContiguously(e: Event) {
    Loops(e) && Contiguous(BaseIntervals(e))
  }

  /** The expansion tiles [start, end): it begins at the event's start, neighbours touch, and unless
      the cap stopped it, it ends exactly at the event's end. */
  lemma ExpansionTiles(e: Event)
    requires LoopsContiguously(e)
    ensures var base := BaseIntervals(e);
            var end := EventWindowEnd(e, base).value;
            var out := TimedIntervals(e);
      && (out == [] <==> end <= base[0].start)
      && (out != [] ==> out[0].start == base[0].start)
      && (forall i, k :: 0 <= i < k < |out| && k == i + 1 ==> out[i].end == out[k].start)
      && (forall k :: 0 <= k < |out| ==> out[k].start <= out[k].end <= end)
      && (out != [] && |out| < MAX_LOOPED_INTERVALS ==> out[|out| - 1].end == end)
  {
    hide TimedIntervals, BaseIntervals;
    var base := BaseIntervals(e);
    var end, out := EventWindowEnd(e, base).value, TimedIntervals(e);
    ExpansionUnrolls(e);
    assert Unrolled(base, end, 0).start == base[0].start;
    forall k | 0 <= k < |out|
      ensures out[k].start <= out[k].end <= end
    {
      assert out[k] == Unrolled(base, end, 0 + k);
      assert FollowsOn(base, Index(base, k));
    }
    forall i, k | 0 <= i < k < |out| && k == i + 1
      ensures out[i].end == out[k].start
    {
      assert out[i] == Unrolled(base, end, 0 + i) && out[k] == Unrolled(base, end, 0 + k);
      UnrolledTouch(base, end, i);
    }
    if out != [] {
      var last := |out| - 1;
      assert out[0] == Unrolled(base, end, 0 + 0);
      assert out[last] == Unrolled(base, end, 0 + last);
      UnrolledTouch(base, end, last);
      assert |out| < MAX_LOOPED_INTERVALS ==> Unrolled(base, end, |out|).start >= end;
    } else {
      assert Unrolled(base, end, 0).start >= end;
    }
  }

  lemma {:induction false} CoveringDeclared(base: seq<TimedInterval>, t: Instant) returns (j: nat)
    requires Contiguous(base) && base != [] && base[0].start <= t < base[|base| - 1].end
    ensures j < |base| && base[j].Covers(t)
  {
    if t < base[0].end {
      j := 0;
    } else {
      var tail := base[1..];
      TailContiguous(base);
      assert FollowsOn(base, 0) && (|base| > 1 ==> FollowsOn(base, 1));
      j := CoveringDeclared(tail, t);
      j := j + 1;
    }
  }

  /** The position in the unrolled sequence of the interval in force at t. */
  lemma {:induction false} CoveringUnrolled(base: seq<TimedInterval>, t: Instant) returns (k: nat)
    requires Contiguous(base) && Repeats(base) && base[0].start <= t
    ensures base[Index(base, k)].Covers(t - Shift(base, k))
    decreases t - base[0].start
  {
    if t < base[|base| - 1].end {
      k := CoveringDeclared(base, t);
    } else {
      k := CoveringUnrolled(base, t - Span(base));
      k := k + |base|;
    }
  }

  /** Of two copies in a contiguous repetition, the later one starts once the earlier one is over. */
  lemma LaterCopyWaits(base: seq<TimedInterval>, t: Instant, i: nat, k: nat)
    requires Contiguous(base) && Repeats(base) && i < k
    ensures !(base[Index(base, i)].Covers(t - Shift(base, i)) && base[Index(base, k)].Covers(t - Shift(base, k)))
  {
    ContiguousIsOrdered(base);
    UnrolledTouch(base, OPEN_END, i);
    UnrolledAscend(base, OPEN_END, i + 1, k);
  }

  lemma UnrolledRunsOnce(base: seq<TimedInterval>, t: Instant, i: nat, k: nat)
    requires Contiguous(base) && Repeats(base) && base[Index(base, k)].Covers(t - Shift(base, k))
    ensures base[Index(base, i)].Covers(t - Shift(base, i)) <==> i == k
  {
    hide Contiguous, Index, Shift;
    if i < k {
      LaterCopyWaits(base, t, i, k);
    } else if k < i {
      LaterCopyWaits(base, t, k, i);
    }
  }

  /** A list that unrolls the sequence until the cap or the end reaches every instant before both. */
  lemma WithinReach(base: seq<TimedInterval>, end: Instant, out: seq<TimedInterval>, t: Instant, k: nat)
    requires Contiguous(base) && Repeats(base) && IsUnrolling(base, end, 0, out) && Complete(base, end, |out|)
    requires base[Index(base, k)].Covers(t - Shift(base, k)) && t < end
    requires |out| < MAX_LOOPED_INTERVALS || t < out[|out| - 1].end
    ensures k < |out|
  {
    if k >= |out| {
      ContiguousIsOrdered(base);
      UnrolledAscend(base, end, |out|, k);
      if |out| >= MAX_LOOPED_INTERVALS {
        UnrolledTouch(base, end, |out| - 1);
      }
    }
  }

  /** Every instant of the event is covered, by exactly one interval, as far as the cap lets the
      expansion reach. */
  lemma ExpansionCoversOnce(e: Event, t: Instant) returns (k: nat)
    requires LoopsContiguously(e)
    requires BaseIntervals(e)[0].start <= t < EventWindowEnd(e, BaseIntervals(e)).value
    requires (var out := TimedIntervals(e);
              |out| < MAX_LOOPED_INTERVALS || t < out[|out| - 1].end)
    ensures var out := TimedIntervals(e);
            k < |out| && forall i :: 0 <= i < |out| ==> (out[i].Covers(t) <==> i == k)
  {
    hide TimedIntervals, BaseIntervals, EventWindowEnd, Returns, Index, Shift, Complete, Contiguous, InSequence;
    var base := BaseIntervals(e);
    var out, end := TimedIntervals(e), EventWindowEnd(e, base).value;
    k := CoveringUnrolled(base, t);
    ExpansionUnrolls(e);
    WithinReach(base, end, out, t, k);
    forall i | 0 <= i < |out|
      ensures out[i].Covers(t) <==> i == k
    {
      assert out[i] == Unrolled(base, end, 0 + i);
      UnrolledRunsOnce(base, t, i, k);
    }
  }
}
