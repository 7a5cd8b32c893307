/** The per-VEN random start: each period that declares a `randomizeStart` window starts later by a
    fixed fraction of that window. The fraction is the hash of the VEN's name and the event's id,
    a number in [0, 1). */
module RandomStart {
  import opened Options
  import opened Numbers
  import opened EventModel
  import opened EventTiming
  import opened LoopedTime

  type Fraction = f: real | 0.0 <= f < 1.0 witness 0.0

  function Offset(window: int, f: Fraction): (r: int)
    ensures 0 <= r
    ensures window > 0 ==> r < window && r as real <= window as real * f < r as real + 1.0
    ensures window <= 0 ==> r == 0
  {
    if window <= 0 then 0 else
      OffsetBelowWindow(window, f);
      (window as real * f).Floor
  }

  lemma OffsetBelowWindow(window: int, f: Fraction)
    requires window > 0
    ensures 0.0 <= window as real * f < window as real
  {
    var w := window as real;
    assert w * f >= 0.0;
    assert w * (1.0 - f) > 0.0;
    assert w * (1.0 - f) == w - w * f;
  }

  function PeriodOffset(p: Period, f: Fraction): nat {
    if p.randomizeStart.Some? then Offset(p.randomizeStart.value, f) else 0
  }

  function ShiftPeriod(p: Option<Period>, f: Fraction): Option<Period> {
    if p.None? then None else Some(p.value.(start := p.value.start + PeriodOffset(p.value, f)))
  }

  function ShiftIntervals(intervals: seq<Interval>, f: Fraction): (r: seq<Interval>)
    ensures |r| == |intervals|
    ensures forall i :: 0 <= i < |r| ==> r[i] == intervals[i].(period := ShiftPeriod(intervals[i].period, f))
  {
    seq(|intervals|, i requires 0 <= i < |intervals| => intervals[i].(period := ShiftPeriod(intervals[i].period, f)))
  }

  /** The event as this VEN acts on it. */
  function WithRandomizedStart(e: Event, f: Fraction): Event {
    e.(period := ShiftPeriod(e.period, f),
       intervals := if e.intervals.Some? then Some(ShiftIntervals(e.intervals.value, f)) else None)
  }

  /** A window moves its own period's start by the whole part of its fraction, and nothing else of the event. */
  lemma OnlyStartsMove(e: Event, f: Fraction, i: nat)
    requires i < |Intervals(e)|
    ensures (var out := WithRandomizedStart(e, f);
      && out == e.(period := out.period, intervals := out.intervals)
      && |Intervals(out)| == |Intervals(e)| && Intervals(out)[i].payloads == Intervals(e)[i].payloads
      && StartMoves(e.period, out.period, f) && StartMoves(Intervals(e)[i].period, Intervals(out)[i].period, f))
  {
  }

  ghost predicate StartMoves(p: Option<Period>, out: Option<Period>, f: Fraction) {
    if p.None? then out.None? else
      && out.Some? && out.value.duration == p.value.duration && out.value.randomizeStart == p.value.randomizeStart
      && var moved := out.value.start - p.value.start;
         if p.value.randomizeStart.Some? && p.value.randomizeStart.value > 0
         then moved as real <= p.value.randomizeStart.value as real * f < moved as real + 1.0
         else moved == 0
  }

  /** The copy is shifted period by period; the declared event is a value and stays as it was. */
  method RandomizeStart(e: Event, f: Fraction) returns (out: Event)
    ensures out == WithRandomizedStart(e, f)
  {
    out := e.(period := ShiftPeriod(e.period, f));
    if out.intervals.Some? {
      var intervals := out.intervals.value;
      for i := 0 to |intervals|
        invariant |intervals| == |e.intervals.value|
        invariant intervals[..i] == ShiftIntervals(e.intervals.value, f)[..i]
        invariant intervals[i..] == e.intervals.value[i..]
      {
        var shifted := intervals[i].(period := ShiftPeriod(intervals[i].period, f));
        assert intervals[i] == intervals[i..][0] == e.intervals.value[i..][0] == e.intervals.value[i];
        assert intervals[i + 1..] == intervals[i..][1..] == e.intervals.value[i + 1..];
        var next := intervals[i := shifted];
        assert next[i + 1..] == intervals[i + 1..];
        assert next[..i + 1] == intervals[..i] + [shifted];
        assert ShiftIntervals(e.intervals.value, f)[..i + 1]
            == ShiftIntervals(e.intervals.value, f)[..i] + [ShiftIntervals(e.intervals.value, f)[i]];
        intervals := next;
      }
      assert intervals[..|intervals|] == intervals;
      assert ShiftIntervals(e.intervals.value, f)[..|intervals|] == ShiftIntervals(e.intervals.value, f);
      out := out.(intervals := Some(intervals));
    }
  }

  // ---- moving a list of timed intervals --------------------------------------------------------

  /** The same payloads, every endpoint c later. */
  ghost predicate Moved(a: TimedInterval, b: TimedInterval, c: int) {
    b.start == a.start + c && b.end == a.end + c && b.interval.payloads == a.interval.payloads
  }

  ghost predicate AllMoved(a: seq<TimedInterval>, b: seq<TimedInterval>, c: int) {
    |a| == |b| && forall i :: 0 <= i < |a| ==> Moved(a[i], b[i], c)
  }

  /** The declared intervals are bounded, and c later they still fit the range of dates. */
  ghost predicate HasRoom(base: seq<TimedInterval>, c: nat) {
    forall i :: 0 <= i < |base| ==> Fits(base[i], c)
  }

  ghost predicate Fits(it: TimedInterval, c: nat) {
    it.Bounded() && OPEN_START < it.start && OPEN_START <= it.end && it.end + c < OPEN_END && it.start + c < OPEN_END
  }

  /** What interval i's start hangs on, if it does not follow the interval before it. */
  function Anchor(e: Event, i: nat): Option<Period>
    requires i < |Intervals(e)|
  {
    if Intervals(e)[i].period.Some? then Intervals(e)[i].period
    else if i == 0 then e.period
    else None
  }

  ghost predicate AnchorsMoveBy(e: Event, f: Fraction, c: nat) {
    forall i :: 0 <= i < |Intervals(e)| && Anchor(e, i).Some? ==> PeriodOffset(Anchor(e, i).value, f) == c
  }

  // ---- the declared sequence moves as one iff its anchors do -----------------------------------

  lemma PlaceMoved(i: Interval, default: Option<int>, cursor: Option<Instant>, cursor': Option<Instant>, f: Fraction,
        c: nat)
    requires cursor.None? <==> cursor'.None?
    requires i.period.None? && cursor.Some? ==> cursor'.value == cursor.value + c
    requires Fits(Place(i, default, cursor), c)
    ensures var p := Place(i, default, cursor);
            var p' := Place(i.(period := ShiftPeriod(i.period, f)), default, cursor');
            Moved(p, p', c) <==> (i.period.Some? ==> PeriodOffset(i.period.value, f) == c)
  {
  }

  lemma {:induction false} MovedWithAnchors(e: Event, f: Fraction, c: nat, i: nat)
    requires HasRoom(BaseIntervals(e), c) && AnchorsMoveBy(e, f, c) && i < |Intervals(e)|
    ensures Moved(BaseIntervals(e)[i], BaseIntervals(WithRandomizedStart(e, f))[i], c)
  {
    hide BaseIntervals, PeriodOffset, DefaultDuration;
    var e' := WithRandomizedStart(e, f);
    if i > 0 {
      MovedWithAnchors(e, f, c, i - 1);
    }
    PlacedByRule(e, i);
    PlacedByRule(e', i);
    var interval := Intervals(e)[i];
    assert Intervals(e')[i] == interval.(period := ShiftPeriod(interval.period, f));
    assert Anchor(e, i).Some? ==> PeriodOffset(Anchor(e, i).value, f) == c;
    assert Fits(BaseIntervals(e)[i], c);
    SameDefault(e, f);
    PlaceMoved(interval, DefaultDuration(e), CursorAt(e, i), CursorAt(e', i), f, c);
  }

  lemma SameDefault(e: Event, f: Fraction)
    ensures DefaultDuration(WithRandomizedStart(e, f)) == DefaultDuration(e)
  {
  }

  lemma BaseMovesWithAnchors(e: Event, f: Fraction, c: nat)
    requires HasRoom(BaseIntervals(e), c) && AnchorsMoveBy(e, f, c)
    ensures AllMoved(BaseIntervals(e), BaseIntervals(WithRandomizedStart(e, f)), c)
  {
    hide HasRoom, AnchorsMoveBy, Moved;
    forall i | 0 <= i < |BaseIntervals(e)|
      ensures Moved(BaseIntervals(e)[i], BaseIntervals(WithRandomizedStart(e, f))[i], c)
    {
      MovedWithAnchors(e, f, c, i);
    }
  }

  function CursorAt(e: Event, i: nat): Option<Instant>
    requires i <= |Intervals(e)|
  {
    if i == 0 then EventStart(e) else Some(BaseIntervals(e)[i - 1].end)
  }

  lemma PlacedByRule(e: Event, i: nat)
    requires i < |Intervals(e)|
    ensures BaseIntervals(e)[i] == Place(Intervals(e)[i], DefaultDuration(e), CursorAt(e, i))
  {
    BaseFollowsCursorRule(Intervals(e), DefaultDuration(e), EventStart(e), i);
  }

  /** The declared sequence moves as one block, by c, exactly when every period that anchors an
      interval is offset by c. */
  lemma BaseMovesIffAnchorsAgree(e: Event, f: Fraction, c: nat)
    requires HasRoom(BaseIntervals(e), c)
    ensures AllMoved(BaseIntervals(e), BaseIntervals(WithRandomizedStart(e, f)), c) <==> AnchorsMoveBy(e, f, c)
  {
    var e' := WithRandomizedStart(e, f);
    if AnchorsMoveBy(e, f, c) {
      BaseMovesWithAnchors(e, f, c);
    }
    if AllMoved(BaseIntervals(e), BaseIntervals(e'), c) {
      forall i | 0 <= i < |Intervals(e)| && Anchor(e, i).Some?
        ensures PeriodOffset(Anchor(e, i).value, f) == c
      {
        PlacedByRule(e, i);
        PlacedByRule(e', i);
        assert Moved(BaseIntervals(e)[i], BaseIntervals(e')[i], c);
        assert Intervals(e')[i] == Intervals(e)[i].(period := ShiftPeriod(Intervals(e)[i].period, f));
      }
    }
  }

  // ---- when the declared sequence stays contiguous ---------------------------------------------

  /** Room for every anchor's offset. */
  ghost predicate HasRoomForAnchors(e: Event, f: Fraction) {
    HasRoom(BaseIntervals(e), 0)
    && forall i :: 0 <= i < |Intervals(e)| && Anchor(e, i).Some? ==>
         HasRoom(BaseIntervals(e), PeriodOffset(Anchor(e, i).value, f))
  }

  /** A bounded sequence has a first anchor. */
  lemma FirstIsAnchored(e: Event)
    requires Contiguous(BaseIntervals(e)) && BaseIntervals(e) != []
    ensures Anchor(e, 0).Some?
  {
    PlacedByRule(e, 0);
    assert FollowsOn(BaseIntervals(e), 0);
  }

  lemma MovedIsContiguous(base: seq<TimedInterval>, base': seq<TimedInterval>, c: nat)
    requires Contiguous(base) && HasRoom(base, c) && AllMoved(base, base', c)
    ensures Contiguous(base')
  {
    forall i | 0 <= i < |base'|
      ensures FollowsOn(base', i)
    {
      assert FollowsOn(base, i) && Fits(base[i], c) && Moved(base[i], base'[i], c);
      assert i > 0 ==> Moved(base[i - 1], base'[i - 1], c);
    }
  }

  /** In a sequence that stays contiguous every interval, and so every anchor, moves like the first. */
  lemma {:induction false} ContiguousMovesAsOne(e: Event, f: Fraction, c: nat, i: nat)
    requires Contiguous(BaseIntervals(e)) && Contiguous(BaseIntervals(WithRandomizedStart(e, f)))
    requires HasRoom(BaseIntervals(e), c) && i < |Intervals(e)|
    requires Anchor(e, 0).Some? && c == PeriodOffset(Anchor(e, 0).value, f)
    ensures Moved(BaseIntervals(e)[i], BaseIntervals(WithRandomizedStart(e, f))[i], c)
    ensures Anchor(e, i).Some? ==> PeriodOffset(Anchor(e, i).value, f) == c
  {
    hide Contiguous, BaseIntervals, PeriodOffset;
    var e' := WithRandomizedStart(e, f);
    var base, base' := BaseIntervals(e), BaseIntervals(e');
    if i > 0 {
      ContiguousMovesAsOne(e, f, c, i - 1);
      Touching(base, i);
      Touching(base', i);
    }
    PlacedByRule(e, i);
    PlacedByRule(e', i);
    var interval := Intervals(e)[i];
    assert Intervals(e')[i] == interval.(period := ShiftPeriod(interval.period, f));
    assert Fits(base[i], c);
    PlaceMoved(interval, DefaultDuration(e), CursorAt(e, i), CursorAt(e', i), f, c);
  }

  lemma Touching(base: seq<TimedInterval>, i: nat)
    requires Contiguous(base) && 0 < i < |base|
    ensures base[i - 1].end == base[i].start
  {
    assert FollowsOn(base, i);
  }

  /** A contiguous sequence stays contiguous under the random start exactly when every period that
      anchors an interval is offset as much as the first. */
  lemma StaysContiguousIff(e: Event, f: Fraction)
    requires Contiguous(BaseIntervals(e)) && BaseIntervals(e) != [] && HasRoomForAnchors(e, f)
    ensures Anchor(e, 0).Some?
    ensures Contiguous(BaseIntervals(WithRandomizedStart(e, f)))
       <==> AnchorsMoveBy(e, f, PeriodOffset(Anchor(e, 0).value, f))
  {
    hide Contiguous, BaseIntervals, PeriodOffset, HasRoom;
    FirstIsAnchored(e);
    var c := PeriodOffset(Anchor(e, 0).value, f);
    if AnchorsMoveBy(e, f, c) {
      BaseMovesWithAnchors(e, f, c);
      MovedIsContiguous(BaseIntervals(e), BaseIntervals(WithRandomizedStart(e, f)), c);
    }
    if Contiguous(BaseIntervals(WithRandomizedStart(e, f))) {
      forall i | 0 <= i < |Intervals(e)| && Anchor(e, i).Some?
        ensures PeriodOffset(Anchor(e, i).value, f) == c
      {
        ContiguousMovesAsOne(e, f, c, i);
      }
    }
  }

  // ---- the same, on what the event declares ----------------------------------------------------

  /** The declared window as it counts: below two milliseconds no offset fits in it but 0. */
  function EffectiveWindow(p: Period): nat {
    if p.randomizeStart.Some? then MaxI(p.randomizeStart.value, 1) else 1
  }

  lemma OffsetBelowEffective(p: Period, f: Fraction)
    ensures PeriodOffset(p, f) < EffectiveWindow(p)
  {
  }

  /** The offset of a period depends on its effective window only. */
  lemma OffsetOfEffective(p: Period, f: Fraction)
    ensures PeriodOffset(p, f) == Offset(EffectiveWindow(p), f)
  {
    assert Offset(1, f) == 0;
  }

  /** A fraction close to 1 reaches the last offset of a window, and no smaller window has it. */
  lemma LastOffset(w: nat) returns (f: Fraction)
    requires w > 1
    ensures Offset(w, f) == w - 1
  {
    var last, all := (w - 1) as real, w as real;
    var g := last / all;
    assert g * all == last;
    PositiveProduct(-g, all);
    PositiveProduct(g - 1.0, all);
    assert (g - 1.0) * all == last - all;
    f := g;
    assert all * f == last;
  }

  /** Two periods have the same offset at every VEN exactly when their effective windows agree. */
  lemma OffsetsAgreeIff(p: Period, q: Period)
    ensures (forall f: Fraction :: PeriodOffset(p, f) == PeriodOffset(q, f))
            <==> EffectiveWindow(p) == EffectiveWindow(q)
  {
    if EffectiveWindow(p) == EffectiveWindow(q) {
      forall f: Fraction
        ensures PeriodOffset(p, f) == PeriodOffset(q, f)
      {
        OffsetOfEffective(p, f);
        OffsetOfEffective(q, f);
      }
    } else if EffectiveWindow(p) < EffectiveWindow(q) {
      OffsetsDiffer(p, q);
    } else {
      OffsetsDiffer(q, p);
    }
  }

  lemma OffsetsDiffer(p: Period, q: Period)
    requires EffectiveWindow(p) < EffectiveWindow(q)
    ensures exists f: Fraction :: PeriodOffset(p, f) != PeriodOffset(q, f)
  {
    hide PeriodOffset, Offset;
    var f := LastOffset(EffectiveWindow(q));
    OffsetOfEffective(q, f);
    OffsetBelowEffective(p, f);
    assert PeriodOffset(p, f) != PeriodOffset(q, f);
  }

  /** Every period that anchors an interval declares the same window, up to windows too short for an
      offset. */
  ghost predicate AnchorsDeclareOneWindow(e: Event)
    requires Intervals(e) != [] && Anchor(e, 0).Some?
  {
    forall i :: 0 <= i < |Intervals(e)| && Anchor(e, i).Some? ==>
      EffectiveWindow(Anchor(e, i).value) == EffectiveWindow(Anchor(e, 0).value)
  }

  /** What an event's author can check: a contiguous sequence stays contiguous at every VEN exactly when
      the periods that anchor its intervals declare one window. */
  lemma ContiguousEverywhereIff(e: Event)
    requires Contiguous(BaseIntervals(e)) && BaseIntervals(e) != []
    requires forall f: Fraction :: HasRoomForAnchors(e, f)
    ensures Anchor(e, 0).Some?
    ensures (forall f: Fraction :: Contiguous(BaseIntervals(WithRandomizedStart(e, f)))) <==> AnchorsDeclareOneWindow(e)
  {
    hide Contiguous, BaseIntervals, PeriodOffset, HasRoomForAnchors, EffectiveWindow, Anchor;
    FirstIsAnchored(e);
    var first := Anchor(e, 0).value;
    forall f: Fraction
      ensures Contiguous(BaseIntervals(WithRandomizedStart(e, f))) <==> AnchorsMoveBy(e, f, PeriodOffset(first, f))
    {
      assert HasRoomForAnchors(e, f);
      StaysContiguousIff(e, f);
    }
    forall i | 0 <= i < |Intervals(e)| && Anchor(e, i).Some?
      ensures (forall f: Fraction :: PeriodOffset(Anchor(e, i).value, f) == PeriodOffset(first, f))
         <==> EffectiveWindow(Anchor(e, i).value) == EffectiveWindow(first)
    {
      OffsetsAgreeIff(Anchor(e, i).value, first);
    }
    if AnchorsDeclareOneWindow(e) {
      forall f: Fraction
        ensures AnchorsMoveBy(e, f, PeriodOffset(first, f))
      {
      }
    }
    if forall f: Fraction :: Contiguous(BaseIntervals(WithRandomizedStart(e, f))) {
      forall i | 0 <= i < |Intervals(e)| && Anchor(e, i).Some?
        ensures EffectiveWindow(Anchor(e, i).value) == EffectiveWindow(first)
      {
        forall f: Fraction
          ensures PeriodOffset(Anchor(e, i).value, f) == PeriodOffset(first, f)
        {
          assert Contiguous(BaseIntervals(WithRandomizedStart(e, f)));
          assert AnchorsMoveBy(e, f, PeriodOffset(first, f));
        }
      }
    }
  }

  // ---- and so does its expansion ---------------------------------------------------------------

  lemma ConcatMoved(a: seq<TimedInterval>, a': seq<TimedInterval>, b: seq<TimedInterval>, b': seq<TimedInterval>,
        c: int)
    requires AllMoved(a, a', c) && AllMoved(b, b', c)
    ensures AllMoved(a + b, a' + b', c)
  {
  }

  lemma HeadAndTailMoved(base: seq<TimedInterval>, base': seq<TimedInterval>, c: int, shift: int, end: Instant)
    requires AllMoved(base, base', c) && base != []
    ensures base'[0].start == base[0].start + c && AllMoved(base[1..], base'[1..], c)
    ensures AllMoved([Clip(base[0], shift, end)], [Clip(base'[0], shift, end + c)], c)
  {
    assert Moved(base[0], base'[0], c);
    forall i | 0 <= i < |base[1..]|
      ensures Moved(base[1..][i], base'[1..][i], c)
    {
      assert Moved(base[i + 1], base'[i + 1], c);
    }
  }

  lemma {:induction false} TrimMoved(base: seq<TimedInterval>, base': seq<TimedInterval>, end: Instant, c: int)
    requires AllMoved(base, base', c)
    ensures AllMoved(Trim(base, end), Trim(base', end + c), c)
  {
    hide Moved;
    if base != [] {
      HeadAndTailMoved(base, base', c, 0, end);
      TrimMoved(base[1..], base'[1..], end, c);
      ConcatMoved([Clip(base[0], 0, end)], [Clip(base'[0], 0, end + c)],
                  Trim(base[1..], end), Trim(base'[1..], end + c), c);
    }
  }

  lemma {:induction false} PassMoved(base: seq<TimedInterval>, base': seq<TimedInterval>, shift: int, end: Instant,
        room: nat, c: int)
    requires AllMoved(base, base', c)
    ensures AllMoved(Pass(base, shift, end, room), Pass(base', shift, end + c, room), c)
  {
    hide Moved;
    if base != [] {
      HeadAndTailMoved(base, base', c, shift, end);
      if room > 0 && base[0].start + shift < end {
        PassMoved(base[1..], base'[1..], shift, end, room - 1, c);
        ConcatMoved([Clip(base[0], shift, end)], [Clip(base'[0], shift, end + c)],
                    Pass(base[1..], shift, end, room - 1), Pass(base'[1..], shift, end + c, room - 1), c);
      }
    }
  }

  lemma {:induction false} PassesMoved(base: seq<TimedInterval>, base': seq<TimedInterval>, span: int, shift: int,
        end: Instant, len: nat, c: int)
    requires base != [] && AllMoved(base, base', c)
    ensures AllMoved(Passes(base, span, shift, end, len), Passes(base', span, shift, end + c, len), c)
    decreases MAX_LOOPED_INTERVALS - len
  {
    assert Moved(base[0], base'[0], c);
    if len < MAX_LOOPED_INTERVALS && base[0].start + shift < end {
      var room := MAX_LOOPED_INTERVALS - len;
      var pass, pass' := Pass(base, shift, end, room), Pass(base', shift, end + c, room);
      PassMoved(base, base', shift, end, room, c);
      PassesMoved(base, base', span, shift + span, end, len + |pass|, c);
      ConcatMoved(pass, pass', Passes(base, span, shift + span, end, len + |pass|),
                  Passes(base', span, shift + span, end + c, len + |pass'|), c);
    }
  }

  lemma RepeatsMoved(base: seq<TimedInterval>, base': seq<TimedInterval>, c: nat)
    requires HasRoom(base, c) && AllMoved(base, base', c) && base != []
    ensures Repeats(base) <==> Repeats(base')
    ensures Span(base) == Span(base')
  {
    assert Moved(base[0], base'[0], c) && Moved(base[|base| - 1], base'[|base| - 1], c);
    assert Fits(base[0], c) && Fits(base[|base| - 1], c);
  }

  lemma FillWindowMoved(base: seq<TimedInterval>, base': seq<TimedInterval>, end: Instant, c: nat)
    requires HasRoom(base, c) && AllMoved(base, base', c) && base != []
    ensures AllMoved(FillWindow(base, end), FillWindow(base', end + c), c)
  {
    TrimMoved(base, base', end, c);
    RepeatsMoved(base, base', c);
    var len := |Trim(base, end)|;
    if Repeats(base) {
      var span := Span(base);
      var repeated, repeated' := Passes(base, span, span, end, len), Passes(base', span, span, end + c, len);
      PassesMoved(base, base', Span(base), Span(base), end, len, c);
      ConcatMoved(Trim(base, end), Trim(base', end + c), repeated, repeated', c);
    }
  }

  /** The event's end, where it has one, is also still a date c later. */
  ghost predicate EndHasRoom(e: Event, c: nat) {
    var base := BaseIntervals(e);
    e.duration.Some? && base != [] ==> OPEN_START <= base[0].start + e.duration.value <= OPEN_END - c
  }

  /** Random start commutes with expansion: when the anchoring periods share one offset, expanding the
      randomized event is expanding the declared one and moving every endpoint by that offset. The
      number of intervals, their widths and the looping are the same. */
  lemma RandomStartCommutesWithExpansion(e: Event, f: Fraction, c: nat)
    requires HasRoom(BaseIntervals(e), c) && EndHasRoom(e, c) && AnchorsMoveBy(e, f, c)
    ensures AllMoved(TimedIntervals(e), TimedIntervals(WithRandomizedStart(e, f)), c)
  {
    var e' := WithRandomizedStart(e, f);
    var base, base' := BaseIntervals(e), BaseIntervals(e');
    BaseMovesWithAnchors(e, f, c);
    if base != [] {
      assert Moved(base[0], base'[0], c) && Fits(base[0], c);
      if e.duration.Some? {
        FillWindowMoved(base, base', EventWindowEnd(e, base).value, c);
      }
    }
  }

  /** The documented case: every period the event declares carries the same window. The common offset
      is then inside that window. */
  lemma SameWindowMovesTheWholeEvent(e: Event, f: Fraction, window: int)
    requires window > 0
    requires e.period.Some? ==> e.period.value.randomizeStart == Some(window)
    requires forall i :: 0 <= i < |Intervals(e)| && Intervals(e)[i].period.Some? ==>
               Intervals(e)[i].period.value.randomizeStart == Some(window)
    requires HasRoom(BaseIntervals(e), Offset(window, f)) && EndHasRoom(e, Offset(window, f))
    ensures 0 <= Offset(window, f) < window
    ensures AllMoved(TimedIntervals(e), TimedIntervals(WithRandomizedStart(e, f)), Offset(window, f))
  {
    forall i | 0 <= i < |Intervals(e)| && Anchor(e, i).Some?
      ensures PeriodOffset(Anchor(e, i).value, f) == Offset(window, f)
    {
    }
    RandomStartCommutesWithExpansion(e, f, Offset(window, f));
  }

  /** The source's comment promises one offset for every period of an event. That fails when the
      periods declare different windows: here a contiguous pair of intervals comes out overlapping. */
  lemma DifferentWindowsBreakTheSequence()
    ensures exists e: Event, f: Fraction ::
      var base := BaseIntervals(e);
      var base' := BaseIntervals(WithRandomizedStart(e, f));
      |base| == 2 && base[0].end == base[1].start && base'[0].end > base'[1].start
  {
    var first := Period(0, Some(1000), Some(600));
    var second := Period(1000, Some(1000), Some(200));
    var e := Event("e", "p", None, 0, None, None, None, None,
                   Some([Interval(Some(first), []), Interval(Some(second), [])]));
    var f: Fraction := 0.5;
    assert 600 as real * f == 300.0 && 200 as real * f == 100.0;
    assert Offset(600, f) == 300 && Offset(200, f) == 100;
    var e' := WithRandomizedStart(e, f);
    PlacedByRule(e, 0);
    PlacedByRule(e, 1);
    PlacedByRule(e', 0);
    PlacedByRule(e', 1);
    assert BaseIntervals(e)[0].end == 1000 == BaseIntervals(e)[1].start;
    assert BaseIntervals(e')[0].end == 1300 && BaseIntervals(e')[1].start == 1100;
  }
}
