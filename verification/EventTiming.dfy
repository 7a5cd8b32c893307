/** When each interval of an event runs: the cursor rule, then `event.duration` as one window that
    trims or repeats the declared sequence. */
module EventTiming {
  import opened Options
  import opened Numbers
  import opened EventModel

  /** How many intervals `event.duration` may expand to. */
  const MAX_LOOPED_INTERVALS: nat := 2000

  datatype TimedInterval = TimedInterval(interval: Interval, start: Instant, end: Instant) {
    predicate Bounded() { start != OPEN_START && end != OPEN_END }

    predicate Covers(t: Instant) { start <= t < end }
  }

  // ---- the declared sequence -------------------------------------------------------------------

  function DefaultDuration(e: Event): Option<int> {
    if e.period.Some? then e.period.value.duration else None
  }

  function EventStart(e: Event): Option<Instant> {
    if e.period.Some? then Some(e.period.value.start) else None
  }

  /** One interval placed in time: its own period first, then the cursor and the event's duration. */
  function Place(interval: Interval, default: Option<int>, cursor: Option<Instant>): TimedInterval {
    var start := if interval.period.Some? then Some(interval.period.value.start) else cursor;
    var duration := if interval.period.Some? && interval.period.value.duration.Some?
                    then interval.period.value.duration else default;
    if start.None? then TimedInterval(interval, OPEN_START, OPEN_END)
    else if duration.None? then TimedInterval(interval, start.value, OPEN_END)
    else
      var end := CheckedAdd(start.value, duration.value);
      TimedInterval(interval, start.value, if end.Some? then end.value else OPEN_END)
  }

  function BaseFrom(intervals: seq<Interval>, default: Option<int>, cursor: Option<Instant>): (r: seq<TimedInterval>)
    ensures |r| == |intervals|
  {
    if intervals == [] then [] else
      var timed := Place(intervals[0], default, cursor);
      [timed] + BaseFrom(intervals[1..], default, Some(timed.end))
  }

  function BaseIntervals(e: Event): (r: seq<TimedInterval>)
    ensures |r| == |Intervals(e)|
  {
    BaseFrom(Intervals(e), DefaultDuration(e), EventStart(e))
  }

  /** Section 7.3 of the OpenADR 3.1 User Guide, as a property of the whole list: an interval with a
      period of its own starts there, any other starts where the previous one ends, the first of all
      at the event's start. */
  lemma {:induction false} BaseFollowsCursorRule(intervals: seq<Interval>, default: Option<int>,
        cursor: Option<Instant>, i: nat)
    requires i < |intervals|
    ensures var r := BaseFrom(intervals, default, cursor);
            r[i] == Place(intervals[i], default, if i == 0 then cursor else Some(r[i - 1].end))
    decreases i
  {
    if i > 0 {
      var timed := Place(intervals[0], default, cursor);
      BaseFollowsCursorRule(intervals[1..], default, Some(timed.end), i - 1);
    }
  }

  /** The loop with the moving cursor. */
  method PlaceIntervals(e: Event) returns (out: seq<TimedInterval>)
    ensures out == BaseIntervals(e)
    ensures |out| == |Intervals(e)|
    ensures forall i :: 0 <= i < |out| ==>
      out[i] == Place(Intervals(e)[i], DefaultDuration(e), if i == 0 then EventStart(e) else Some(out[i - 1].end))
  {
    var intervals := Intervals(e);
    var cursor := EventStart(e);
    out := [];
    for k := 0 to |intervals|
      invariant out + BaseFrom(intervals[k..], DefaultDuration(e), cursor) == BaseIntervals(e)
    {
      var timed := Place(intervals[k], DefaultDuration(e), cursor);
      cursor := Some(timed.end);
      out := out + [timed];
      assert intervals[k..][0] == intervals[k] && intervals[k..][1..] == intervals[k + 1..];
    }
    forall i | 0 <= i < |out|
      ensures out[i] == Place(intervals[i], DefaultDuration(e), if i == 0 then EventStart(e) else Some(out[i - 1].end))
    {
      BaseFollowsCursorRule(intervals, DefaultDuration(e), EventStart(e), i);
    }
  }

  /** The same on what the event declares. An interval starts at its own period's start, else where the one
      before it ends, else at the event's start; without any of these it is open on both sides. It ends its own
      duration later, else the event's default one; without one, or past the last date, its end is open. */
  lemma PlacedAsDeclared(e: Event, i: nat)
    requires i < |Intervals(e)|
    ensures var r, own := BaseIntervals(e), Intervals(e)[i].period;
      && r[i].interval == Intervals(e)[i]
      && (own.Some? ==> r[i].start == own.value.start)
      && (own.None? && i > 0 ==> r[i].start == r[i - 1].end)
      && (own.None? && i == 0 && e.period.Some? ==> r[i].start == e.period.value.start)
      && (own.None? && i == 0 && e.period.None? ==> r[i].start == OPEN_START && r[i].end == OPEN_END)
      && (own.Some? && own.value.duration.Some? ==> r[i].end == EndOrOpen(r[i].start, own.value.duration.value))
      && ((own.None? || own.value.duration.None?) && e.period.Some? && e.period.value.duration.Some? ==>
            r[i].end == EndOrOpen(r[i].start, e.period.value.duration.value))
      && ((own.None? || own.value.duration.None?) && (e.period.None? || e.period.value.duration.None?) ==>
            r[i].end == OPEN_END)
  {
    BaseFollowsCursorRule(Intervals(e), DefaultDuration(e), EventStart(e), i);
  }

  /** A date, or the open end when the sum is none. */
  function EndOrOpen(start: Instant, duration: int): Instant {
    if OPEN_START <= start + duration <= OPEN_END then start + duration else OPEN_END
  }

  /** An event without an interval list has none; otherwise its list is taken as it stands. */
  lemma IntervalsAsListed(e: Event)
    ensures Intervals(e) == match e.intervals case None => [] case Some(list) => list
  {
  }

  // ---- event.duration --------------------------------------------------------------------------

  /** Where `event.duration` ends the event; None without a duration or without a bounded first
      interval to anchor it. */
  function EventWindowEnd(e: Event, base: seq<TimedInterval>): Option<Instant> {
    if e.duration.None? || base == [] || !base[0].Bounded() then None
    else CheckedAdd(base[0].start, e.duration.value)
  }

  function Clip(it: TimedInterval, shift: int, end: Instant): TimedInterval {
    TimedInterval(it.interval, it.start + shift, MinI(it.end + shift, end))
  }

  /** Intervals that start before the event's end, clipped to it. */
  function Trim(base: seq<TimedInterval>, end: Instant): (r: seq<TimedInterval>)
    ensures |r| <= |base|
  {
    if base == [] then []
    else if base[0].start < end then [Clip(base[0], 0, end)] + Trim(base[1..], end)
    else Trim(base[1..], end)
  }

  /** One repetition, `shift` later: it stops at the cap and at the first start past the end. */
  function Pass(base: seq<TimedInterval>, shift: int, end: Instant, room: nat): (r: seq<TimedInterval>)
    ensures |r| <= room
    ensures base != [] && room > 0 && base[0].start + shift < end ==> r != []
  {
    if base == [] || room == 0 || base[0].start + shift >= end then []
    else [Clip(base[0], shift, end)] + Pass(base[1..], shift, end, room - 1)
  }

  function Passes(base: seq<TimedInterval>, span: int, shift: int, end: Instant, len: nat): (r: seq<TimedInterval>)
    requires base != []
    ensures r != [] ==> len + |r| <= MAX_LOOPED_INTERVALS
    decreases MAX_LOOPED_INTERVALS - len
  {
    if len >= MAX_LOOPED_INTERVALS || base[0].start + shift >= end then [] else
      var pass := Pass(base, shift, end, MAX_LOOPED_INTERVALS - len);
      pass + Passes(base, span, shift + span, end, len + |pass|)
  }

  predicate Repeats(base: seq<TimedInterval>) {
    base != [] && base[0].Bounded() && base[|base| - 1].Bounded() && base[|base| - 1].end > base[0].start
  }

  function Span(base: seq<TimedInterval>): int
    requires base != []
  {
    base[|base| - 1].end - base[0].start
  }

  /** The declared list as one event window [.., end) shows it: trimmed, then repeated to fill it. */
  function FillWindow(base: seq<TimedInterval>, end: Instant): (r: seq<TimedInterval>)
    ensures |r| <= MaxI(|base|, MAX_LOOPED_INTERVALS)
  {
    var trimmed := Trim(base, end);
    if Repeats(base) then trimmed + Passes(base, Span(base), Span(base), end, |trimmed|) else trimmed
  }

  /** Every interval of the event in order, after `event.duration`. The number of intervals never
      exceeds what was declared or the cap, whichever is larger. */
  function TimedIntervals(e: Event): (r: seq<TimedInterval>)
    ensures |r| <= MaxI(|Intervals(e)|, 2000)
  {
    var base := BaseIntervals(e);
    var end := EventWindowEnd(e, base);
    if end.None? then base else FillWindow(base, end.value)
  }

  /** The first declared interval is there and has no open side. */
  predicate Anchored(base: seq<TimedInterval>) {
    base != [] && base[0].start != OPEN_START && base[0].end != OPEN_END
  }

  /** Without a duration, or without a bounded first interval to count it from, or when it runs past the last
      date, the event is as declared. */
  lemma AsDeclaredWithoutWindow(e: Event)
    requires e.duration.None? || !Anchored(BaseIntervals(e))
             || !(OPEN_START <= BaseIntervals(e)[0].start + e.duration.value <= OPEN_END)
    ensures EventWindowEnd(e, BaseIntervals(e)).None? && TimedIntervals(e) == BaseIntervals(e)
  {
    hide BaseIntervals;
  }

  /** Otherwise `event.duration`, counted from the start of the first interval, is where the event ends. */
  lemma WindowEndsDurationAfterStart(e: Event)
    requires e.duration.Some? && Anchored(BaseIntervals(e))
    requires OPEN_START <= BaseIntervals(e)[0].start + e.duration.value <= OPEN_END
    ensures EventWindowEnd(e, BaseIntervals(e)) == Some(BaseIntervals(e)[0].start + e.duration.value)
    ensures TimedIntervals(e) == FillWindow(BaseIntervals(e), BaseIntervals(e)[0].start + e.duration.value)
  {
    hide BaseIntervals, FillWindow;
  }

  /** A sequence repeats exactly when it begins and ends on a date and the end is after the beginning. */
  lemma RepeatsIff(base: seq<TimedInterval>)
    ensures Repeats(base) <==>
            && Anchored(base) && base[|base| - 1].start != OPEN_START && base[|base| - 1].end != OPEN_END
            && base[0].start < base[|base| - 1].end
  {
  }

  // ---- dates out of range ----------------------------------------------------------------------

  predicate InRange(t: Instant) { OPEN_START <= t <= OPEN_END }

  /** Every date one repetition computes is in range: each start it tries, and each end it copies. */
  predicate PassInRange(base: seq<TimedInterval>, shift: int, end: Instant, room: nat) {
    base == [] || room == 0 ||
    (InRange(base[0].start + shift)
     && (base[0].start + shift < end ==>
           InRange(base[0].end + shift) && PassInRange(base[1..], shift, end, room - 1)))
  }

  /** A repetition comes to interval k: all before it start before the end. */
  ghost predicate ComesTo(base: seq<TimedInterval>, shift: int, end: Instant, room: nat, k: nat) {
    k < |base| && k < room && forall j :: 0 <= j < k ==> base[j].start + shift < end
  }

  ghost predicate DatesFit(it: TimedInterval, shift: int, end: Instant) {
    && OPEN_START <= it.start + shift <= OPEN_END
    && (it.start + shift < end ==> OPEN_START <= it.end + shift <= OPEN_END)
  }

  lemma {:induction false} PassInRangeIff(base: seq<TimedInterval>, shift: int, end: Instant, room: nat)
    ensures PassInRange(base, shift, end, room) <==>
      forall k: nat :: ComesTo(base, shift, end, room, k) ==> DatesFit(base[k], shift, end)
  {
    if base != [] && room > 0 {
      var rest := base[1..];
      assert ComesTo(base, shift, end, room, 0);
      if base[0].start + shift < end {
        PassInRangeIff(rest, shift, end, room - 1);
        forall k: nat | k > 0
          ensures ComesTo(base, shift, end, room, k) <==> ComesTo(rest, shift, end, room - 1, k - 1)
        {
          ComesToNext(base, shift, end, room, k);
        }
        if k: nat :| ComesTo(rest, shift, end, room - 1, k) && !DatesFit(rest[k], shift, end) {
          ComesToNext(base, shift, end, room, k + 1);
        }
      }
    }
  }

  lemma ComesToNext(base: seq<TimedInterval>, shift: int, end: Instant, room: nat, k: nat)
    requires base != [] && room > 0 && k > 0 && base[0].start + shift < end
    ensures ComesTo(base, shift, end, room, k) <==> ComesTo(base[1..], shift, end, room - 1, k - 1)
  {
    if ComesTo(base[1..], shift, end, room - 1, k - 1) {
      forall j | 0 <= j < k
        ensures base[j].start + shift < end
      {
        assert j > 0 ==> base[1..][j - 1] == base[j];
      }
    }
  }

  predicate PassesInRange(base: seq<TimedInterval>, span: int, shift: int, end: Instant, len: nat)
    requires base != []
    decreases MAX_LOOPED_INTERVALS - len
  {
    len >= MAX_LOOPED_INTERVALS ||
    (InRange(base[0].start + shift)
     && (base[0].start + shift < end ==>
           (var room := MAX_LOOPED_INTERVALS - len;
            PassInRange(base, shift, end, room)
            && PassesInRange(base, span, shift + span, end, len + |Pass(base, shift, end, room)|))))
  }

  predicate WindowInRange(base: seq<TimedInterval>, end: Instant) {
    Repeats(base) ==> PassesInRange(base, Span(base), Span(base), end, |Trim(base, end)|)
  }

  /** Repeating adds dates without a check, and the first one out of range stops the program: only an event
      whose repetition stays in range has an expansion. */
  predicate Returns(e: Event) {
    var base := BaseIntervals(e);
    var end := EventWindowEnd(e, base);
    end.Some? ==> WindowInRange(base, end.value)
  }

  // ---- as the program runs it ------------------------------------------------------------------

  method TrimLoop(base: seq<TimedInterval>, end: Instant) returns (out: seq<TimedInterval>)
    ensures out == Trim(base, end)
  {
    out := [];
    for k := 0 to |base|
      invariant out + Trim(base[k..], end) == Trim(base, end)
    {
      assert base[k..][0] == base[k] && base[k..][1..] == base[k + 1..];
      if base[k].start < end {
        out := out + [Clip(base[k], 0, end)];
      }
    }
  }

  method PassLoop(base: seq<TimedInterval>, shift: int, end: Instant, before: seq<TimedInterval>)
    returns (out: seq<TimedInterval>, inRange: bool)
    requires |before| <= MAX_LOOPED_INTERVALS
    ensures out == before + Pass(base, shift, end, MAX_LOOPED_INTERVALS - |before|)
    ensures inRange == PassInRange(base, shift, end, MAX_LOOPED_INTERVALS - |before|)
  {
    out, inRange := before, true;
    var j := 0;
    while j < |base| && |out| < MAX_LOOPED_INTERVALS && base[j].start + shift < end
      invariant j <= |base| && |out| == |before| + j && |out| <= MAX_LOOPED_INTERVALS
      invariant out + Pass(base[j..], shift, end, MAX_LOOPED_INTERVALS - |out|)
             == before + Pass(base, shift, end, MAX_LOOPED_INTERVALS - |before|)
      invariant PassInRange(base, shift, end, MAX_LOOPED_INTERVALS - |before|)
             == (inRange && PassInRange(base[j..], shift, end, MAX_LOOPED_INTERVALS - |out|))
    {
      assert base[j..][0] == base[j] && base[j..][1..] == base[j + 1..];
      ghost var rest := Pass(base[j + 1..], shift, end, MAX_LOOPED_INTERVALS - |out| - 1);
      assert out + ([Clip(base[j], shift, end)] + rest) == (out + [Clip(base[j], shift, end)]) + rest;
      inRange := inRange && InRange(base[j].start + shift) && InRange(base[j].end + shift);
      out := out + [Clip(base[j], shift, end)];
      j := j + 1;
    }
    inRange := inRange && (j < |base| && |out| < MAX_LOOPED_INTERVALS ==> InRange(base[j].start + shift));
  }

  /** Repetition after repetition. Every one pushes at least one interval, which is why the loop ends. */
  method PassesLoop(base: seq<TimedInterval>, end: Instant, before: seq<TimedInterval>)
    returns (out: seq<TimedInterval>, inRange: bool)
    requires base != []
    ensures out == before + Passes(base, Span(base), Span(base), end, |before|)
    ensures inRange == PassesInRange(base, Span(base), Span(base), end, |before|)
  {
    var span := Span(base);
    var shift := span;
    out, inRange := before, true;
    ghost var whole := before + Passes(base, span, shift, end, |before|);
    while |out| < MAX_LOOPED_INTERVALS && base[0].start + shift < end
      invariant out + Passes(base, span, shift, end, |out|) == whole
      invariant PassesInRange(base, span, span, end, |before|)
             == (inRange && PassesInRange(base, span, shift, end, |out|))
      decreases MAX_LOOPED_INTERVALS - |out|
    {
      hide Pass, PassInRange, Passes, PassesInRange;
      PassesUnfold(base, span, shift, end, out);
      var passInRange;
      inRange := inRange && InRange(base[0].start + shift);
      out, passInRange := PassLoop(base, shift, end, out);
      inRange := inRange && passInRange;
      shift := shift + span;
    }
    StoppedPasses(base, span, shift, end, out);
    inRange := inRange && (|out| < MAX_LOOPED_INTERVALS ==> InRange(base[0].start + shift));
  }

  /** The expansion as the program runs it. `inRange` says that no date it computed was out of range; with
      one, the program stops there and has no result. */
  method ExpandIntervals(e: Event) returns (out: seq<TimedInterval>, inRange: bool)
    ensures out == TimedIntervals(e)
    ensures inRange == Returns(e)
  {
    hide Passes, PassesInRange;
    inRange := true;
    out := PlaceIntervals(e);
    var windowEnd := EventWindowEnd(e, out);
    if windowEnd.Some? {
      var base := out;
      out := TrimLoop(base, windowEnd.value);
      if Repeats(base) {
        out, inRange := PassesLoop(base, windowEnd.value, out);
      }
    }
  }

  lemma PassesUnfold(base: seq<TimedInterval>, span: int, shift: int, end: Instant, out: seq<TimedInterval>)
    requires base != [] && |out| < MAX_LOOPED_INTERVALS && base[0].start + shift < end
    ensures (var pass := Pass(base, shift, end, MAX_LOOPED_INTERVALS - |out|);
             out + Passes(base, span, shift, end, |out|)
             == (out + pass) + Passes(base, span, shift + span, end, |out + pass|))
    ensures PassesInRange(base, span, shift, end, |out|)
       <==> (var room := MAX_LOOPED_INTERVALS - |out|;
             && InRange(base[0].start + shift) && PassInRange(base, shift, end, room)
             && PassesInRange(base, span, shift + span, end, |out + Pass(base, shift, end, room)|))
  {
    hide Pass, PassInRange;
    var pass := Pass(base, shift, end, MAX_LOOPED_INTERVALS - |out|);
    assert |out + pass| == |out| + |pass|;
    var rest := Passes(base, span, shift + span, end, |out| + |pass|);
    assert Passes(base, span, shift, end, |out|) == pass + rest;
    assert out + (pass + rest) == (out + pass) + rest;
  }

  lemma StoppedPasses(base: seq<TimedInterval>, span: int, shift: int, end: Instant, out: seq<TimedInterval>)
    requires base != [] && (|out| >= MAX_LOOPED_INTERVALS || base[0].start + shift >= end)
    ensures out + Passes(base, span, shift, end, |out|) == out
    ensures PassesInRange(base, span, shift, end, |out|)
       <==> (|out| < MAX_LOOPED_INTERVALS ==> InRange(base[0].start + shift))
  {
  }
}
