/** Which copies of the declared intervals an expansion holds, for sequences in any order, and when repeating
    stops on a date out of range. */
module LoopedCopies {
  import opened Options
  import opened Numbers
  import opened EventModel
  import opened EventTiming

  /** Declared interval j, `lap` spans later. */
  datatype Copy = Copy(j: nat, lap: nat)

  function StartOf(base: seq<TimedInterval>, j: nat, lap: nat): Instant
    requires j < |base|
  {
    base[j].start + lap * Span(base)
  }

  // ---- where each interval of the expansion comes from -----------------------------------------

  function TrimCopies(base: seq<TimedInterval>, end: Instant, n: nat): seq<Copy>
    requires n <= |base|
  {
    if n == 0 then [] else
      TrimCopies(base, end, n - 1) + if base[n - 1].start < end then [Copy(n - 1, 0)] else []
  }

  function PassCopies(n: nat, lap: nat): (r: seq<Copy>)
    ensures |r| == n
  {
    if n == 0 then [] else PassCopies(n - 1, lap) + [Copy(n - 1, lap)]
  }

  function PassSize(base: seq<TimedInterval>, lap: nat, end: Instant, len: nat): (n: nat)
    requires base != [] && len <= MAX_LOOPED_INTERVALS
    ensures n <= MAX_LOOPED_INTERVALS - len
    ensures len < MAX_LOOPED_INTERVALS && StartOf(base, 0, lap) < end ==> n > 0
  {
    |Pass(base, lap * Span(base), end, MAX_LOOPED_INTERVALS - len)|
  }

  function PassesCopies(base: seq<TimedInterval>, lap: nat, end: Instant, len: nat): seq<Copy>
    requires base != []
    decreases MAX_LOOPED_INTERVALS - len
  {
    if len >= MAX_LOOPED_INTERVALS || StartOf(base, 0, lap) >= end then [] else
      var size := PassSize(base, lap, end, len);
      PassCopies(size, lap) + PassesCopies(base, lap + 1, end, len + size)
  }

  /** The origin of every interval of the expansion, in order. */
  function CopiesOf(base: seq<TimedInterval>, end: Instant): seq<Copy> {
    var trimmed := TrimCopies(base, end, |base|);
    if Repeats(base) then trimmed + PassesCopies(base, 1, end, |trimmed|) else trimmed
  }

  /** The list holds these copies, each moved and clipped, and only copies that start before the end. */
  ghost predicate Holds(base: seq<TimedInterval>, end: Instant, copies: seq<Copy>, out: seq<TimedInterval>)
    requires base != []
  {
    |copies| == |out| && forall k :: 0 <= k < |out| ==> IsCopy(base, end, copies[k], out[k])
  }

  predicate IsCopy(base: seq<TimedInterval>, end: Instant, c: Copy, it: TimedInterval)
    requires base != []
  {
    c.j < |base| && StartOf(base, c.j, c.lap) < end && it == Clip(base[c.j], c.lap * Span(base), end)
  }

  lemma HoldsConcat(base: seq<TimedInterval>, end: Instant, a: seq<Copy>, x: seq<TimedInterval>,
      b: seq<Copy>, y: seq<TimedInterval>)
    requires base != [] && Holds(base, end, a, x) && Holds(base, end, b, y)
    ensures Holds(base, end, a + b, x + y)
  {
    hide IsCopy;
  }

  lemma {:induction false} TrimSnoc(base: seq<TimedInterval>, end: Instant, n: nat)
    requires n < |base|
    ensures Trim(base[..n + 1], end)
         == Trim(base[..n], end) + if base[n].start < end then [Clip(base[n], 0, end)] else []
  {
    assert base[..n + 1] == base[..n] + [base[n]];
    TrimConcat(base[..n], [base[n]], end);
    assert [base[n]][1..] == [];
  }

  lemma {:induction false} TrimConcat(a: seq<TimedInterval>, b: seq<TimedInterval>, end: Instant)
    ensures Trim(a + b, end) == Trim(a, end) + Trim(b, end)
  {
    if a == [] {
      assert a + b == b;
    } else {
      assert (a + b)[1..] == a[1..] + b;
      TrimConcat(a[1..], b, end);
    }
  }

  lemma {:induction false} TrimHolds(base: seq<TimedInterval>, end: Instant, n: nat)
    requires base != [] && n <= |base|
    ensures Holds(base, end, TrimCopies(base, end, n), Trim(base[..n], end))
  {
    if n > 0 {
      TrimHolds(base, end, n - 1);
      TrimSnoc(base, end, n - 1);
      assert 0 * Span(base) == 0;
    }
  }

  lemma {:induction false} PassSnoc(base: seq<TimedInterval>, shift: int, end: Instant, room: nat, k: nat)
    requires k < |Pass(base, shift, end, room)|
    ensures k < |base| && k < room && base[k].start + shift < end
    ensures Pass(base, shift, end, room)[k] == Clip(base[k], shift, end)
  {
    if k > 0 {
      PassSnoc(base[1..], shift, end, room - 1, k - 1);
    }
  }

  lemma {:induction false} PassStops(base: seq<TimedInterval>, shift: int, end: Instant, room: nat)
    ensures var n := |Pass(base, shift, end, room)|;
            n <= |base| && (n < |base| && n < room ==> base[n].start + shift >= end)
  {
    if base != [] && room > 0 && base[0].start + shift < end {
      PassStops(base[1..], shift, end, room - 1);
    }
  }

  lemma {:induction false} PassCopiesAre(n: nat, lap: nat, k: nat)
    requires k < n
    ensures PassCopies(n, lap)[k] == Copy(k, lap)
  {
    if k < n - 1 {
      PassCopiesAre(n - 1, lap, k);
    }
  }

  lemma PassHolds(base: seq<TimedInterval>, lap: nat, end: Instant, len: nat)
    requires base != [] && len <= MAX_LOOPED_INTERVALS
    ensures Holds(base, end, PassCopies(PassSize(base, lap, end, len), lap),
                  Pass(base, lap * Span(base), end, MAX_LOOPED_INTERVALS - len))
  {
    hide Pass;
    var shift, room := lap * Span(base), MAX_LOOPED_INTERVALS - len;
    var size := PassSize(base, lap, end, len);
    forall k | 0 <= k < size
      ensures IsCopy(base, end, PassCopies(size, lap)[k], Pass(base, shift, end, room)[k])
    {
      PassSnoc(base, shift, end, room, k);
      PassCopiesAre(size, lap, k);
    }
  }

  lemma {:induction false} PassesHold(base: seq<TimedInterval>, lap: nat, end: Instant, len: nat)
    requires base != []
    ensures Holds(base, end, PassesCopies(base, lap, end, len),
                  Passes(base, Span(base), lap * Span(base), end, len))
    decreases MAX_LOOPED_INTERVALS - len
  {
    hide Holds, Pass, PassCopies;
    var span := Span(base);
    if len >= MAX_LOOPED_INTERVALS || StartOf(base, 0, lap) >= end {
      NothingHeld(base, end);
    } else {
      var size := PassSize(base, lap, end, len);
      assert (lap + 1) * span == lap * span + span;
      PassHolds(base, lap, end, len);
      PassesHold(base, lap + 1, end, len + size);
      HoldsConcat(base, end, PassCopies(size, lap), Pass(base, lap * span, end, MAX_LOOPED_INTERVALS - len),
                  PassesCopies(base, lap + 1, end, len + size), Passes(base, span, lap * span + span, end, len + size));
    }
  }

  lemma NothingHeld(base: seq<TimedInterval>, end: Instant)
    requires base != []
    ensures Holds(base, end, [], [])
  {
  }

  /** Every interval of the expansion is the copy its origin says. */
  lemma ExpansionHoldsCopies(base: seq<TimedInterval>, end: Instant)
    requires base != []
    ensures Holds(base, end, CopiesOf(base, end), FillWindow(base, end))
  {
    hide Holds, Trim, TrimCopies, Passes, PassesCopies;
    assert base[..|base|] == base;
    TrimHolds(base, end, |base|);
    SameLength(base, end);
    if Repeats(base) {
      assert 1 * Span(base) == Span(base);
      PassesHold(base, 1, end, |Trim(base, end)|);
      HoldsConcat(base, end, TrimCopies(base, end, |base|), Trim(base, end),
                  PassesCopies(base, 1, end, |Trim(base, end)|),
                  Passes(base, Span(base), Span(base), end, |Trim(base, end)|));
    }
  }

  lemma SameLength(base: seq<TimedInterval>, end: Instant)
    requires base != [] && Holds(base, end, TrimCopies(base, end, |base|), Trim(base, end))
    ensures |TrimCopies(base, end, |base|)| == |Trim(base, end)|
  {
  }

  // ---- which copies are made -------------------------------------------------------------------

  /** In this lap, everything listed up to j starts before the end. */
  ghost predicate Reached(base: seq<TimedInterval>, end: Instant, j: nat, lap: nat) {
    j < |base| && forall i :: 0 <= i <= j ==> StartOf(base, i, lap) < end
  }

  lemma {:induction false} InPassCopies(n: nat, lap: nat, c: Copy)
    ensures c in PassCopies(n, lap) <==> c.j < n && c.lap == lap
  {
    if n > 0 {
      InPassCopies(n - 1, lap, c);
    }
  }

  lemma {:induction false} InTrimCopies(base: seq<TimedInterval>, end: Instant, n: nat, c: Copy)
    requires n <= |base|
    ensures c in TrimCopies(base, end, n) <==> c.j < n && c.lap == 0 && base[c.j].start < end
  {
    if n > 0 {
      InTrimCopies(base, end, n - 1, c);
    }
  }

  lemma PassReaches(base: seq<TimedInterval>, lap: nat, end: Instant, len: nat, j: nat)
    requires base != [] && len <= MAX_LOOPED_INTERVALS
    requires len + PassSize(base, lap, end, len) < MAX_LOOPED_INTERVALS
    ensures j < PassSize(base, lap, end, len) <==> Reached(base, end, j, lap)
  {
    hide Pass;
    var shift, room := lap * Span(base), MAX_LOOPED_INTERVALS - len;
    var size := PassSize(base, lap, end, len);
    PassStops(base, shift, end, room);
    forall i | 0 <= i < size
      ensures StartOf(base, i, lap) < end
    {
      PassSnoc(base, shift, end, room, i);
    }
    assert size < |base| ==> StartOf(base, size, lap) >= end;
  }

  lemma LaterLapsStartLater(base: seq<TimedInterval>, j: nat, lap: nat, later: nat)
    requires j < |base| && Span(base) > 0 && lap <= later
    ensures StartOf(base, j, lap) <= StartOf(base, j, later)
  {
    MulAtLeast(later - lap, Span(base));
    assert (later - lap) * Span(base) == later * Span(base) - lap * Span(base);
  }

  /** As far as the cap lets them go, the repetitions hold a copy exactly when it and everything listed before
      it start before the end in that lap. */
  lemma {:induction false} InPassesCopies(base: seq<TimedInterval>, from: nat, end: Instant, len: nat, c: Copy)
    requires base != [] && Span(base) > 0 && from <= c.lap
    requires len + |PassesCopies(base, from, end, len)| < MAX_LOOPED_INTERVALS
    ensures c in PassesCopies(base, from, end, len) <==> Reached(base, end, c.j, c.lap)
    decreases MAX_LOOPED_INTERVALS - len
  {
    hide PassCopies, PassSize, StartOf, Reached;
    if StartOf(base, 0, from) >= end {
      LaterLapsStartLater(base, 0, from, c.lap);
      NotReached(base, end, c);
    } else {
      var size := PassSize(base, from, end, len);
      var rest := PassesCopies(base, from + 1, end, len + size);
      InPassCopies(size, from, c);
      PassReaches(base, from, end, len, c.j);
      if c.lap > from {
        InPassesCopies(base, from + 1, end, len + size, c);
      } else {
        LapsFrom(base, from + 1, end, len + size, c);
      }
    }
  }

  lemma NotReached(base: seq<TimedInterval>, end: Instant, c: Copy)
    requires base != [] && StartOf(base, 0, c.lap) >= end
    ensures !Reached(base, end, c.j, c.lap)
  {
  }

  lemma {:induction false} LapsFrom(base: seq<TimedInterval>, from: nat, end: Instant, len: nat, c: Copy)
    requires base != []
    ensures c in PassesCopies(base, from, end, len) ==> c.lap >= from
    decreases MAX_LOOPED_INTERVALS - len
  {
    hide PassCopies, PassSize, StartOf;
    if len < MAX_LOOPED_INTERVALS && StartOf(base, 0, from) < end {
      var size := PassSize(base, from, end, len);
      InPassCopies(size, from, c);
      LapsFrom(base, from + 1, end, len + size, c);
    }
  }

  /** Which copies an expansion that the cap did not stop holds: of the declared list, all that start before
      the end; of a later lap, those behind which nothing listed earlier starts at or after it. */
  lemma CopyMadeIff(base: seq<TimedInterval>, end: Instant, c: Copy)
    requires Repeats(base) && |FillWindow(base, end)| < MAX_LOOPED_INTERVALS
    ensures c in CopiesOf(base, end) <==>
            if c.lap == 0 then c.j < |base| && base[c.j].start < end else Reached(base, end, c.j, c.lap)
  {
    hide FillWindow, TrimCopies, PassesCopies, Reached;
    ExpansionHoldsCopies(base, end);
    InTrimCopies(base, end, |base|, c);
    if c.lap == 0 {
      LapsFrom(base, 1, end, |TrimCopies(base, end, |base|)|, c);
    } else {
      InPassesCopies(base, 1, end, |TrimCopies(base, end, |base|)|, c);
    }
  }

  // ---- when no copy is lost --------------------------------------------------------------------

  /** The copy starts before the end. */
  ghost predicate Due(base: seq<TimedInterval>, end: Instant, j: nat, lap: nat) {
    j < |base| && StartOf(base, j, lap) < end
  }

  /** In a later lap, interval j starts before the end and i, listed before it, does not. */
  ghost predicate Blocks(base: seq<TimedInterval>, end: Instant, i: nat, j: nat, lap: nat) {
    i < j < |base| && lap >= 1 && StartOf(base, j, lap) < end <= StartOf(base, i, lap)
  }

  lemma DueIsReachedUnlessBlocked(base: seq<TimedInterval>, end: Instant, j: nat, lap: nat)
    requires Due(base, end, j, lap) && lap >= 1
    ensures Reached(base, end, j, lap) <==> !exists i: nat :: Blocks(base, end, i, j, lap)
  {
    hide StartOf;
    if !Reached(base, end, j, lap) {
      var i :| 0 <= i <= j && !(StartOf(base, i, lap) < end);
      assert Blocks(base, end, i, j, lap);
    }
  }

  /** `event.duration` repeats the intervals to fill it: as far as the cap lets it, every copy that starts
      before the event's end is in the expansion exactly when, in no lap, one that does is listed behind one
      that does not. */
  lemma EveryCopyExpandedIff(e: Event)
    requires Returns(e) && Repeats(BaseIntervals(e)) && EventWindowEnd(e, BaseIntervals(e)).Some?
    requires |TimedIntervals(e)| < MAX_LOOPED_INTERVALS
    ensures (var base := BaseIntervals(e);
             var end := EventWindowEnd(e, base).value;
             (forall j: nat, lap: nat :: Due(base, end, j, lap) ==> Copy(j, lap) in CopiesOf(base, end))
             <==> !exists i: nat, j: nat, lap: nat :: Blocks(base, end, i, j, lap))
  {
    hide FillWindow, Returns, Blocks, Due, Reached, CopiesOf, EventWindowEnd, BaseIntervals;
    var base := BaseIntervals(e);
    var end := EventWindowEnd(e, base).value;
    forall j: nat, lap: nat | Due(base, end, j, lap)
      ensures Copy(j, lap) in CopiesOf(base, end) <==> !exists i: nat :: Blocks(base, end, i, j, lap)
    {
      DueCopyMadeIff(base, end, j, lap);
    }
    forall i: nat, j: nat, lap: nat | Blocks(base, end, i, j, lap)
      ensures Due(base, end, j, lap)
    {
      BlockedIsDue(base, end, i, j, lap);
    }
  }

  lemma DueCopyMadeIff(base: seq<TimedInterval>, end: Instant, j: nat, lap: nat)
    requires Repeats(base) && |FillWindow(base, end)| < MAX_LOOPED_INTERVALS && Due(base, end, j, lap)
    ensures Copy(j, lap) in CopiesOf(base, end) <==> !exists i: nat :: Blocks(base, end, i, j, lap)
  {
    hide FillWindow, CopiesOf, Reached;
    CopyMadeIff(base, end, Copy(j, lap));
    if lap >= 1 {
      DueIsReachedUnlessBlocked(base, end, j, lap);
    } else {
      assert 0 * Span(base) == 0;
    }
  }

  lemma BlockedIsDue(base: seq<TimedInterval>, end: Instant, i: nat, j: nat, lap: nat)
    requires Blocks(base, end, i, j, lap)
    ensures Due(base, end, j, lap)
  {
  }

  // ---- dates out of range ----------------------------------------------------------------------

  lemma {:induction false} PassDates(base: seq<TimedInterval>, shift: int, end: Instant, room: nat, k: nat)
    requires PassInRange(base, shift, end, room) && k < |Pass(base, shift, end, room)|
    ensures k < |base| && InRange(base[k].start + shift) && InRange(base[k].end + shift)
  {
    if k > 0 {
      PassDates(base[1..], shift, end, room - 1, k - 1);
    }
  }

  lemma {:induction false} PassesDates(base: seq<TimedInterval>, lap: nat, end: Instant, len: nat, c: Copy)
    requires base != [] && PassesInRange(base, Span(base), lap * Span(base), end, len)
    requires c in PassesCopies(base, lap, end, len)
    ensures c.j < |base| && InRange(StartOf(base, c.j, c.lap)) && InRange(base[c.j].end + c.lap * Span(base))
    decreases MAX_LOOPED_INTERVALS - len
  {
    hide Pass, PassInRange, PassCopies, InRange;
    var span, size := Span(base), PassSize(base, lap, end, len);
    assert (lap + 1) * span == lap * span + span;
    InPassCopies(size, lap, c);
    if c in PassCopies(size, lap) {
      PassDates(base, lap * span, end, MAX_LOOPED_INTERVALS - len, c.j);
    } else {
      PassesDates(base, lap + 1, end, len + size, c);
    }
  }

  /** An event that repeats and has an expansion computed every end it copied in range; so a copied interval
      with an open end stops the program. */
  lemma OpenCopyStops(e: Event, c: Copy)
    requires Repeats(BaseIntervals(e)) && EventWindowEnd(e, BaseIntervals(e)).Some?
    requires c.lap >= 1 && c in CopiesOf(BaseIntervals(e), EventWindowEnd(e, BaseIntervals(e)).value)
    requires c.j < |BaseIntervals(e)| && BaseIntervals(e)[c.j].end == OPEN_END
    ensures !Returns(e)
  {
    hide PassesCopies, PassesInRange, BaseIntervals, EventWindowEnd;
    var base := BaseIntervals(e);
    var end := EventWindowEnd(e, base).value;
    ExpansionHoldsCopies(base, end);
    TrimHolds(base, end, |base|);
    assert base[..|base|] == base;
    InTrimCopies(base, end, |base|, c);
    assert 1 * Span(base) == Span(base);
    MulAtLeast(c.lap, Span(base));
    if Returns(e) {
      PassesDates(base, 1, end, |Trim(base, end)|, c);
    }
  }

  /** Room to repeat: one interval, or one span, past the event's end is still a date. */
  ghost predicate HasRoomToRepeat(base: seq<TimedInterval>, end: Instant)
    requires base != []
  {
    && end + Span(base) <= OPEN_END
    && forall i :: 0 <= i < |base| ==> RoomAfter(base[i], base[0].start, end)
  }

  predicate RoomAfter(it: TimedInterval, first: Instant, end: Instant) {
    && OPEN_START <= it.start && OPEN_START <= it.end
    && end + (it.start - first) <= OPEN_END && end + (it.end - it.start) <= OPEN_END
  }

  lemma {:induction false} PassWithRoom(base: seq<TimedInterval>, shift: nat, end: Instant, room: nat, first: Instant)
    requires first + shift < end
    requires forall i :: 0 <= i < |base| ==> RoomAfter(base[i], first, end)
    ensures PassInRange(base, shift, end, room)
  {
    if base != [] && room > 0 {
      assert RoomAfter(base[0], first, end);
    }
    if base != [] && room > 0 && base[0].start + shift < end {
      PassWithRoom(base[1..], shift, end, room - 1, first);
    }
  }

  lemma {:induction false} PassesWithRoom(base: seq<TimedInterval>, shift: nat, end: Instant, len: nat)
    requires base != [] && Span(base) > 0 && HasRoomToRepeat(base, end) && base[0].start + shift < end + Span(base)
    ensures PassesInRange(base, Span(base), shift, end, len)
    decreases MAX_LOOPED_INTERVALS - len
  {
    hide Pass, PassInRange;
    assert RoomAfter(base[0], base[0].start, end);
    if len < MAX_LOOPED_INTERVALS && base[0].start + shift < end {
      var room := MAX_LOOPED_INTERVALS - len;
      PassWithRoom(base, shift, end, room, base[0].start);
      PassesWithRoom(base, shift + Span(base), end, len + |Pass(base, shift, end, room)|);
    }
  }

  /** With that room, the program has an expansion. */
  lemma RoomReturns(e: Event)
    requires Repeats(BaseIntervals(e)) && EventWindowEnd(e, BaseIntervals(e)).Some?
    requires BaseIntervals(e)[0].start < EventWindowEnd(e, BaseIntervals(e)).value
    requires HasRoomToRepeat(BaseIntervals(e), EventWindowEnd(e, BaseIntervals(e)).value)
    ensures Returns(e)
  {
    hide PassesInRange, HasRoomToRepeat, BaseIntervals, EventWindowEnd;
    var base := BaseIntervals(e);
    var end := EventWindowEnd(e, base).value;
    PassesWithRoom(base, Span(base), end, |Trim(base, end)|);
  }

  /** Three intervals, the second without an end of its own: with a longer duration the repetition reaches
      that one, and the program stops. */
  lemma OpenIntervalStopsTheProgram()
    ensures exists e: Event :: |BaseIntervals(e)| == 3 && BaseIntervals(e)[1].end == OPEN_END && !Returns(e)
  {
    var a := Interval(Some(Period(0, Some(10), None)), []);
    var b := Interval(Some(Period(10, None, None)), []);
    var c := Interval(Some(Period(20, Some(10), None)), []);
    var e := Event("e", "p", None, 0, None, None, None, Some(60), Some([a, b, c]));
    BaseFollowsCursorRule([a, b, c], None, None, 0);
    BaseFollowsCursorRule([a, b, c], None, None, 1);
    BaseFollowsCursorRule([a, b, c], None, None, 2);
    var base := BaseIntervals(e);
    assert base == [TimedInterval(a, 0, 10), TimedInterval(b, 10, OPEN_END), TimedInterval(c, 20, 30)];
    assert base[1..] == [TimedInterval(b, 10, OPEN_END), TimedInterval(c, 20, 30)];
    assert !PassInRange(base[1..], 30, 60, 1996);
    assert |Trim(base[1..][1..], 60)| == 1 && |Trim(base[1..], 60)| == 2;
    assert !PassInRange(base, 30, 60, 1997);
  }
}
