/** Scoring one household against one limit window: sustained compliance after a grace period, and how much of
    the allowed import was used. Times are seconds; displayed values are not rounded. */
module Compliance {
  import opened Options
  import opened Numbers

  const GRACE_S := 300
  const TOL_KW := 0.05
  const ENGAGED_FRACTION := 0.8
  const MIN_ALLOWED_KWH := 0.01

  datatype Direction = Import | Export

  /** One minute of the meter. */
  datatype Row = Row(ts: int, importKw: real, exportKw: real)

  datatype Window = Window(direction: Direction, limitKw: real, startTs: int, endTs: int)

  function GraceEnd(w: Window): int { w.startTs + GRACE_S }

  type Floors = map<int, real>

  /** A scored minute. */
  datatype Score = Score(ts: int, actual: real, target: real, floor: real) {
    predicate Complies() { actual <= target + TOL_KW }
  }

  datatype Verdict = Verdict(samples: nat, maxActual: real, maxFloor: real, engaged: bool,
                             timeToComply: Option<int>, pass: bool, overshootKwh: real)

  /** The minute lies wholly inside the window. */
  predicate Inside(r: Row, w: Window) { w.startTs <= r.ts && r.ts + 60 <= w.endTs }

  function ScoredRows(rows: seq<Row>, w: Window): seq<Row> {
    if rows == [] then [] else
      var last := rows[|rows| - 1];
      ScoredRows(rows[..|rows| - 1], w) + if Inside(last, w) then [last] else []
  }

  function FloorAt(floors: Floors, ts: int, w: Window): real {
    if w.direction.Import? && ts in floors then floors[ts] else 0.0
  }

  function ScoreOf(r: Row, w: Window, floors: Floors): Score {
    var floor := FloorAt(floors, r.ts, w);
    Score(r.ts, if w.direction.Import? then r.importKw else r.exportKw, MaxR(w.limitKw, floor), floor)
  }

  function Scores(rows: seq<Row>, w: Window, floors: Floors): (scores: seq<Score>)
    ensures |scores| == |rows|
  {
    if rows == [] then [] else Scores(rows[..|rows| - 1], w, floors) + [ScoreOf(rows[|rows| - 1], w, floors)]
  }

  /** The scored minutes of a window. */
  function ScoresOf(rows: seq<Row>, w: Window, floors: Floors): seq<Score> {
    Scores(ScoredRows(rows, w), w, floors)
  }

  /** From sample i on, everything complies. */
  ghost predicate HoldsFrom(scores: seq<Score>, i: nat) {
    forall k :: i <= k < |scores| ==> scores[k].Complies()
  }

  function OvershootSum(scores: seq<Score>, from: int): real {
    if scores == [] then 0.0 else
      var s := scores[|scores| - 1];
      OvershootSum(scores[..|scores| - 1], from) + if s.ts >= from then MaxR(0.0, s.actual - s.target - TOL_KW) else 0.0
  }

  // ---- the verdict -----------------------------------------------------------------------------

  method ScoreRows(rows: seq<Row>, w: Window, floors: Floors) returns (scores: seq<Score>)
    ensures scores == ScoresOf(rows, w, floors)
  {
    scores := [];
    for i := 0 to |rows|
      invariant scores == ScoresOf(rows[..i], w, floors)
    {
      hide ScoreOf, Inside;
      ghost var before := ScoredRows(rows[..i], w);
      assert rows[..i + 1][..i] == rows[..i];
      assert (before + [rows[i]])[..|before|] == before;
      if Inside(rows[i], w) {
        assert ScoredRows(rows[..i + 1], w) == before + [rows[i]];
        scores := scores + [ScoreOf(rows[i], w, floors)];
      } else {
        assert ScoredRows(rows[..i + 1], w) == before;
      }
    }
    assert rows[..|rows|] == rows;
  }

  /** Scanned backward: where the longest compliant ending starts. */
  method SustainedFrom(scores: seq<Score>) returns (first: Option<nat>)
    ensures first.None? <==> scores == [] || !scores[|scores| - 1].Complies()
    ensures first.Some? ==> BeginsAt(scores, first.value)
  {
    first := None;
    var i := |scores| - 1;
    while i >= 0
      invariant -1 <= i < |scores|
      invariant first == if i == |scores| - 1 then None else Some(i + 1)
      invariant HoldsFrom(scores, i + 1)
    {
      if !scores[i].Complies() {
        break;
      }
      first := Some(i);
      i := i - 1;
    }
  }

  method Extremes(scores: seq<Score>) returns (maxActual: real, maxFloor: real)
    requires scores != []
    ensures (exists s :: s in scores && s.actual == maxActual) && forall s :: s in scores ==> s.actual <= maxActual
    ensures (exists s :: s in scores && s.floor == maxFloor) && forall s :: s in scores ==> s.floor <= maxFloor
  {
    maxActual, maxFloor := scores[0].actual, scores[0].floor;
    for i := 1 to |scores|
      invariant exists s :: s in scores && s.actual == maxActual
      invariant exists s :: s in scores && s.floor == maxFloor
      invariant forall k :: 0 <= k < i ==> scores[k].actual <= maxActual && scores[k].floor <= maxFloor
    {
      maxActual, maxFloor := MaxR(maxActual, scores[i].actual), MaxR(maxFloor, scores[i].floor);
    }
  }

  method Overshoot(scores: seq<Score>, from: int) returns (sum: real)
    ensures sum == OvershootSum(scores, from)
  {
    sum := 0.0;
    for i := 0 to |scores|
      invariant sum == OvershootSum(scores[..i], from)
    {
      assert scores[..i + 1][..i] == scores[..i];
      if scores[i].ts >= from {
        sum := sum + MaxR(0.0, scores[i].actual - scores[i].target - TOL_KW);
      }
    }
    assert scores[..|scores|] == scores;
  }

  /** The window asked something of the household: it came near the limit, could not reach it, or began above it. */
  ghost predicate Engaged(scores: seq<Score>, limit: real)
    requires scores != []
  {
    || (exists s :: s in scores && s.actual >= ENGAGED_FRACTION * limit && s.actual > TOL_KW)
    || (exists s :: s in scores && s.floor > limit)
    || scores[0].actual > limit + TOL_KW
  }

  /** When sustained compliance begins, counted from the start of the window. */
  ghost predicate ComplyTime(scores: seq<Score>, startTs: int, t: Option<int>) {
    match t
    case None => scores == [] || !scores[|scores| - 1].Complies()
    case Some(seconds) => exists i: nat :: BeginsAt(scores, i) && seconds == SecondsIn(scores[i].ts, startTs)
  }

  /** Sustained compliance begins at sample i: it holds from there and not from one sample earlier. */
  ghost predicate BeginsAt(scores: seq<Score>, i: nat) {
    i < |scores| && HoldsFrom(scores, i) && (i > 0 ==> !scores[i - 1].Complies())
  }

  function SecondsIn(ts: int, startTs: int): int { if ts - startTs < 0 then 0 else ts - startTs }

  ghost predicate VerdictOn(scores: seq<Score>, w: Window, v: Verdict)
    requires scores != []
  {
    && v.samples == |scores|
    && (exists s :: s in scores && s.actual == v.maxActual) && (forall s :: s in scores ==> s.actual <= v.maxActual)
    && (exists s :: s in scores && s.floor == v.maxFloor) && (forall s :: s in scores ==> s.floor <= v.maxFloor)
    && v.engaged == Engaged(scores, w.limitKw)
    && ComplyTime(scores, w.startTs, v.timeToComply)
    && v.pass == (v.timeToComply.Some? && v.timeToComply.value <= GRACE_S)
    && v.overshootKwh == OvershootSum(scores, GraceEnd(w)) / 60.0
  }

  method WindowCompliance(rows: seq<Row>, w: Window, floors: Floors) returns (v: Option<Verdict>)
    ensures v.None? <==> ScoresOf(rows, w, floors) == []
    ensures v.Some? ==> VerdictOn(ScoresOf(rows, w, floors), w, v.value)
  {
    hide ScoresOf, OvershootSum, HoldsFrom;
    var scores := ScoreRows(rows, w, floors);
    if scores == [] {
      return None;
    }
    var first := SustainedFrom(scores);
    var timeToComply := None;
    if first.Some? {
      timeToComply := Some(SecondsIn(scores[first.value].ts, w.startTs));
    }
    var maxActual, maxFloor := Extremes(scores);
    var overshoot := Overshoot(scores, GraceEnd(w));
    var engaged := (maxActual >= ENGAGED_FRACTION * w.limitKw && maxActual > TOL_KW)
      || (exists s :: s in scores && s.floor > w.limitKw)
      || scores[0].actual > w.limitKw + TOL_KW;
    v := Some(Verdict(|scores|, maxActual, maxFloor, engaged, timeToComply,
                      timeToComply.Some? && timeToComply.value <= GRACE_S, overshoot / 60.0));
  }

  // ---- what a verdict says ---------------------------------------------------------------------

  ghost predicate Ascending(scores: seq<Score>) {
    forall i, j :: 0 <= i < j < |scores| ==> scores[i].ts < scores[j].ts
  }

  ghost predicate RowsAscend(rows: seq<Row>) {
    forall i, j :: 0 <= i < j < |rows| ==> rows[i].ts < rows[j].ts
  }

  lemma {:induction false} ScoredHas(rows: seq<Row>, w: Window, r: Row)
    ensures r in ScoredRows(rows, w) <==> r in rows && Inside(r, w)
  {
    hide Inside;
    if rows != [] {
      var n := |rows| - 1;
      assert rows == rows[..n] + [rows[n]];
      ScoredHas(rows[..n], w, r);
    }
  }

  lemma {:induction false} ScoredAscend(rows: seq<Row>, w: Window)
    requires RowsAscend(rows)
    ensures RowsAscend(ScoredRows(rows, w))
  {
    hide Inside;
    if rows != [] {
      var front, last := rows[..|rows| - 1], rows[|rows| - 1];
      ScoredAscend(front, w);
      forall r | r in ScoredRows(front, w)
        ensures r.ts < last.ts
      {
        ScoredHas(front, w, r);
      }
    }
  }

  lemma ScoredAreInside(rows: seq<Row>, w: Window)
    ensures forall r :: r in ScoredRows(rows, w) <==> r in rows && Inside(r, w)
    ensures RowsAscend(rows) ==> RowsAscend(ScoredRows(rows, w))
  {
    hide ScoredRows, Inside, RowsAscend;
    forall r
      ensures r in ScoredRows(rows, w) <==> r in rows && Inside(r, w)
    {
      ScoredHas(rows, w, r);
    }
    if RowsAscend(rows) {
      ScoredAscend(rows, w);
    }
  }

  lemma {:induction false} ScoreAt(rows: seq<Row>, w: Window, floors: Floors, k: nat)
    requires k < |rows|
    ensures Scores(rows, w, floors)[k] == ScoreOf(rows[k], w, floors)
  {
    if k < |rows| - 1 {
      ScoreAt(rows[..|rows| - 1], w, floors, k);
    }
  }

  lemma {:induction false} ScoresInside(rows: seq<Row>, w: Window, floors: Floors)
    ensures forall s :: s in ScoresOf(rows, w, floors) ==>
            s.target >= w.limitKw && w.startTs <= s.ts && s.ts + 60 <= w.endTs
  {
    hide ScoredRows, Scores;
    var inside := ScoredRows(rows, w);
    ScoredAreInside(rows, w);
    forall k | 0 <= k < |inside|
      ensures Scores(inside, w, floors)[k] == ScoreOf(inside[k], w, floors) && Inside(inside[k], w)
    {
      ScoreAt(inside, w, floors, k);
      assert inside[k] in inside;
    }
  }

  /** Scores follow the order of the rows. */
  lemma ScoresAscend(rows: seq<Row>, w: Window, floors: Floors)
    requires RowsAscend(rows)
    ensures Ascending(ScoresOf(rows, w, floors))
  {
    hide Scores, ScoredRows;
    var inside := ScoredRows(rows, w);
    ScoredAreInside(rows, w);
    forall k | 0 <= k < |inside|
      ensures Scores(inside, w, floors)[k] == ScoreOf(inside[k], w, floors)
    {
      ScoreAt(inside, w, floors, k);
    }
  }

  lemma {:induction false} OvershootZeroIff(scores: seq<Score>, from: int)
    ensures OvershootSum(scores, from) >= 0.0
    ensures OvershootSum(scores, from) == 0.0 <==> forall s :: s in scores && s.ts >= from ==> s.Complies()
  {
    if scores != [] {
      var n := |scores| - 1;
      OvershootZeroIff(scores[..n], from);
      assert scores == scores[..n] + [scores[n]];
    }
  }

  // ---- the scores and the verdict in plain terms -----------------------------------------------

  /** The row's power in the window's direction against the limit, or against the floor where an import window's
      floor is higher. */
  predicate Scored(r: Row, w: Window, floors: Floors, x: Score) {
    && x.ts == r.ts
    && (w.direction.Import? ==> x.actual == r.importKw && x.floor == if r.ts in floors then floors[r.ts] else 0.0)
    && (w.direction.Export? ==> x.actual == r.exportKw && x.floor == 0.0)
    && x.target >= w.limitKw && x.target >= x.floor && (x.target == w.limitKw || x.target == x.floor)
  }

  /** The scores are exactly those of the minutes that lie wholly inside the window; one complies up to 50 W above
      its target. */
  lemma ScoresIff(rows: seq<Row>, w: Window, floors: Floors, x: Score)
    ensures x in ScoresOf(rows, w, floors) <==>
      exists r :: r in rows && w.startTs <= r.ts && r.ts + 60 <= w.endTs && Scored(r, w, floors, x)
    ensures x.Complies() <==> x.actual - x.target <= 0.05
  {
    hide ScoredRows, Scores, Scored;
    var inside := ScoredRows(rows, w);
    ScoredAreInside(rows, w);
    if x in ScoresOf(rows, w, floors) {
      var k :| 0 <= k < |inside| && Scores(inside, w, floors)[k] == x;
      ScoreAt(inside, w, floors, k);
      ScoredIff(inside[k], w, floors, x);
      assert inside[k] in inside;
    }
    if r :| r in rows && w.startTs <= r.ts && r.ts + 60 <= w.endTs && Scored(r, w, floors, x) {
      assert r in inside;
      var k :| 0 <= k < |inside| && inside[k] == r;
      ScoreAt(inside, w, floors, k);
      ScoredIff(r, w, floors, x);
    }
  }

  lemma ScoredIff(r: Row, w: Window, floors: Floors, x: Score)
    ensures Scored(r, w, floors, x) <==> x == ScoreOf(r, w, floors)
  {
  }

  /** What one more score adds to the overshoot: the power beyond target and tolerance from the deadline on. */
  lemma OvershootGrows(scores: seq<Score>, x: Score, from: int)
    ensures OvershootSum([], from) == 0.0
    ensures OvershootSum(scores + [x], from)
         == OvershootSum(scores, from)
             + if from <= x.ts && x.actual - x.target > 0.05 then x.actual - x.target - 0.05 else 0.0
  {
    assert (scores + [x])[..|scores|] == scores;
  }

  /** The verdict's parts, with the grace period of 300 s and the tolerance of 50 W. */
  lemma VerdictIs(scores: seq<Score>, w: Window, v: Verdict)
    requires scores != [] && VerdictOn(scores, w, v)
    ensures v.samples == |scores| && v.overshootKwh * 60.0 == OvershootSum(scores, w.startTs + 300)
    ensures v.pass <==> v.timeToComply.Some? && v.timeToComply.value <= 300
    ensures v.timeToComply.None? <==> scores[|scores| - 1].actual - scores[|scores| - 1].target > 0.05
    ensures v.timeToComply.Some? ==> v.timeToComply.value >= 0
    ensures v.timeToComply.Some? ==>
      (exists i: nat :: BeginsAt(scores, i)
                        && (w.startTs <= scores[i].ts ==> w.startTs + v.timeToComply.value == scores[i].ts))
    ensures v.engaged <==>
      || (v.maxActual > 0.05 && v.maxActual * 5.0 >= w.limitKw * 4.0)
      || v.maxFloor > w.limitKw
      || scores[0].actual - w.limitKw > 0.05
  {
    hide OvershootSum, HoldsFrom;
    assert v.overshootKwh * 60.0 == OvershootSum(scores, GraceEnd(w));
    if v.timeToComply.Some? {
      EndComplies(scores, w.startTs, v.timeToComply);
    }
  }

  lemma EndComplies(scores: seq<Score>, startTs: int, t: Option<int>)
    requires scores != [] && t.Some? && ComplyTime(scores, startTs, t)
    ensures scores[|scores| - 1].Complies()
  {
  }

  lemma EndingIsLongest(scores: seq<Score>, i: nat, j: nat)
    requires BeginsAt(scores, i) && j < |scores| && HoldsFrom(scores, j)
    ensures i <= j
  {
  }

  /** Compliant from some sample taken by the deadline to the end. */
  ghost predicate HeldFrom(scores: seq<Score>, i: nat, deadline: int) {
    i < |scores| && scores[i].ts <= deadline && HoldsFrom(scores, i)
  }

  /** Compliant from some sample taken by the deadline up to the deadline. */
  ghost predicate ReachedBy(scores: seq<Score>, i: nat, deadline: int) {
    i < |scores| && scores[i].ts <= deadline
    && forall k :: i <= k < |scores| && scores[k].ts < deadline ==> scores[k].Complies()
  }

  /** A pass means exactly: some sample no later than the end of the grace period complies and so does
      every one after it. */
  lemma PassIff(rows: seq<Row>, w: Window, floors: Floors, v: Verdict, deadline: int)
    requires RowsAscend(rows) && deadline == w.startTs + 300
    requires ScoresOf(rows, w, floors) != [] && VerdictOn(ScoresOf(rows, w, floors), w, v)
    ensures v.pass <==> exists i: nat :: HeldFrom(ScoresOf(rows, w, floors), i, deadline)
  {
    hide ScoresOf, VerdictOn, HeldFrom;
    assert deadline == GraceEnd(w);
    ScoresAscend(rows, w, floors);
    PassOn(ScoresOf(rows, w, floors), w, v);
  }

  lemma PassOn(scores: seq<Score>, w: Window, v: Verdict)
    requires scores != [] && Ascending(scores) && VerdictOn(scores, w, v)
    ensures v.pass <==> exists i: nat :: HeldFrom(scores, i, GraceEnd(w))
  {
    hide OvershootSum, Engaged;
    if j: nat :| HeldFrom(scores, j, GraceEnd(w)) {
      assert scores[|scores| - 1].Complies();
      var i: nat :| BeginsAt(scores, i) && v.timeToComply.value == SecondsIn(scores[i].ts, w.startTs);
      EndingIsLongest(scores, i, j);
      assert scores[i].ts <= scores[j].ts;
    }
    if v.pass {
      var i: nat :| BeginsAt(scores, i) && v.timeToComply.value == SecondsIn(scores[i].ts, w.startTs);
      assert HeldFrom(scores, i, GraceEnd(w));
    }
  }

  /** A pass leaves no overshoot after the grace period. No overshoot is a pass exactly when, besides, a sample
      taken by the end of the grace period complies with all after it up to that end. */
  lemma PassLeavesNoOvershoot(rows: seq<Row>, w: Window, floors: Floors, v: Verdict, deadline: int)
    requires RowsAscend(rows) && deadline == w.startTs + 300
    requires ScoresOf(rows, w, floors) != [] && VerdictOn(ScoresOf(rows, w, floors), w, v)
    ensures v.pass <==>
      v.overshootKwh == 0.0 && exists i: nat :: ReachedBy(ScoresOf(rows, w, floors), i, deadline)
  {
    hide ScoresOf, OvershootSum, HeldFrom, ReachedBy, Engaged, ComplyTime;
    var scores := ScoresOf(rows, w, floors);
    ScoresAscend(rows, w, floors);
    PassOn(scores, w, v);
    OvershootZeroIff(scores, deadline);
    assert v.overshootKwh == 0.0 <==> OvershootSum(scores, deadline) == 0.0;
    forall i: nat
      ensures HeldFrom(scores, i, deadline)
         <==> ReachedBy(scores, i, deadline) && forall s :: s in scores && s.ts >= deadline ==> s.Complies()
    {
      HeldIsReached(scores, i, deadline);
    }
  }

  lemma HeldIsReached(scores: seq<Score>, i: nat, deadline: int)
    requires Ascending(scores)
    ensures HeldFrom(scores, i, deadline)
       <==> ReachedBy(scores, i, deadline) && forall s :: s in scores && s.ts >= deadline ==> s.Complies()
  {
    if i < |scores| && scores[i].ts <= deadline {
      forall k | 0 <= k < i
        ensures scores[k].ts < deadline
      {
      }
      assert forall k :: 0 <= k < |scores| ==> scores[k] in scores;
    }
  }

  // ---- a looser window never turns a pass into a fail ------------------------------------------

  /** The same window with a limit no lower. */
  predicate Looser(w: Window, u: Window) {
    u == w.(limitKw := u.limitKw) && w.limitKw <= u.limitKw
  }

  /** Nobody's floor is lower. */
  ghost predicate NoFloorLower(floors: Floors, higher: Floors, w: Window) {
    forall ts :: FloorAt(floors, ts, w) <= FloorAt(higher, ts, w)
  }

  /** Sample by sample the same power against a target no lower. */
  ghost predicate EasierScores(a: seq<Score>, b: seq<Score>) {
    |a| == |b| && forall k :: 0 <= k < |a| ==>
        a[k].ts == b[k].ts && a[k].actual == b[k].actual && a[k].target <= b[k].target
  }

  lemma {:induction false} EasierRows(rows: seq<Row>, w: Window, u: Window)
    requires Looser(w, u)
    ensures ScoredRows(rows, w) == ScoredRows(rows, u)
  {
    if rows != [] {
      EasierRows(rows[..|rows| - 1], w, u);
    }
  }

  lemma LooserIsEasier(rows: seq<Row>, w: Window, u: Window, floors: Floors, higher: Floors)
    requires Looser(w, u) && NoFloorLower(floors, higher, w)
    ensures EasierScores(ScoresOf(rows, w, floors), ScoresOf(rows, u, higher))
  {
    hide Scores, ScoredRows;
    EasierRows(rows, w, u);
    var inside := ScoredRows(rows, w);
    forall k | 0 <= k < |inside|
      ensures (var a, b := Scores(inside, w, floors)[k], Scores(inside, u, higher)[k];
               a.ts == b.ts && a.actual == b.actual && a.target <= b.target)
    {
      ScoreAt(inside, w, floors, k);
      ScoreAt(inside, u, higher, k);
      assert FloorAt(floors, inside[k].ts, w) <= FloorAt(higher, inside[k].ts, w);
    }
  }

  lemma {:induction false} OvershootShrinks(a: seq<Score>, b: seq<Score>, from: int)
    requires EasierScores(a, b)
    ensures OvershootSum(b, from) <= OvershootSum(a, from)
  {
    if a != [] {
      OvershootShrinks(a[..|a| - 1], b[..|b| - 1], from);
    }
  }

  /** Raising the limit or any floor keeps a pass a pass, never lengthens the time to comply and never adds
      overshoot. */
  lemma LooserNeverFails(rows: seq<Row>, w: Window, u: Window, floors: Floors, higher: Floors, v: Verdict, x: Verdict)
    requires RowsAscend(rows) && Looser(w, u) && NoFloorLower(floors, higher, w)
    requires ScoresOf(rows, w, floors) != [] && VerdictOn(ScoresOf(rows, w, floors), w, v)
    requires ScoresOf(rows, u, higher) != [] && VerdictOn(ScoresOf(rows, u, higher), u, x)
    ensures v.pass ==> x.pass
    ensures v.timeToComply.Some? ==> x.timeToComply.Some? && x.timeToComply.value <= v.timeToComply.value
    ensures x.overshootKwh <= v.overshootKwh
  {
    hide ScoresOf, OvershootSum, Engaged, ComplyTime, EasierScores, NoFloorLower;
    var a, b := ScoresOf(rows, w, floors), ScoresOf(rows, u, higher);
    LooserIsEasier(rows, w, u, floors, higher);
    ScoresAscend(rows, w, floors);
    OvershootShrinks(a, b, GraceEnd(w));
    EasierIsSooner(a, b, w.startTs, v.timeToComply, x.timeToComply);
  }

  lemma EasierIsSooner(a: seq<Score>, b: seq<Score>, startTs: int, t: Option<int>, r: Option<int>)
    requires a != [] && EasierScores(a, b) && Ascending(a) && ComplyTime(a, startTs, t) && ComplyTime(b, startTs, r)
    ensures t.Some? ==> r.Some? && r.value <= t.value
  {
    if t.Some? {
      var i: nat :| BeginsAt(a, i) && t.value == SecondsIn(a[i].ts, startTs);
      EasierHolds(a, b, i);
      assert b[|b| - 1].Complies();
      var j: nat :| BeginsAt(b, j) && r.value == SecondsIn(b[j].ts, startTs);
      EndingIsLongest(b, j, i);
      assert a[j].ts <= a[i].ts;
    }
  }

  lemma EasierHolds(a: seq<Score>, b: seq<Score>, i: nat)
    requires EasierScores(a, b) && HoldsFrom(a, i)
    ensures HoldsFrom(b, i)
  {
    forall k | i <= k < |b|
      ensures b[k].Complies()
    {
      assert a[k].Complies();
    }
  }

  /** A window that asked nothing of the household has no violating sample, for a limit of zero or more. */
  lemma UnengagedComplies(rows: seq<Row>, w: Window, floors: Floors, v: Verdict)
    requires ScoresOf(rows, w, floors) != [] && VerdictOn(ScoresOf(rows, w, floors), w, v)
    requires w.limitKw >= 0.0 && !v.engaged
    ensures HoldsFrom(ScoresOf(rows, w, floors), 0) && v.overshootKwh == 0.0
  {
    hide ScoresOf, OvershootSum, ComplyTime;
    var scores := ScoresOf(rows, w, floors);
    ScoresInside(rows, w, floors);
    OvershootZeroIff(scores, GraceEnd(w));
    forall s | s in scores
      ensures s.Complies()
    {
      AboveIsEngaging(s.actual, w.limitKw);
    }
  }

  lemma AboveIsEngaging(actual: real, limit: real)
    requires limit >= 0.0
    ensures actual > limit + TOL_KW ==> actual >= ENGAGED_FRACTION * limit && actual > TOL_KW
  {
  }

  // ---- utilisation -----------------------------------------------------------------------------

  datatype Utilisation = Utilisation(utilisation: real, unusedKwh: real)

  /** A sample's minute from its own run's start. */
  function MinuteIndex(ts: int, runStart: int): int { (ts - runStart) / 60 }

  /** Import allowed in a minute the baseline also has. */
  function AllowedAt(r: Row, baseline: map<int, real>, w: Window, runStart: int): Option<real> {
    var m := MinuteIndex(r.ts, runStart);
    if m in baseline then Some(MinR(baseline[m], w.limitKw)) else None
  }

  /** What is summed over the paired minutes. */
  datatype Part = Actual | Allowed | Unused | Excess

  function PartOf(part: Part, actual: real, allowed: real): real {
    match part
    case Actual => actual
    case Allowed => allowed
    case Unused => MaxR(0.0, allowed - actual)
    case Excess => MaxR(0.0, actual - allowed)
  }

  function PartSum(rows: seq<Row>, part: Part, baseline: map<int, real>, w: Window, runStart: int): real {
    if rows == [] then 0.0 else
      var r := rows[|rows| - 1];
      var allowed := AllowedAt(r, baseline, w, runStart);
      PartSum(rows[..|rows| - 1], part, baseline, w, runStart)
        + if Inside(r, w) && allowed.Some? then PartOf(part, r.importKw, allowed.value) else 0.0
  }

  /** What one more minute adds to the sums: nothing unless it lies inside the window and the baseline has its
      minute; then its import against the lower of baseline and limit. */
  lemma PartsGrow(rows: seq<Row>, r: Row, baseline: map<int, real>, w: Window, runStart: int, m: int)
    requires runStart + m * 60 <= r.ts < runStart + (m + 1) * 60
    ensures forall part :: PartSum([], part, baseline, w, runStart) == 0.0
    ensures (var counts := w.startTs <= r.ts && r.ts + 60 <= w.endTs && m in baseline;
             var allowed := if m in baseline && baseline[m] < w.limitKw then baseline[m] else w.limitKw;
             var spare, more := allowed - r.importKw, rows + [r];
      && PartSum(more, Actual, baseline, w, runStart)
         == PartSum(rows, Actual, baseline, w, runStart) + (if counts then r.importKw else 0.0)
      && PartSum(more, Allowed, baseline, w, runStart)
         == PartSum(rows, Allowed, baseline, w, runStart) + (if counts then allowed else 0.0)
      && PartSum(more, Unused, baseline, w, runStart)
         == PartSum(rows, Unused, baseline, w, runStart) + (if counts && spare > 0.0 then spare else 0.0)
      && PartSum(more, Excess, baseline, w, runStart)
         == PartSum(rows, Excess, baseline, w, runStart) + (if counts && spare < 0.0 then -spare else 0.0))
  {
    assert (rows + [r])[..|rows|] == rows;
    assert MinuteIndex(r.ts, runStart) == m;
  }

  method WindowUtilisation(rows: seq<Row>, baseline: map<int, real>, w: Window,
        runStart: int) returns (u: Option<Utilisation>)
    ensures u.None? <==> w.direction.Export? || baseline == map[]
                         || PartSum(rows, Allowed, baseline, w, runStart) / 60.0 < 0.01
    ensures u.Some? ==>
      PartSum(rows, Allowed, baseline, w, runStart) > 0.0
      && u.value.utilisation
         == PartSum(rows, Actual, baseline, w, runStart) / PartSum(rows, Allowed, baseline, w, runStart)
      && u.value.unusedKwh == PartSum(rows, Unused, baseline, w, runStart) / 60.0
  {
    if w.direction.Export? || baseline == map[] {
      return None;
    }
    var actual, allowed, unused := 0.0, 0.0, 0.0;
    for i := 0 to |rows|
      invariant actual == PartSum(rows[..i], Actual, baseline, w, runStart)
      invariant allowed == PartSum(rows[..i], Allowed, baseline, w, runStart)
      invariant unused == PartSum(rows[..i], Unused, baseline, w, runStart)
    {
      assert rows[..i + 1][..i] == rows[..i];
      var m := MinuteIndex(rows[i].ts, runStart);
      if Inside(rows[i], w) && m in baseline {
        var a := MinR(baseline[m], w.limitKw);
        actual, allowed := actual + rows[i].importKw, allowed + a;
        unused := unused + MaxR(0.0, a - rows[i].importKw);
      }
    }
    assert rows[..|rows|] == rows;
    if allowed / 60.0 < MIN_ALLOWED_KWH {
      return None;
    }
    u := Some(Utilisation(actual / allowed, unused / 60.0));
  }

  /** Energy balances: what was used plus what was left unused is what was allowed plus the excess. */
  lemma {:induction false} EnergyBalances(rows: seq<Row>, baseline: map<int, real>, w: Window, runStart: int)
    ensures PartSum(rows, Actual, baseline, w, runStart) + PartSum(rows, Unused, baseline, w, runStart)
         == PartSum(rows, Allowed, baseline, w, runStart) + PartSum(rows, Excess, baseline, w, runStart)
    ensures PartSum(rows, Unused, baseline, w, runStart) >= 0.0 && PartSum(rows, Excess, baseline, w, runStart) >= 0.0
  {
    if rows != [] {
      EnergyBalances(rows[..|rows| - 1], baseline, w, runStart);
    }
  }

  /** Utilisation exceeds 1 exactly when the excess exceeds the unused headroom. */
  lemma OverUsedIff(rows: seq<Row>, baseline: map<int, real>, w: Window, runStart: int)
    requires PartSum(rows, Allowed, baseline, w, runStart) > 0.0
    ensures (var ratio := PartSum(rows, Actual, baseline, w, runStart) / PartSum(rows, Allowed, baseline, w, runStart);
             ratio > 1.0
             <==> PartSum(rows, Excess, baseline, w, runStart) > PartSum(rows, Unused, baseline, w, runStart))
  {
    hide PartSum;
    EnergyBalances(rows, baseline, w, runStart);
    RatioAboveOne(PartSum(rows, Actual, baseline, w, runStart), PartSum(rows, Allowed, baseline, w, runStart));
  }

  lemma RatioAboveOne(a: real, b: real)
    requires b > 0.0
    ensures a / b > 1.0 <==> a > b
  {
    var q := a / b;
    assert q * b == a;
    assert (q - 1.0) * b == a - b;
  }

  /** A window that allows nothing has no utilisation. */
  lemma {:induction false} NothingAllowed(rows: seq<Row>, baseline: map<int, real>, w: Window, runStart: int)
    requires w.limitKw <= 0.0
    ensures PartSum(rows, Allowed, baseline, w, runStart) <= 0.0
    ensures PartSum(rows, Allowed, baseline, w, runStart) / 60.0 < MIN_ALLOWED_KWH
  {
    if rows != [] {
      NothingAllowed(rows[..|rows| - 1], baseline, w, runStart);
    }
  }
}
