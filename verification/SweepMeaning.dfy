/** What the sweep computes: read at any instant, its segments give the winner of the overlap at that
    instant, and as a list they are the canonical split of time. */
module SweepMeaning {
  import opened Options
  import opened Numbers
  import opened EventPriority
  import opened Sorting

  // ---- the pointwise meaning of overlap --------------------------------------------------------

  /** Offer j of candidate i competes for payload type p at t. */
  ghost predicate Bids(cands: seq<Candidate>, t: Instant, p: string, i: nat, j: nat) {
    i < |cands| && j < |cands[i].offers| && cands[i].Covers(t) && cands[i].offers[j].payloadType == p
  }

  /** Ranking of offers: by the event's rank, then by the candidate's place, then by the offer's. */
  predicate NotAbove(cands: seq<Candidate>, i: nat, j: nat, i': nat, j': nat)
    requires i < |cands| && i' < |cands|
  {
    || cands[i].rank < cands[i'].rank
    || (cands[i].rank == cands[i'].rank && (i < i' || (i == i' && j <= j')))
  }

  ghost predicate Wins(cands: seq<Candidate>, t: Instant, p: string, i: nat, j: nat) {
    Bids(cands, t, p, i, j) && forall i': nat, j': nat :: Bids(cands, t, p, i', j') ==> NotAbove(cands, i', j', i, j)
  }

  /** The first window covering t, if any. */
  function Covering(segments: seq<Segment>, t: Instant): Option<Segment> {
    if segments == [] then None
    else if segments[0].Covers(t) then Some(segments[0])
    else Covering(segments[1..], t)
  }

  /** What a list of segments says about p at t. */
  function WinnerAt(segments: seq<Segment>, t: Instant, p: string): Option<Winner> {
    var s := Covering(segments, t);
    if s.Some? && p in s.value.winners then Some(s.value.winners[p]) else None
  }

  // ---- the boundaries --------------------------------------------------------------------------

  lemma {:induction false} EdgesAre(cands: seq<Candidate>, x: Instant)
    ensures x in Edges(cands) <==> exists c :: c in cands && (x == c.start || x == c.end)
  {
    if cands != [] {
      var front, last := cands[..|cands| - 1], cands[|cands| - 1];
      assert cands == front + [last];
      EdgesAre(front, x);
      assert Edges(cands) == Edges(front) + [last.start, last.end];
      if x == last.start || x == last.end {
        assert last in cands;
      }
    }
  }

  lemma InstantLeIsTotal()
    ensures TotalOrder(InstantLe)
  {
  }

  lemma BoundsAre(cands: seq<Candidate>)
    ensures Ascends(Bounds(cands))
    ensures forall x :: x in Bounds(cands) <==> exists c :: c in cands && (x == c.start || x == c.end)
  {
    hide Edges, Sort, Dedup, Sorted;
    var edges := Edges(cands);
    InstantLeIsTotal();
    SortSorts(edges, InstantLe);
    DedupSorted(Sort(edges, InstantLe), InstantLe);
    forall x
      ensures x in Bounds(cands) <==> exists c :: c in cands && (x == c.start || x == c.end)
    {
      EdgesAre(cands, x);
      SameElements(edges, Sort(edges, InstantLe), x);
    }
  }

  // ---- one stretch -----------------------------------------------------------------------------

  function LastOffer(c: Candidate, n: nat, p: string): (r: Option<nat>)
    requires n <= |c.offers|
    ensures r.Some? ==> r.value < n && c.offers[r.value].payloadType == p
  {
    if n == 0 then None
    else if c.offers[n - 1].payloadType == p then Some(n - 1)
    else LastOffer(c, n - 1, p)
  }

  lemma {:induction false} LastOfferIsLast(c: Candidate, n: nat, p: string, j: nat)
    requires n <= |c.offers| && j < n && c.offers[j].payloadType == p
    ensures LastOffer(c, n, p).Some? && j <= LastOffer(c, n, p).value
  {
    if c.offers[n - 1].payloadType != p {
      LastOfferIsLast(c, n - 1, p, j);
    }
  }

  predicate Displaces(held: map<string, Held>, c: Candidate, p: string) {
    p !in held || held[p].rank <= c.rank
  }

  lemma {:induction false} HoldOffersAt(held: map<string, Held>, c: Candidate, n: nat, p: string)
    requires n <= |c.offers|
    ensures var r := HoldOffers(held, c, n);
            var last := LastOffer(c, n, p);
            if last.Some? && Displaces(held, c, p) then p in r && r[p] == Held(c.rank, WinnerOf(c, last.value))
            else (p in r <==> p in held) && (p in held ==> r[p] == held[p])
  {
    if n > 0 {
      HoldOffersAt(held, c, n - 1, p);
    }
  }

  datatype Bid = Bid(i: nat, j: nat)

  function TopBid(cands: seq<Candidate>, n: nat, start: Instant, end: Instant, p: string): (r: Option<Bid>)
    requires n <= |cands|
    ensures r.Some? ==> r.value.i < n && r.value.j < |cands[r.value.i].offers|
  {
    if n == 0 then None else
      var before := TopBid(cands, n - 1, start, end, p);
      var last := LastOffer(cands[n - 1], |cands[n - 1].offers|, p);
      if cands[n - 1].Spans(start, end) && last.Some?
         && (before.None? || cands[before.value.i].rank <= cands[n - 1].rank)
      then Some(Bid(n - 1, last.value))
      else before
  }

  lemma {:induction false} HeldIsTop(cands: seq<Candidate>, n: nat, start: Instant, end: Instant, p: string)
    requires n <= |cands|
    ensures var held := HoldAll(cands, n, start, end);
            var top := TopBid(cands, n, start, end, p);
            (p in held <==> top.Some?)
            && (top.Some? ==> held[p] == Held(cands[top.value.i].rank, WinnerOf(cands[top.value.i], top.value.j)))
  {
    if n > 0 {
      HeldIsTop(cands, n - 1, start, end, p);
      HoldOffersAt(HoldAll(cands, n - 1, start, end), cands[n - 1], |cands[n - 1].offers|, p);
    }
  }

  ghost predicate BidsOn(cands: seq<Candidate>, n: nat, start: Instant, end: Instant, p: string, i: nat, j: nat) {
    i < n <= |cands| && j < |cands[i].offers| && cands[i].Spans(start, end) && cands[i].offers[j].payloadType == p
  }

  lemma {:induction false} TopIsTop(cands: seq<Candidate>, n: nat, start: Instant, end: Instant, p: string, i: nat,
        j: nat)
    requires BidsOn(cands, n, start, end, p, i, j)
    ensures var top := TopBid(cands, n, start, end, p);
            top.Some? && NotAbove(cands, i, j, top.value.i, top.value.j)
  {
    if i == n - 1 {
      LastOfferIsLast(cands[i], |cands[i].offers|, p, j);
    } else {
      TopIsTop(cands, n - 1, start, end, p, i, j);
    }
  }

  lemma {:induction false} TopBidsOn(cands: seq<Candidate>, n: nat, start: Instant, end: Instant, p: string)
    requires n <= |cands| && TopBid(cands, n, start, end, p).Some?
    ensures var top := TopBid(cands, n, start, end, p).value;
            BidsOn(cands, n, start, end, p, top.i, top.j)
  {
    if n > 0 && TopBid(cands, n, start, end, p) == TopBid(cands, n - 1, start, end, p) {
      TopBidsOn(cands, n - 1, start, end, p);
    }
  }

  // ---- the list of segments --------------------------------------------------------------------

  /** Segments in time order, none empty, none overlapping, none without a winner. */
  ghost predicate InOrder(segments: seq<Segment>) {
    && (forall k :: 0 <= k < |segments| ==> segments[k].start < segments[k].end && segments[k].winners != map[])
    && (forall k, l :: 0 <= k < l < |segments| ==> segments[k].end <= segments[l].start)
  }

  function StretchSegment(cands: seq<Candidate>, bounds: seq<Instant>, b: nat): Segment
    requires b + 1 < |bounds|
  {
    Segment(bounds[b], bounds[b + 1], WinnersOf(HoldAll(cands, |cands|, bounds[b], bounds[b + 1])))
  }

  ghost predicate IsStretch(cands: seq<Candidate>, bounds: seq<Instant>, s: Segment, b: nat) {
    b + 1 < |bounds| && s == StretchSegment(cands, bounds, b)
  }

  lemma {:induction false} SweepInOrder(cands: seq<Candidate>, bounds: seq<Instant>)
    requires Ascends(bounds)
    ensures InOrder(Sweep(cands, bounds))
    ensures bounds != [] ==> forall s :: s in Sweep(cands, bounds) ==> s.end <= bounds[|bounds| - 1]
    ensures |Sweep(cands, bounds)| <= if bounds == [] then 0 else |bounds| - 1
  {
    hide HoldAll;
    if |bounds| >= 2 {
      var front := bounds[..|bounds| - 1];
      SweepInOrder(cands, front);
      var start, end := bounds[|bounds| - 2], bounds[|bounds| - 1];
      var held := HoldAll(cands, |cands|, start, end);
      if held.Keys != {} {
        var p :| p in held;
        assert p in WinnersOf(held);
        var before := Sweep(cands, front);
        assert forall k :: 0 <= k < |before| ==> before[k] in before;
        assert Sweep(cands, bounds) == before + [Segment(start, end, WinnersOf(held))];
      }
    }
  }

  lemma SweepSnoc(cands: seq<Candidate>, bounds: seq<Instant>, n: nat)
    requires |bounds| == n + 1 && n >= 1
    ensures var last := StretchSegment(cands, bounds, n - 1);
            Sweep(cands, bounds) == Sweep(cands, bounds[..n]) + if last.winners == map[] then [] else [last]
  {
    var held := HoldAll(cands, |cands|, bounds[n - 1], bounds[n]);
    assert WinnersOf(held).Keys == held.Keys;
    assert WinnersOf(held) == map[] <==> held.Keys == {};
  }

  lemma {:induction false} SweepElements(cands: seq<Candidate>, bounds: seq<Instant>, s: Segment)
    ensures s in Sweep(cands, bounds) <==>
            exists b: nat :: IsStretch(cands, bounds, s, b) && s.winners != map[]
  {
    hide HoldAll, Sweep;
    if |bounds| >= 2 {
      var n := |bounds| - 1;
      SweepElements(cands, bounds[..n], s);
      SweepSnoc(cands, bounds, n);
      forall b: nat
        ensures IsStretch(cands, bounds, s, b) <==>
                IsStretch(cands, bounds[..n], s, b) || (b == n - 1 && s == StretchSegment(cands, bounds, b))
      {
      }
    } else {
      NothingSwept(cands, bounds);
    }
  }

  lemma NothingSwept(cands: seq<Candidate>, bounds: seq<Instant>)
    requires |bounds| < 2
    ensures Sweep(cands, bounds) == []
  {
  }

  lemma {:induction false} CoveringFound(segments: seq<Segment>, t: Instant, s: Segment)
    requires InOrder(segments) && s in segments && s.Covers(t)
    ensures Covering(segments, t) == Some(s)
  {
    var k :| 0 <= k < |segments| && segments[k] == s;
    assert k > 0 ==> segments[0].end <= segments[k].start;
    if !segments[0].Covers(t) {
      assert segments == [segments[0]] + segments[1..];
      CoveringFound(segments[1..], t, s);
    }
  }

  lemma {:induction false} CoveringCovers(segments: seq<Segment>, t: Instant)
    ensures Covering(segments, t).Some? ==>
            Covering(segments, t).value in segments && Covering(segments, t).value.Covers(t)
  {
    if segments != [] && !segments[0].Covers(t) {
      CoveringCovers(segments[1..], t);
    }
  }

  // ---- the theorem -----------------------------------------------------------------------------

  /** The stretch of boundaries around an instant some candidate covers. */
  lemma {:induction false} StretchAround(bounds: seq<Instant>, t: Instant) returns (b: nat)
    requires |bounds| >= 2 && bounds[0] <= t < bounds[|bounds| - 1]
    ensures b + 1 < |bounds| && bounds[b] <= t < bounds[b + 1]
  {
    if t < bounds[1] {
      b := 0;
    } else {
      b := StretchAround(bounds[1..], t);
      b := b + 1;
    }
  }

  /** No candidate starts or ends inside a stretch, so it spans the stretch iff it covers any instant
      of it. */
  lemma SpansIffCovers(cands: seq<Candidate>, b: nat, t: Instant, i: nat)
    requires b + 1 < |Bounds(cands)| && Bounds(cands)[b] <= t < Bounds(cands)[b + 1] && i < |cands|
    ensures cands[i].Spans(Bounds(cands)[b], Bounds(cands)[b + 1]) <==> cands[i].Covers(t)
  {
    var bounds := Bounds(cands);
    BoundsAre(cands);
    assert cands[i] in cands;
    assert cands[i].start in bounds && cands[i].end in bounds;
    var s :| 0 <= s < |bounds| && bounds[s] == cands[i].start;
    var e :| 0 <= e < |bounds| && bounds[e] == cands[i].end;
    if s > b {
      assert bounds[s] >= bounds[b + 1];
    }
    if e <= b {
      assert bounds[e] <= bounds[b];
    }
  }

  /** On the stretch around t, what is held for p is the winner at t. */
  lemma StretchWinner(cands: seq<Candidate>, b: nat, t: Instant, p: string)
    requires b + 1 < |Bounds(cands)| && Bounds(cands)[b] <= t < Bounds(cands)[b + 1]
    ensures var s := StretchSegment(cands, Bounds(cands), b);
      && (p in s.winners <==> exists i: nat, j: nat :: Bids(cands, t, p, i, j))
      && (p in s.winners ==> exists i: nat, j: nat :: Wins(cands, t, p, i, j) && s.winners[p] == WinnerOf(cands[i], j))
  {
    var start, end := Bounds(cands)[b], Bounds(cands)[b + 1];
    var n := |cands|;
    HeldIsTop(cands, n, start, end, p);
    var top := TopBid(cands, n, start, end, p);
    forall i: nat, j: nat | Bids(cands, t, p, i, j)
      ensures top.Some? && NotAbove(cands, i, j, top.value.i, top.value.j)
    {
      SpansIffCovers(cands, b, t, i);
      TopIsTop(cands, n, start, end, p, i, j);
    }
    if top.Some? {
      TopBidsOn(cands, n, start, end, p);
      SpansIffCovers(cands, b, t, top.value.i);
      assert Bids(cands, t, p, top.value.i, top.value.j);
      assert Wins(cands, t, p, top.value.i, top.value.j);
    }
  }

  /** The sweep equals the pointwise rule. At every instant, for every payload type, the segments name
      a winner exactly when some offer competes, and it is the offer no other one ranks above. */
  lemma SweepIsPointwise(cands: seq<Candidate>, t: Instant, p: string, w: Winner)
    ensures WinnerAt(Segments(cands), t, p) == Some(w) <==>
            exists i: nat, j: nat :: Wins(cands, t, p, i, j) && w == WinnerOf(cands[i], j)
    ensures WinnerAt(Segments(cands), t, p).None? <==> !exists i: nat, j: nat :: Bids(cands, t, p, i, j)
  {
    var bounds, segments := Bounds(cands), Segments(cands);
    BoundsAre(cands);
    SweepInOrder(cands, bounds);
    CoveringCovers(segments, t);
    if Covering(segments, t).Some? {
      var s := Covering(segments, t).value;
      SweepElements(cands, bounds, s);
      var b: nat :| IsStretch(cands, bounds, s, b);
      StretchWinner(cands, b, t, p);
    } else {
      NoBidsOutside(cands, t, p);
    }
  }

  lemma NoBidsOutside(cands: seq<Candidate>, t: Instant, p: string)
    requires Covering(Segments(cands), t).None?
    ensures !exists i: nat, j: nat :: Bids(cands, t, p, i, j)
  {
    if i: nat, j: nat :| Bids(cands, t, p, i, j) {
      var s := BidIsCovered(cands, t, p, i, j);
    }
  }

  lemma BidIsCovered(cands: seq<Candidate>, t: Instant, p: string, i: nat, j: nat) returns (s: Segment)
    requires Bids(cands, t, p, i, j)
    ensures Covering(Segments(cands), t) == Some(s)
  {
    hide HoldAll, Bounds, Covering;
    var bounds := Bounds(cands);
    var b := StretchAroundBid(cands, t, i);
    s := StretchSegment(cands, bounds, b);
    StretchWinner(cands, b, t, p);
    assert p in s.winners;
    assert IsStretch(cands, bounds, s, b);
    SweepElements(cands, bounds, s);
    BoundsAre(cands);
    SweepInOrder(cands, bounds);
    CoveringFound(Segments(cands), t, s);
  }

  lemma StretchAroundBid(cands: seq<Candidate>, t: Instant, i: nat) returns (b: nat)
    requires i < |cands| && cands[i].Covers(t)
    ensures b + 1 < |Bounds(cands)| && Bounds(cands)[b] <= t < Bounds(cands)[b + 1]
  {
    hide Bounds;
    var bounds := Bounds(cands);
    BoundsAre(cands);
    assert cands[i] in cands;
    var from := EdgeAt(bounds, cands[i].start);
    var to := EdgeAt(bounds, cands[i].end);
    assert from < to;
    b := StretchAround(bounds[from..to + 1], t);
    b := from + b;
  }

  lemma EdgeAt(bounds: seq<Instant>, x: Instant) returns (k: nat)
    requires x in bounds
    ensures k < |bounds| && bounds[k] == x
  {
    k :| 0 <= k < |bounds| && bounds[k] == x;
  }

  // ---- canonicity ------------------------------------------------------------------------------

  /** Segments come out ordered, disjoint and non-empty, at most 2n - 1 of them for n candidates. */
  lemma SegmentsAreCanonical(cands: seq<Candidate>)
    ensures InOrder(Segments(cands))
    ensures |Segments(cands)| <= if cands == [] then 0 else 2 * |cands| - 1
  {
    BoundsAre(cands);
    SweepInOrder(cands, Bounds(cands));
  }

  ghost predicate Disjoint(cands: seq<Candidate>) {
    forall i, k :: 0 <= i < k < |cands| ==> cands[i].end <= cands[k].start || cands[k].end <= cands[i].start
  }

  /** The winners a candidate alone would give: the last offer of each type. */
  ghost predicate CarriesOwn(s: Segment, c: Candidate) {
    && s.start == c.start && s.end == c.end
    && (forall p :: p in s.winners <==> exists j :: 0 <= j < |c.offers| && c.offers[j].payloadType == p)
    && (forall p :: p in s.winners ==> LastOffer(c, |c.offers|, p).Some?
                                       && s.winners[p] == WinnerOf(c, LastOffer(c, |c.offers|, p).value))
  }

  /** Non-empty, carrying something, and pairwise apart. */
  ghost predicate Apart(cands: seq<Candidate>) {
    Disjoint(cands) && forall i :: 0 <= i < |cands| ==> cands[i].start < cands[i].end && cands[i].offers != []
  }

  lemma AloneAt(cands: seq<Candidate>, i: nat, k: nat, t: Instant)
    requires Apart(cands) && i < |cands| && k < |cands| && cands[i].Covers(t) && cands[k].Covers(t)
    ensures i == k
  {
  }

  /** Between apart candidates, the boundary after a candidate's start is its own end. */
  lemma OwnStretch(cands: seq<Candidate>, i: nat) returns (b: nat)
    requires Apart(cands) && i < |cands|
    ensures b + 1 < |Bounds(cands)| && Bounds(cands)[b] == cands[i].start && Bounds(cands)[b + 1] == cands[i].end
  {
    var bounds := Bounds(cands);
    BoundsAre(cands);
    assert cands[i] in cands;
    b := EdgeAt(bounds, cands[i].start);
    var e := EdgeAt(bounds, cands[i].end);
    assert b < e;
    assert bounds[b + 1] in bounds;
    NoEdgeInside(cands, i, bounds[b + 1]);
  }

  lemma NoEdgeInside(cands: seq<Candidate>, i: nat, x: Instant)
    requires Apart(cands) && i < |cands| && x in Bounds(cands)
    ensures x <= cands[i].start || cands[i].end <= x
  {
    BoundsAre(cands);
    var c :| c in cands && (x == c.start || x == c.end);
    var k :| 0 <= k < |cands| && cands[k] == c;
    assert cands[k].start < cands[k].end;
  }

  lemma OwnSegment(cands: seq<Candidate>, i: nat) returns (s: Segment)
    requires Apart(cands) && i < |cands|
    ensures s in Segments(cands) && CarriesOwn(s, cands[i])
  {
    hide HoldAll, Bounds;
    var c, bounds := cands[i], Bounds(cands);
    var b := OwnStretch(cands, i);
    s := StretchSegment(cands, bounds, b);
    forall p
      ensures p in s.winners <==> exists j :: 0 <= j < |c.offers| && c.offers[j].payloadType == p
      ensures p in s.winners ==> LastOffer(c, |c.offers|, p).Some?
                                 && s.winners[p] == WinnerOf(c, LastOffer(c, |c.offers|, p).value)
    {
      StretchWinner(cands, b, c.start, p);
      if p in s.winners {
        var k: nat, j: nat :| Wins(cands, c.start, p, k, j) && s.winners[p] == WinnerOf(cands[k], j);
        AloneAt(cands, i, k, c.start);
        LastOfferIsLast(c, |c.offers|, p, j);
        var last := LastOffer(c, |c.offers|, p).value;
        assert Bids(cands, c.start, p, i, last);
      }
      if j :| 0 <= j < |c.offers| && c.offers[j].payloadType == p {
        assert Bids(cands, c.start, p, i, j);
      }
    }
    assert c.offers[0].payloadType in s.winners;
    SweepElements(cands, bounds, s);
    assert IsStretch(cands, bounds, s, b);
  }

  lemma OwnCandidate(cands: seq<Candidate>, s: Segment) returns (i: nat)
    requires Apart(cands) && s in Segments(cands)
    ensures i < |cands| && CarriesOwn(s, cands[i])
  {
    var bounds := Bounds(cands);
    BoundsAre(cands);
    SweepInOrder(cands, bounds);
    SweepElements(cands, bounds, s);
    var b: nat :| IsStretch(cands, bounds, s, b) && s.winners != map[];
    var p :| p in s.winners;
    StretchWinner(cands, b, s.start, p);
    var k: nat, j: nat :| Wins(cands, s.start, p, k, j);
    i := k;
    var own := OwnSegment(cands, i);
    CoveringFound(Segments(cands), s.start, s);
    CoveringFound(Segments(cands), s.start, own);
  }

  /** The starts of a list of windows that are pairwise apart are as many as the windows. */
  lemma {:induction false} DistinctCount(xs: seq<Instant>)
    requires forall i, j :: 0 <= i < j < |xs| ==> xs[i] != xs[j]
    ensures |set x | x in xs| == |xs|
  {
    if xs != [] {
      var front, last := xs[..|xs| - 1], xs[|xs| - 1];
      DistinctCount(front);
      assert (set x | x in xs) == (set x | x in front) + {last};
    }
  }

  /** Input without overlaps comes out unchanged: as many segments as candidates, each with the window
      and the payloads of its own candidate, in time order (`SegmentsAreCanonical`), gaps kept. */
  lemma ApartComeOutUnchanged(cands: seq<Candidate>)
    requires Apart(cands)
    ensures |Segments(cands)| == |cands|
    ensures forall i :: 0 <= i < |cands| ==> exists s :: s in Segments(cands) && CarriesOwn(s, cands[i])
    ensures forall s :: s in Segments(cands) ==> exists i :: 0 <= i < |cands| && CarriesOwn(s, cands[i])
  {
    var segments := Segments(cands);
    AsManySegments(cands);
    forall i | 0 <= i < |cands|
      ensures exists s :: s in segments && CarriesOwn(s, cands[i])
    {
      var s := OwnSegment(cands, i);
    }
    forall s | s in segments
      ensures exists i :: 0 <= i < |cands| && CarriesOwn(s, cands[i])
    {
      var i := OwnCandidate(cands, s);
    }
  }

  lemma AsManySegments(cands: seq<Candidate>)
    requires Apart(cands)
    ensures |Segments(cands)| == |cands|
  {
    SegmentsAreCanonical(cands);
    SameStarts(cands);
    DistinctCount(Froms(cands));
    DistinctCount(Starts(Segments(cands)));
  }

  function Froms(cands: seq<Candidate>): seq<Instant> {
    seq(|cands|, i requires 0 <= i < |cands| => cands[i].start)
  }

  function Starts(segments: seq<Segment>): seq<Instant> {
    seq(|segments|, k requires 0 <= k < |segments| => segments[k].start)
  }

  lemma SameStarts(cands: seq<Candidate>)
    requires Apart(cands)
    ensures (set x | x in Froms(cands)) == (set x | x in Starts(Segments(cands)))
  {
    var segments := Segments(cands);
    forall x | x in Froms(cands)
      ensures x in Starts(segments)
    {
      var i :| 0 <= i < |cands| && Froms(cands)[i] == x;
      var s := OwnSegment(cands, i);
      var k :| 0 <= k < |segments| && segments[k] == s;
      assert Starts(segments)[k] == x;
    }
    forall x | x in Starts(segments)
      ensures x in Froms(cands)
    {
      var k :| 0 <= k < |segments| && Starts(segments)[k] == x;
      var i := OwnCandidate(cands, segments[k]);
      assert Froms(cands)[i] == x;
    }
  }
}
