/** Which event wins where events overlap: events are ranked, their intervals become candidates, and a
    sweep over the candidates' boundaries yields segments with one winner per payload type. */
module EventPriority {
  import opened Options
  import opened Numbers
  import opened EventModel
  import opened EventTiming
  import opened WireContract
  import opened Sorting

  datatype Winner = Winner(value: real, declaredBy: DeclaredBy, eventId: string, eventName: Option<string>)

  datatype Segment = Segment(start: Instant, end: Instant, winners: map<string, Winner>) {
    predicate Covers(t: Instant) { start <= t < end }
  }

  datatype RefusedInterval = RefusedInterval(start: Instant, end: Instant, eventName: Option<string>, refusal: Refusal)

  datatype Resolved = Resolved(segments: seq<Segment>, refused: seq<RefusedInterval>)

  datatype Offer = Offer(payloadType: string, value: real, declaredBy: DeclaredBy)

  /** One interval of one event that carries something wanted and readable. */
  datatype Candidate = Candidate(start: Instant, end: Instant, rank: nat, event: Event, offers: seq<Offer>) {
    predicate Covers(t: Instant) { start <= t < end }

    predicate Spans(from: Instant, to: Instant) { start <= from && to <= end }
  }

  function WinnerOf(c: Candidate, j: nat): Winner
    requires j < |c.offers|
  {
    Winner(c.offers[j].value, c.offers[j].declaredBy, c.event.id, c.event.name)
  }

  // ---- ranking ---------------------------------------------------------------------------------

  /** A place in the input list: what a reference to an event is. */
  datatype Entrant = Entrant(event: Event, position: nat)

  /** Absent priority first, then high numbers before low ones. */
  predicate PriorityLe(a: Option<nat>, b: Option<nat>) {
    a.None? || (b.Some? && a.value >= b.value)
  }

  /** The order the events are sorted by: what wins comes later. */
  predicate RankLe(a: Event, b: Event) {
    if a.priority == b.priority then a.created <= b.created else PriorityLe(a.priority, b.priority)
  }

  predicate EntrantLe(a: Entrant, b: Entrant) { RankLe(a.event, b.event) }

  function Entrants(events: seq<Event>): (r: seq<Entrant>)
    ensures |r| == |events|
  {
    seq(|events|, i requires 0 <= i < |events| => Entrant(events[i], i))
  }

  /** The events in "wins last" order. */
  function Ranked(events: seq<Event>): (r: seq<Entrant>)
    ensures |r| == |events|
  {
    Sort(Entrants(events), EntrantLe)
  }

  function EventsOf(entrants: seq<Entrant>): (r: seq<Event>)
    ensures |r| == |entrants|
  {
    seq(|entrants|, i requires 0 <= i < |entrants| => entrants[i].event)
  }

  // ---- candidates ------------------------------------------------------------------------------

  predicate Wants(wanted: Option<set<string>>, payloadType: string) {
    wanted.None? || payloadType in wanted.value
  }

  function OffersOf(reader: Reader, wanted: Option<set<string>>, e: Event, payloads: seq<Payload>): seq<Offer> {
    if payloads == [] then [] else
      var last := payloads[|payloads| - 1];
      var rest := OffersOf(reader, wanted, e, payloads[..|payloads| - 1]);
      if Wants(wanted, last.payloadType) && Readable(reader, e, last) then
        var reading := Read(reader, e, last).value.value;
        rest + [Offer(last.payloadType, reading.value, reading.declaredBy)]
      else rest
  }

  function RefusedIn(reader: Reader, wanted: Option<set<string>>, e: Event, timed: TimedInterval,
        payloads: seq<Payload>): seq<RefusedInterval> {
    if payloads == [] then [] else
      var last := payloads[|payloads| - 1];
      var rest := RefusedIn(reader, wanted, e, timed, payloads[..|payloads| - 1]);
      if Wants(wanted, last.payloadType) && Refused(reader, e, last) then
        rest + [RefusedInterval(timed.start, timed.end, e.name, Read(reader, e, last).value.error)]
      else rest
  }

  /** What one timed interval contributes: nothing when it is empty or carries nothing wanted. */
  function CandidateOf(reader: Reader, wanted: Option<set<string>>, e: Event, rank: nat,
        timed: TimedInterval): (r: seq<Candidate>)
    ensures |r| <= 1
  {
    var offers := OffersOf(reader, wanted, e, timed.interval.payloads);
    if timed.start >= timed.end || offers == [] then [] else [Candidate(timed.start, timed.end, rank, e, offers)]
  }

  function EventCandidates(reader: Reader, wanted: Option<set<string>>, e: Event, rank: nat,
        timed: seq<TimedInterval>): seq<Candidate> {
    if timed == [] then [] else
      EventCandidates(reader, wanted, e, rank, timed[..|timed| - 1])
      + CandidateOf(reader, wanted, e, rank, timed[|timed| - 1])
  }

  function EventRefusals(reader: Reader, wanted: Option<set<string>>, e: Event,
        timed: seq<TimedInterval>): seq<RefusedInterval> {
    if timed == [] then [] else
      var last := timed[|timed| - 1];
      EventRefusals(reader, wanted, e, timed[..|timed| - 1])
      + if last.start >= last.end then [] else RefusedIn(reader, wanted, e, last, last.interval.payloads)
  }

  /** The candidates of events in rank order, and what was refused on the way. */
  function Candidates(reader: Reader, wanted: Option<set<string>>, ranked: seq<Event>): seq<Candidate> {
    if ranked == [] then [] else
      var last := |ranked| - 1;
      Candidates(reader, wanted, ranked[..last])
      + EventCandidates(reader, wanted, ranked[last], last, TimedIntervals(ranked[last]))
  }

  function Refusals(reader: Reader, wanted: Option<set<string>>, ranked: seq<Event>): seq<RefusedInterval> {
    if ranked == [] then [] else
      var last := |ranked| - 1;
      Refusals(reader, wanted, ranked[..last])
      + EventRefusals(reader, wanted, ranked[last], TimedIntervals(ranked[last]))
  }

  // ---- the sweep -------------------------------------------------------------------------------

  predicate InstantLe(a: Instant, b: Instant) { a <= b }

  function Edges(cands: seq<Candidate>): (r: seq<Instant>)
    ensures |r| == 2 * |cands|
  {
    if cands == [] then [] else
      var last := cands[|cands| - 1];
      Edges(cands[..|cands| - 1]) + [last.start, last.end]
  }

  /** Every candidate's start and end, sorted, once each. */
  function Bounds(cands: seq<Candidate>): (r: seq<Instant>)
    ensures |r| <= 2 * |cands|
  {
    Dedup(Sort(Edges(cands), InstantLe))
  }

  /** A provisional winner with the rank of the event that put it there. */
  datatype Held = Held(rank: nat, winner: Winner)

  /** The map after the first j offers of a candidate: an offer is beaten only by a higher rank. */
  function HoldOffers(held: map<string, Held>, c: Candidate, j: nat): map<string, Held>
    requires j <= |c.offers|
  {
    if j == 0 then held else
      var before := HoldOffers(held, c, j - 1);
      var p := c.offers[j - 1].payloadType;
      if p in before && before[p].rank > c.rank then before
      else before[p := Held(c.rank, WinnerOf(c, j - 1))]
  }

  /** The map after the first n candidates, for the stretch [start, end). */
  function HoldAll(cands: seq<Candidate>, n: nat, start: Instant, end: Instant): map<string, Held>
    requires n <= |cands|
  {
    if n == 0 then map[] else
      var before := HoldAll(cands, n - 1, start, end);
      if cands[n - 1].Spans(start, end) then HoldOffers(before, cands[n - 1], |cands[n - 1].offers|) else before
  }

  function WinnersOf(held: map<string, Held>): map<string, Winner> {
    map p | p in held :: held[p].winner
  }

  function Sweep(cands: seq<Candidate>, bounds: seq<Instant>): seq<Segment> {
    if |bounds| < 2 then [] else
      var start, end := bounds[|bounds| - 2], bounds[|bounds| - 1];
      var held := HoldAll(cands, |cands|, start, end);
      Sweep(cands, bounds[..|bounds| - 1])
      + if held.Keys == {} then [] else [Segment(start, end, WinnersOf(held))]
  }

  function Segments(cands: seq<Candidate>): seq<Segment> {
    Sweep(cands, Bounds(cands))
  }

  function ResolveRanked(reader: Reader, wanted: Option<set<string>>, ranked: seq<Event>): Resolved {
    Resolved(Segments(Candidates(reader, wanted, ranked)), Refusals(reader, wanted, ranked))
  }

  function Resolve(events: seq<Event>, reader: Reader, wanted: Option<set<string>>): Resolved {
    ResolveRanked(reader, wanted, EventsOf(Ranked(events)))
  }

  // ---- as the program runs it ------------------------------------------------------------------

  method WinnersOver(cands: seq<Candidate>, start: Instant, end: Instant) returns (held: map<string, Held>)
    ensures held == HoldAll(cands, |cands|, start, end)
  {
    held := map[];
    for i := 0 to |cands|
      invariant held == HoldAll(cands, i, start, end)
    {
      var c := cands[i];
      if c.Spans(start, end) {
        ghost var before := held;
        for j := 0 to |c.offers|
          invariant held == HoldOffers(before, c, j)
        {
          var p := c.offers[j].payloadType;
          var beaten := p in held && held[p].rank > c.rank;
          if !beaten {
            held := held[p := Held(c.rank, WinnerOf(c, j))];
          }
        }
      }
    }
  }

  method ResolveSegments(cands: seq<Candidate>) returns (result: seq<Segment>)
    ensures result == Segments(cands)
  {
    var bounds := Bounds(cands);
    result := [];
    if |bounds| < 2 {
      return;
    }
    for k := 1 to |bounds|
      invariant result == Sweep(cands, bounds[..k])
    {
      var held := WinnersOver(cands, bounds[k - 1], bounds[k]);
      assert bounds[..k + 1][..k] == bounds[..k];
      if held.Keys != {} {
        result := result + [Segment(bounds[k - 1], bounds[k], WinnersOf(held))];
      }
    }
    assert bounds[..|bounds|] == bounds;
  }

  method ReadInterval(reader: Reader, wanted: Option<set<string>>, e: Event, timed: TimedInterval)
    returns (offers: seq<Offer>, refused: seq<RefusedInterval>)
    ensures offers == OffersOf(reader, wanted, e, timed.interval.payloads)
    ensures refused == RefusedIn(reader, wanted, e, timed, timed.interval.payloads)
  {
    var payloads := timed.interval.payloads;
    offers, refused := [], [];
    for k := 0 to |payloads|
      invariant offers == OffersOf(reader, wanted, e, payloads[..k])
      invariant refused == RefusedIn(reader, wanted, e, timed, payloads[..k])
    {
      assert payloads[..k + 1][..k] == payloads[..k];
      if Wants(wanted, payloads[k].payloadType) {
        match Read(reader, e, payloads[k])
        case Some(Ok(reading)) =>
          offers := offers + [Offer(payloads[k].payloadType, reading.value, reading.declaredBy)];
        case Some(Err(refusal)) =>
          refused := refused + [RefusedInterval(timed.start, timed.end, e.name, refusal)];
        case None =>
      }
    }
    assert payloads[..|payloads|] == payloads;
  }

  method CollectEvent(reader: Reader, wanted: Option<set<string>>, e: Event, rank: nat)
    returns (candidates: seq<Candidate>, refused: seq<RefusedInterval>, inRange: bool)
    ensures inRange == Returns(e)
    ensures candidates == EventCandidates(reader, wanted, e, rank, TimedIntervals(e))
    ensures refused == EventRefusals(reader, wanted, e, TimedIntervals(e))
  {
    hide TimedIntervals, Returns, RefusedIn, OffersOf;
    var timed;
    timed, inRange := ExpandIntervals(e);
    candidates, refused := [], [];
    for k := 0 to |timed|
      invariant candidates == EventCandidates(reader, wanted, e, rank, timed[..k])
      invariant refused == EventRefusals(reader, wanted, e, timed[..k])
    {
      assert timed[..k + 1][..k] == timed[..k];
      if timed[k].start < timed[k].end {
        var offers, more := ReadInterval(reader, wanted, e, timed[k]);
        refused := refused + more;
        if offers != [] {
          candidates := candidates + [Candidate(timed[k].start, timed[k].end, rank, e, offers)];
        }
      }
    }
    assert timed[..|timed|] == timed;
  }

  lemma OneEventMore(reader: Reader, wanted: Option<set<string>>, ranked: seq<Event>, n: nat)
    requires n < |ranked|
    ensures Candidates(reader, wanted, ranked[..n + 1])
         == Candidates(reader, wanted, ranked[..n])
             + EventCandidates(reader, wanted, ranked[n], n, TimedIntervals(ranked[n]))
    ensures Refusals(reader, wanted, ranked[..n + 1])
         == Refusals(reader, wanted, ranked[..n]) + EventRefusals(reader, wanted, ranked[n], TimedIntervals(ranked[n]))
  {
    hide TimedIntervals, EventCandidates, EventRefusals;
    var more := ranked[..n + 1];
    assert more != [] && more[|more| - 1] == ranked[n];
    assert more[..|more| - 1] == ranked[..n];
  }

  /** Every event has an expansion; with one that has none, the program stops instead of resolving. */
  predicate AllReturn(ranked: seq<Event>) {
    forall i :: 0 <= i < |ranked| ==> Returns(ranked[i])
  }

  method ResolveEvents(events: seq<Event>, reader: Reader, wanted: Option<set<string>>)
    returns (r: Resolved, inRange: bool)
    ensures r == Resolve(events, reader, wanted)
    ensures inRange == AllReturn(EventsOf(Ranked(events)))
  {
    hide TimedIntervals, Returns, Ranked, Segments, EventCandidates, EventRefusals;
    var ranked := EventsOf(Ranked(events));
    var candidates: seq<Candidate> := [];
    var refused: seq<RefusedInterval> := [];
    inRange := true;
    for rank := 0 to |ranked|
      invariant candidates == Candidates(reader, wanted, ranked[..rank])
      invariant refused == Refusals(reader, wanted, ranked[..rank])
      invariant inRange == forall i :: 0 <= i < rank ==> Returns(ranked[i])
    {
      hide Candidates, Refusals;
      OneEventMore(reader, wanted, ranked, rank);
      var more, refusedMore, expanded := CollectEvent(reader, wanted, ranked[rank], rank);
      candidates := candidates + more;
      refused := refused + refusedMore;
      inRange := inRange && expanded;
    }
    assert ranked[..|ranked|] == ranked;
    var segments := ResolveSegments(candidates);
    r := Resolved(segments, refused);
  }
}
