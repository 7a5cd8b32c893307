/** What `resolve` computes, in terms of the events alone: at each instant, each payload type is won by
    the highest-ranked event in force that carries it. From that rule follow that limiting the types
    is a projection, that the order of the input does not matter, and that a lower event never
    disturbs a higher one. */
module ResolveMeaning {
  import opened Options
  import opened Numbers
  import opened EventModel
  import opened EventTiming
  import opened WireContract
  import opened EventPriority
  import opened SweepMeaning
  import opened Sorting

  // ---- the rule --------------------------------------------------------------------------------

  /** Event e's interval k is in force at t and its payload q is a readable value of a wanted type. */
  ghost predicate EventBid(events: seq<Event>, reader: Reader, wanted: Option<set<string>>, t: Instant, p: string,
        e: nat, k: nat, q: nat) {
    && e < |events| && k < |TimedIntervals(events[e])|
    && InForce(reader, wanted, events[e], TimedIntervals(events[e])[k], t, p, q)
  }

  predicate InForce(reader: Reader, wanted: Option<set<string>>, e: Event, timed: TimedInterval, t: Instant,
        p: string, q: nat) {
    && timed.Covers(t) && q < |timed.interval.payloads|
    && timed.interval.payloads[q].payloadType == p && Wants(wanted, p)
    && Readable(reader, e, timed.interval.payloads[q])
  }

  /** The order of section 7.1 of the User Guide: a lower priority number ranks higher, no priority
      lowest; then the newer creation time; then the later place in the input. */
  predicate Before(a: Entrant, b: Entrant) {
    RankLe(a.event, b.event) && (RankLe(b.event, a.event) ==> a.position < b.position)
  }

  predicate RanksBelow(events: seq<Event>, e: nat, e': nat)
    requires e < |events| && e' < |events|
  {
    Before(Entrant(events[e], e), Entrant(events[e'], e'))
  }

  predicate BidNotAbove(events: seq<Event>, e: nat, k: nat, q: nat, e': nat, k': nat, q': nat)
    requires e < |events| && e' < |events|
  {
    RanksBelow(events, e, e') || (e == e' && (k < k' || (k == k' && q <= q')))
  }

  ghost predicate EventWins(events: seq<Event>, reader: Reader, wanted: Option<set<string>>, t: Instant, p: string,
        e: nat, k: nat, q: nat) {
    && EventBid(events, reader, wanted, t, p, e, k, q)
    && forall e': nat, k': nat, q': nat :: EventBid(events, reader, wanted, t, p, e', k', q') ==>
        BidNotAbove(events, e', k', q', e, k, q)
  }

  function WinnerFor(reader: Reader, e: Event, payload: Payload): Winner
    requires Readable(reader, e, payload)
  {
    var reading := Read(reader, e, payload).value.value;
    Winner(reading.value, reading.declaredBy, e.id, e.name)
  }

  /** Section 7.1 on what the events declare: one ranks below another if it has no priority number and the
      other has one, or a larger number; for the same priority, if it is older; and then, if it stands
      earlier in the input. */
  lemma RanksBelowIff(events: seq<Event>, a: nat, b: nat)
    requires a < |events| && b < |events|
    ensures var p, q := events[a].priority, events[b].priority;
      RanksBelow(events, a, b) <==>
        || (p.None? && q.Some?)
        || (p.Some? && q.Some? && p.value > q.value)
        || (p == q && events[a].created < events[b].created)
        || (p == q && events[a].created == events[b].created && a < b)
  {
  }

  /** A bid in plain terms: at t, interval k of event e runs, and its payload q is of the type, wanted, and
      readable. */
  lemma EventBidIff(events: seq<Event>, reader: Reader, wanted: Option<set<string>>, t: Instant, p: string,
        e: nat, k: nat, q: nat)
    requires e < |events| && k < |TimedIntervals(events[e])|
    ensures var it := TimedIntervals(events[e])[k];
      EventBid(events, reader, wanted, t, p, e, k, q) <==>
        && it.start <= t && t < it.end
        && q < |it.interval.payloads| && it.interval.payloads[q].payloadType == p
        && (wanted.Some? ==> p in wanted.value)
        && Read(reader, events[e], it.interval.payloads[q]).Some?
        && Read(reader, events[e], it.interval.payloads[q]).value.Ok?
  {
    hide TimedIntervals, Read;
  }

  // ---- the ranking is that order ---------------------------------------------------------------

  ghost predicate InRankOrder(entrants: seq<Entrant>) {
    forall r, s :: 0 <= r < s < |entrants| ==> Before(entrants[r], entrants[s])
  }

  lemma {:induction false} InsertByRank(x: Entrant, s: seq<Entrant>)
    requires InRankOrder(s) && forall y :: y in s ==> y.position < x.position
    ensures InRankOrder(Insert(x, s, EntrantLe))
    ensures forall y :: y in Insert(x, s, EntrantLe) <==> y in s || y == x
  {
    if s != [] {
      var n := |s| - 1;
      var front, last := s[..n], s[n];
      assert s == front + [last];
      if EntrantLe(last, x) {
        forall r | 0 <= r <= n
          ensures Before(s[r], x)
        {
          assert s[r] in s && (r < n ==> Before(s[r], last));
        }
      } else {
        InsertByRank(x, front);
        forall y | y in Insert(x, front, EntrantLe)
          ensures Before(y, last)
        {
          assert y in front ==> Before(y, last);
        }
      }
    }
  }

  lemma {:induction false} SortByRank(s: seq<Entrant>)
    requires forall i, j :: 0 <= i < j < |s| ==> s[i].position < s[j].position
    ensures InRankOrder(Sort(s, EntrantLe))
    ensures forall y :: y in Sort(s, EntrantLe) <==> y in s
  {
    if s != [] {
      var n := |s| - 1;
      SortByRank(s[..n]);
      assert s == s[..n] + [s[n]];
      InsertByRank(s[n], Sort(s[..n], EntrantLe));
    }
  }

  /** The ranked list holds every event once, in the order of section 7.1. */
  lemma RankedIsRanking(events: seq<Event>)
    ensures InRankOrder(Ranked(events))
    ensures forall y :: y in Ranked(events) <==> y.position < |events| && y.event == events[y.position]
  {
    SortByRank(Entrants(events));
    forall y
      ensures y in Entrants(events) <==> y.position < |events| && y.event == events[y.position]
    {
      if y.position < |events| && y.event == events[y.position] {
        assert Entrants(events)[y.position] == y;
      }
    }
  }

  // ---- where candidates and offers come from ---------------------------------------------------

  ghost predicate Rising(qs: seq<nat>) {
    forall i, j :: 0 <= i < j < |qs| ==> qs[i] < qs[j]
  }

  predicate Offerable(reader: Reader, wanted: Option<set<string>>, e: Event, payload: Payload) {
    Wants(wanted, payload.payloadType) && Readable(reader, e, payload)
  }

  function OfferFor(reader: Reader, e: Event, payload: Payload): Offer
    requires Readable(reader, e, payload)
  {
    var reading := Read(reader, e, payload).value.value;
    Offer(payload.payloadType, reading.value, reading.declaredBy)
  }

  lemma OffersOneMore(reader: Reader, wanted: Option<set<string>>, e: Event, payloads: seq<Payload>)
    requires payloads != []
    ensures (var n := |payloads| - 1;
             OffersOf(reader, wanted, e, payloads) == OffersOf(reader, wanted, e, payloads[..n])
               + if Offerable(reader, wanted, e, payloads[n]) then [OfferFor(reader, e, payloads[n])] else [])
  {
    hide Read;
  }

  /** Which payload each offer was read from. */
  function OfferOrigins(reader: Reader, wanted: Option<set<string>>, e: Event, payloads: seq<Payload>): (r: seq<nat>)
    ensures |r| == |OffersOf(reader, wanted, e, payloads)|
  {
    if payloads == [] then [] else
      var n := |payloads| - 1;
      OffersOneMore(reader, wanted, e, payloads);
      OfferOrigins(reader, wanted, e, payloads[..n])
      + if Offerable(reader, wanted, e, payloads[n]) then [n] else []
  }

  /** Offer j was read from payload q. */
  ghost predicate FromPayload(reader: Reader, wanted: Option<set<string>>, e: Event, payloads: seq<Payload>,
                              q: nat, offer: Offer) {
    && q < |payloads| && Offerable(reader, wanted, e, payloads[q])
    && offer == OfferFor(reader, e, payloads[q])
  }

  lemma {:induction false} OfferOriginAt(reader: Reader, wanted: Option<set<string>>, e: Event,
                                         payloads: seq<Payload>, j: nat)
    requires j < |OfferOrigins(reader, wanted, e, payloads)|
    ensures FromPayload(reader, wanted, e, payloads, OfferOrigins(reader, wanted, e, payloads)[j],
                        OffersOf(reader, wanted, e, payloads)[j])
  {
    hide Offerable, OfferFor, OffersOf;
    var n := |payloads| - 1;
    OffersOneMore(reader, wanted, e, payloads);
    if j < |OfferOrigins(reader, wanted, e, payloads[..n])| {
      OfferOriginAt(reader, wanted, e, payloads[..n], j);
    }
  }

  lemma {:induction false} OfferOriginsRise(reader: Reader, wanted: Option<set<string>>, e: Event,
                                            payloads: seq<Payload>, i: nat, j: nat)
    requires i < j < |OfferOrigins(reader, wanted, e, payloads)|
    ensures OfferOrigins(reader, wanted, e, payloads)[i] < OfferOrigins(reader, wanted, e, payloads)[j]
  {
    hide Offerable, OfferFor, OffersOf;
    var front := payloads[..|payloads| - 1];
    if j < |OfferOrigins(reader, wanted, e, front)| {
      OfferOriginsRise(reader, wanted, e, front, i, j);
    } else {
      OfferOriginAt(reader, wanted, e, front, i);
    }
  }

  lemma {:induction false} OfferOriginFound(reader: Reader, wanted: Option<set<string>>, e: Event,
                                            payloads: seq<Payload>, q: nat)
    requires q < |payloads| && Offerable(reader, wanted, e, payloads[q])
    ensures q in OfferOrigins(reader, wanted, e, payloads)
  {
    hide Offerable, OfferFor, OffersOf;
    var n := |payloads| - 1;
    if q < n {
      assert payloads[..n][q] == payloads[q];
      OfferOriginFound(reader, wanted, e, payloads[..n], q);
    }
  }

  lemma OffersTrace(reader: Reader, wanted: Option<set<string>>, e: Event, payloads: seq<Payload>)
    ensures var qs := OfferOrigins(reader, wanted, e, payloads);
            var offers := OffersOf(reader, wanted, e, payloads);
      && Rising(qs)
      && (forall j :: 0 <= j < |qs| ==> FromPayload(reader, wanted, e, payloads, qs[j], offers[j]))
      && (forall q: nat :: q < |payloads| && Offerable(reader, wanted, e, payloads[q]) ==> q in qs)
  {
    hide FromPayload, Offerable, OfferOrigins, OffersOf;
    var qs, offers := OfferOrigins(reader, wanted, e, payloads), OffersOf(reader, wanted, e, payloads);
    forall i, j | 0 <= i < j < |qs|
      ensures qs[i] < qs[j]
    {
      OfferOriginsRise(reader, wanted, e, payloads, i, j);
    }
    forall j | 0 <= j < |qs|
      ensures FromPayload(reader, wanted, e, payloads, qs[j], offers[j])
    {
      OfferOriginAt(reader, wanted, e, payloads, j);
    }
    forall q: nat | q < |payloads| && Offerable(reader, wanted, e, payloads[q])
      ensures q in qs
    {
      OfferOriginFound(reader, wanted, e, payloads, q);
    }
  }

  /** A candidate's origin: the rank of its event and the place of its interval in the expansion. */
  datatype Origin = Origin(rank: nat, k: nat)

  predicate Earlier(a: Origin, b: Origin) {
    a.rank < b.rank || (a.rank == b.rank && a.k < b.k)
  }

  ghost predicate Tracing(origins: seq<Origin>) {
    forall i, j :: 0 <= i < j < |origins| ==> Earlier(origins[i], origins[j])
  }

  function EventOrigins(reader: Reader, wanted: Option<set<string>>, e: Event, rank: nat,
        timed: seq<TimedInterval>): (r: seq<Origin>)
    ensures |r| == |EventCandidates(reader, wanted, e, rank, timed)|
  {
    if timed == [] then [] else
      var n := |timed| - 1;
      EventOrigins(reader, wanted, e, rank, timed[..n])
      + if CandidateOf(reader, wanted, e, rank, timed[n]) == [] then [] else [Origin(rank, n)]
  }

  function Origins(reader: Reader, wanted: Option<set<string>>, ranked: seq<Event>): (r: seq<Origin>)
    ensures |r| == |Candidates(reader, wanted, ranked)|
  {
    if ranked == [] then [] else
      var n := |ranked| - 1;
      Origins(reader, wanted, ranked[..n])
      + EventOrigins(reader, wanted, ranked[n], n, TimedIntervals(ranked[n]))
  }

  /** Candidate c is what interval o.k contributes. */
  ghost predicate FromInterval(reader: Reader, wanted: Option<set<string>>, e: Event, rank: nat,
        timed: seq<TimedInterval>, o: Origin, c: Candidate) {
    o.rank == rank && o.k < |timed| && CandidateOf(reader, wanted, e, rank, timed[o.k]) == [c]
  }

  lemma {:induction false} EventOriginAt(reader: Reader, wanted: Option<set<string>>, e: Event, rank: nat,
        timed: seq<TimedInterval>, i: nat)
    requires i < |EventOrigins(reader, wanted, e, rank, timed)|
    ensures FromInterval(reader, wanted, e, rank, timed, EventOrigins(reader, wanted, e, rank, timed)[i],
                         EventCandidates(reader, wanted, e, rank, timed)[i])
    decreases |timed|
  {
    hide CandidateOf;
    var n := |timed| - 1;
    var before := EventOrigins(reader, wanted, e, rank, timed[..n]);
    if i < |before| {
      EventOriginAt(reader, wanted, e, rank, timed[..n], i);
      assert timed[..n][before[i].k] == timed[before[i].k];
    } else {
      var last := CandidateOf(reader, wanted, e, rank, timed[n]);
      assert |last| == 1 && last == [last[0]];
    }
  }

  lemma {:induction false} EventOriginsRise(reader: Reader, wanted: Option<set<string>>, e: Event, rank: nat,
        timed: seq<TimedInterval>, i: nat, j: nat)
    requires i < j < |EventOrigins(reader, wanted, e, rank, timed)|
    ensures Earlier(EventOrigins(reader, wanted, e, rank, timed)[i], EventOrigins(reader, wanted, e, rank, timed)[j])
    decreases |timed|
  {
    hide CandidateOf, EventCandidates;
    var front := timed[..|timed| - 1];
    if j < |EventOrigins(reader, wanted, e, rank, front)| {
      EventOriginsRise(reader, wanted, e, rank, front, i, j);
    } else {
      EventOriginAt(reader, wanted, e, rank, front, i);
    }
  }

  lemma {:induction false} IntervalTraced(reader: Reader, wanted: Option<set<string>>, e: Event, rank: nat,
        timed: seq<TimedInterval>, k: nat)
    requires k < |timed| && CandidateOf(reader, wanted, e, rank, timed[k]) != []
    ensures Origin(rank, k) in EventOrigins(reader, wanted, e, rank, timed)
    decreases |timed|
  {
    hide OffersOf, Read;
    var n := |timed| - 1;
    if k < n {
      IntervalTraced(reader, wanted, e, rank, timed[..n], k);
    }
  }

  /** Candidate c is what the interval at origin o contributes. */
  ghost predicate FromOrigin(reader: Reader, wanted: Option<set<string>>, ranked: seq<Event>, o: Origin, c: Candidate) {
    o.rank < |ranked| && FromInterval(reader, wanted, ranked[o.rank], o.rank, TimedIntervals(ranked[o.rank]), o, c)
  }

  lemma {:induction false} OriginAt(reader: Reader, wanted: Option<set<string>>, ranked: seq<Event>, i: nat)
    requires i < |Origins(reader, wanted, ranked)|
    ensures FromOrigin(reader, wanted, ranked, Origins(reader, wanted, ranked)[i],
                       Candidates(reader, wanted, ranked)[i])
    decreases |ranked|
  {
    hide TimedIntervals, CandidateOf, EventOrigins, EventCandidates;
    var n := |ranked| - 1;
    var front := ranked[..n];
    var before := Origins(reader, wanted, front);
    if i < |before| {
      OriginAt(reader, wanted, front, i);
      assert front[before[i].rank] == ranked[before[i].rank];
    } else {
      EventOriginAt(reader, wanted, ranked[n], n, TimedIntervals(ranked[n]), i - |before|);
    }
  }

  lemma {:induction false} OriginsRise(reader: Reader, wanted: Option<set<string>>, ranked: seq<Event>, i: nat, j: nat)
    requires i < j < |Origins(reader, wanted, ranked)|
    ensures Earlier(Origins(reader, wanted, ranked)[i], Origins(reader, wanted, ranked)[j])
    decreases |ranked|
  {
    hide TimedIntervals, CandidateOf, EventOrigins, EventCandidates, Candidates;
    var n := |ranked| - 1;
    var front := ranked[..n];
    var from := |Origins(reader, wanted, front)|;
    if j < from {
      OriginsRise(reader, wanted, front, i, j);
    } else if i < from {
      OriginAt(reader, wanted, front, i);
      EventOriginAt(reader, wanted, ranked[n], n, TimedIntervals(ranked[n]), j - from);
    } else {
      EventOriginsRise(reader, wanted, ranked[n], n, TimedIntervals(ranked[n]), i - from, j - from);
    }
  }

  lemma CandidatesTrace(reader: Reader, wanted: Option<set<string>>, ranked: seq<Event>)
    ensures var origins := Origins(reader, wanted, ranked);
            var cands := Candidates(reader, wanted, ranked);
            Tracing(origins) && forall i :: 0 <= i < |origins| ==>
                FromOrigin(reader, wanted, ranked, origins[i], cands[i])
  {
    hide FromOrigin, Origins, Candidates, Earlier;
    var origins, cands := Origins(reader, wanted, ranked), Candidates(reader, wanted, ranked);
    forall i | 0 <= i < |origins|
      ensures FromOrigin(reader, wanted, ranked, origins[i], cands[i])
    {
      OriginAt(reader, wanted, ranked, i);
    }
    forall i, j | 0 <= i < j < |origins|
      ensures Earlier(origins[i], origins[j])
    {
      OriginsRise(reader, wanted, ranked, i, j);
    }
  }

  lemma {:induction false} OriginTraced(reader: Reader, wanted: Option<set<string>>, ranked: seq<Event>, r: nat, k: nat)
    requires r < |ranked| && k < |TimedIntervals(ranked[r])|
    requires CandidateOf(reader, wanted, ranked[r], r, TimedIntervals(ranked[r])[k]) != []
    ensures Origin(r, k) in Origins(reader, wanted, ranked)
    decreases |ranked|
  {
    hide TimedIntervals, CandidateOf;
    var n := |ranked| - 1;
    if r < n {
      OriginTraced(reader, wanted, ranked[..n], r, k);
    } else {
      IntervalTraced(reader, wanted, ranked[n], n, TimedIntervals(ranked[n]), k);
    }
  }

  // ---- from offers to event bids and back ------------------------------------------------------

  /** Offer j of candidate i is payload q of interval k of event e. */
  ghost predicate Traces(events: seq<Event>, reader: Reader, wanted: Option<set<string>>, i: nat, j: nat, e: nat,
        k: nat, q: nat) {
    var ranked := Ranked(events);
    var origins := Origins(reader, wanted, EventsOf(ranked));
    && i < |origins| && origins[i].rank < |ranked|
    && e == ranked[origins[i].rank].position && k == origins[i].k
    && e < |events| && k < |TimedIntervals(events[e])|
    && var qs := OfferOrigins(reader, wanted, events[e], TimedIntervals(events[e])[k].interval.payloads);
       j < |qs| && q == qs[j]
  }

  function CandidatesOf(events: seq<Event>, reader: Reader, wanted: Option<set<string>>): seq<Candidate> {
    Candidates(reader, wanted, EventsOf(Ranked(events)))
  }

  lemma EntrantAt(events: seq<Event>, r: nat)
    requires r < |Ranked(events)|
    ensures var x := Ranked(events)[r];
            x.position < |events| && x.event == events[x.position] == EventsOf(Ranked(events))[r]
  {
    RankedIsRanking(events);
    assert Ranked(events)[r] in Ranked(events);
  }

  lemma RankOf(events: seq<Event>, e: nat) returns (r: nat)
    requires e < |events|
    ensures r < |Ranked(events)| && Ranked(events)[r] == Entrant(events[e], e)
    ensures EventsOf(Ranked(events))[r] == events[e]
  {
    RankedIsRanking(events);
    assert Entrant(events[e], e) in Ranked(events);
    r :| 0 <= r < |Ranked(events)| && Ranked(events)[r] == Entrant(events[e], e);
  }

  /** The resolution ends exactly when the expansion of every input event does. */
  lemma AllReturnIff(events: seq<Event>)
    ensures AllReturn(EventsOf(Ranked(events))) <==> forall e :: e in events ==> Returns(e)
  {
    hide Returns, Ranked;
    var ranked := EventsOf(Ranked(events));
    if AllReturn(ranked) {
      forall e | e in events
        ensures Returns(e)
      {
        var i :| 0 <= i < |events| && events[i] == e;
        var r := RankOf(events, i);
      }
    }
    if forall e :: e in events ==> Returns(e) {
      forall r | 0 <= r < |ranked|
        ensures Returns(ranked[r])
      {
        EntrantAt(events, r);
      }
    }
  }

  lemma CandidateAt(reader: Reader, wanted: Option<set<string>>, ranked: seq<Event>, r: nat, k: nat) returns (i: nat)
    requires r < |ranked| && k < |TimedIntervals(ranked[r])|
    requires CandidateOf(reader, wanted, ranked[r], r, TimedIntervals(ranked[r])[k]) != []
    ensures i < |Candidates(reader, wanted, ranked)| && Origins(reader, wanted, ranked)[i] == Origin(r, k)
    ensures CandidateOf(reader, wanted, ranked[r], r, TimedIntervals(ranked[r])[k])
            == [Candidates(reader, wanted, ranked)[i]]
  {
    hide TimedIntervals, CandidateOf;
    var origins := Origins(reader, wanted, ranked);
    OriginTraced(reader, wanted, ranked, r, k);
    CandidatesTrace(reader, wanted, ranked);
    i :| 0 <= i < |origins| && origins[i] == Origin(r, k);
    assert FromOrigin(reader, wanted, ranked, origins[i], Candidates(reader, wanted, ranked)[i]);
  }

  lemma OfferAt(reader: Reader, wanted: Option<set<string>>, e: Event, payloads: seq<Payload>, q: nat) returns (j: nat)
    requires q < |payloads| && Offerable(reader, wanted, e, payloads[q])
    ensures j < |OffersOf(reader, wanted, e, payloads)| && OfferOrigins(reader, wanted, e, payloads)[j] == q
    ensures OffersOf(reader, wanted, e, payloads)[j] == OfferFor(reader, e, payloads[q])
  {
    hide Read;
    OffersTrace(reader, wanted, e, payloads);
    var qs := OfferOrigins(reader, wanted, e, payloads);
    j :| 0 <= j < |qs| && qs[j] == q;
  }

  lemma OfferIsEventBid(events: seq<Event>, reader: Reader, wanted: Option<set<string>>, t: Instant, p: string,
        i: nat, j: nat)
    returns (e: nat, k: nat, q: nat)
    requires Bids(CandidatesOf(events, reader, wanted), t, p, i, j)
    ensures EventBid(events, reader, wanted, t, p, e, k, q) && Traces(events, reader, wanted, i, j, e, k, q)
    ensures WinnerOf(CandidatesOf(events, reader, wanted)[i], j)
         == WinnerFor(reader, events[e], TimedIntervals(events[e])[k].interval.payloads[q])
  {
    hide TimedIntervals, Read, Ranked, OffersOf, OfferOrigins;
    var ranked, cands := EventsOf(Ranked(events)), CandidatesOf(events, reader, wanted);
    CandidatesTrace(reader, wanted, ranked);
    var o := Origins(reader, wanted, ranked)[i];
    assert FromOrigin(reader, wanted, ranked, o, cands[i]);
    EntrantAt(events, o.rank);
    e, k := Ranked(events)[o.rank].position, o.k;
    var payloads := TimedIntervals(events[e])[k].interval.payloads;
    assert cands[i].offers == OffersOf(reader, wanted, events[e], payloads);
    OffersTrace(reader, wanted, events[e], payloads);
    q := OfferOrigins(reader, wanted, events[e], payloads)[j];
  }

  lemma EventBidIsOffer(events: seq<Event>, reader: Reader, wanted: Option<set<string>>, t: Instant, p: string,
        e: nat, k: nat, q: nat)
    returns (i: nat, j: nat)
    requires EventBid(events, reader, wanted, t, p, e, k, q)
    ensures Bids(CandidatesOf(events, reader, wanted), t, p, i, j) && Traces(events, reader, wanted, i, j, e, k, q)
    ensures WinnerOf(CandidatesOf(events, reader, wanted)[i], j)
         == WinnerFor(reader, events[e], TimedIntervals(events[e])[k].interval.payloads[q])
  {
    hide TimedIntervals, Read, Ranked, OffersOf, OfferOrigins, Candidates, Origins;
    var ranked := EventsOf(Ranked(events));
    var r := RankOf(events, e);
    var timed := TimedIntervals(events[e])[k];
    j := OfferAt(reader, wanted, events[e], timed.interval.payloads, q);
    i := CandidateAt(reader, wanted, ranked, r, k);
  }

  lemma OriginRanks(events: seq<Event>, reader: Reader, wanted: Option<set<string>>, i: nat)
    requires i < |CandidatesOf(events, reader, wanted)|
    ensures var o := Origins(reader, wanted, EventsOf(Ranked(events)))[i];
            o.rank < |Ranked(events)| && CandidatesOf(events, reader, wanted)[i].rank == o.rank
  {
    var ranked, cands := EventsOf(Ranked(events)), CandidatesOf(events, reader, wanted);
    CandidatesTrace(reader, wanted, ranked);
    assert FromOrigin(reader, wanted, ranked, Origins(reader, wanted, ranked)[i], cands[i]);
  }

  lemma HigherRankIsHigherEvent(events: seq<Event>, r: nat, r': nat)
    requires r < r' < |Ranked(events)|
    ensures var e, e' := Ranked(events)[r].position, Ranked(events)[r'].position;
            e < |events| && e' < |events| && RanksBelow(events, e, e')
  {
    EntrantAt(events, r);
    EntrantAt(events, r');
    RankedIsRanking(events);
  }

  /** The two rankings agree. */
  lemma TracesKeepOrder(events: seq<Event>, reader: Reader, wanted: Option<set<string>>,
      i: nat, j: nat, e: nat, k: nat, q: nat, i': nat, j': nat, e': nat, k': nat, q': nat)
    requires i < |CandidatesOf(events, reader, wanted)| && i' < |CandidatesOf(events, reader, wanted)|
    requires Traces(events, reader, wanted, i, j, e, k, q) && Traces(events, reader, wanted, i', j', e', k', q')
    requires NotAbove(CandidatesOf(events, reader, wanted), i, j, i', j')
    ensures BidNotAbove(events, e, k, q, e', k', q')
  {
    hide TimedIntervals, Readable, OffersOf, CandidateOf, Candidates, Ranked;
    var ranked := EventsOf(Ranked(events));
    var origins := Origins(reader, wanted, ranked);
    OriginRanks(events, reader, wanted, i);
    OriginRanks(events, reader, wanted, i');
    if origins[i].rank < origins[i'].rank {
      HigherRankIsHigherEvent(events, origins[i].rank, origins[i'].rank);
    } else if i < i' {
      CandidatesTrace(reader, wanted, ranked);
      assert Earlier(origins[i], origins[i']);
    } else {
      OffersTrace(reader, wanted, events[e], TimedIntervals(events[e])[k].interval.payloads);
    }
  }

  // ---- the theorems ----------------------------------------------------------------------------

  /** Resolution equals the pointwise rule over events: at any instant, p is won exactly by the event
      bid that no other bid ranks above, and by nobody exactly when nothing bids. */
  lemma ResolveIsPointwise(events: seq<Event>, reader: Reader, wanted: Option<set<string>>, t: Instant, p: string,
        w: Winner)
    ensures WinnerAt(Resolve(events, reader, wanted).segments, t, p) == Some(w) <==>
            exists e: nat, k: nat, q: nat :: EventWins(events, reader, wanted, t, p, e, k, q)
              && w == WinnerFor(reader, events[e], TimedIntervals(events[e])[k].interval.payloads[q])
    ensures WinnerAt(Resolve(events, reader, wanted).segments, t, p).None? <==>
            !exists e: nat, k: nat, q: nat :: EventBid(events, reader, wanted, t, p, e, k, q)
  {
    hide TimedIntervals, Read, Ranked, WinnerAt, Segments;
    var cands := CandidatesOf(events, reader, wanted);
    var at := WinnerAt(Resolve(events, reader, wanted).segments, t, p);
    SweepIsPointwise(cands, t, p, w);
    if at.Some? {
      var e, k, q := WinnerIsEventWinner(events, reader, wanted, t, p);
      if e': nat, k': nat, q': nat :| EventWins(events, reader, wanted, t, p, e', k', q') {
        EventWinnerUnique(events, reader, wanted, t, p, e, k, q, e', k', q');
      }
    } else {
      if e: nat, k: nat, q: nat :| EventBid(events, reader, wanted, t, p, e, k, q) {
        var i, j := EventBidIsOffer(events, reader, wanted, t, p, e, k, q);
      }
    }
  }

  lemma WinnerIsEventWinner(events: seq<Event>, reader: Reader, wanted: Option<set<string>>, t: Instant, p: string)
    returns (e: nat, k: nat, q: nat)
    requires WinnerAt(Resolve(events, reader, wanted).segments, t, p).Some?
    ensures EventWins(events, reader, wanted, t, p, e, k, q)
    ensures WinnerAt(Resolve(events, reader, wanted).segments, t, p)
         == Some(WinnerFor(reader, events[e], TimedIntervals(events[e])[k].interval.payloads[q]))
  {
    hide TimedIntervals, Read, Ranked, WinnerAt;
    var cands := CandidatesOf(events, reader, wanted);
    var w := WinnerAt(Resolve(events, reader, wanted).segments, t, p).value;
    SweepIsPointwise(cands, t, p, w);
    var i: nat, j: nat :| Wins(cands, t, p, i, j) && w == WinnerOf(cands[i], j);
    e, k, q := OfferIsEventBid(events, reader, wanted, t, p, i, j);
    forall e': nat, k': nat, q': nat | EventBid(events, reader, wanted, t, p, e', k', q')
      ensures BidNotAbove(events, e', k', q', e, k, q)
    {
      var i', j' := EventBidIsOffer(events, reader, wanted, t, p, e', k', q');
      TracesKeepOrder(events, reader, wanted, i', j', e', k', q', i, j, e, k, q);
    }
  }

  lemma EventWinnerUnique(events: seq<Event>, reader: Reader, wanted: Option<set<string>>, t: Instant, p: string,
      e: nat, k: nat, q: nat, e': nat, k': nat, q': nat)
    requires EventWins(events, reader, wanted, t, p, e, k, q) && EventWins(events, reader, wanted, t, p, e', k', q')
    ensures e == e' && k == k' && q == q'
  {
  }
}
