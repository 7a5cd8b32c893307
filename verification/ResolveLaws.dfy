/** Laws of resolution that follow from its pointwise meaning, and its agreement with the audit. */
module ResolveLaws {
  import opened Options
  import opened Numbers
  import opened EventModel
  import opened EventTiming
  import opened WireContract
  import opened EventPriority
  import opened SweepMeaning
  import opened ResolveMeaning
  import opened Sorting

  // ---- limiting the payload types --------------------------------------------------------------

  /** Limiting the payload types is projection: for a wanted type, the winner at every instant is the
      one found with no limit, though the segments may be cut elsewhere; for any other, there is none. */
  lemma LimitingTypesIsProjection(events: seq<Event>, reader: Reader, wanted: set<string>, t: Instant, p: string)
    ensures WinnerAt(Resolve(events, reader, Some(wanted)).segments, t, p)
         == if p in wanted then WinnerAt(Resolve(events, reader, None).segments, t, p) else None
  {
    var limited, free := WinnerAt(Resolve(events, reader, Some(wanted)).segments, t, p),
                         WinnerAt(Resolve(events, reader, None).segments, t, p);
    if limited.Some? {
      var e, k, q := WinnerIsEventWinner(events, reader, Some(wanted), t, p);
      assert EventBid(events, reader, Some(wanted), t, p, e, k, q);
      SameBids(events, reader, wanted, t, p);
      ResolveIsPointwise(events, reader, None, t, p, limited.value);
    } else if free.Some? && p in wanted {
      var e, k, q := WinnerIsEventWinner(events, reader, None, t, p);
      SameBids(events, reader, wanted, t, p);
      ResolveIsPointwise(events, reader, Some(wanted), t, p, free.value);
    }
  }

  lemma SameBids(events: seq<Event>, reader: Reader, wanted: set<string>, t: Instant, p: string)
    requires p in wanted
    ensures forall e: nat, k: nat, q: nat ::
      EventBid(events, reader, Some(wanted), t, p, e, k, q) <==> EventBid(events, reader, None, t, p, e, k, q)
  {
  }

  // ---- the order of the input ------------------------------------------------------------------

  lemma {:induction false} InsertForgetsPosition(x: Entrant, s: seq<Entrant>)
    ensures EventsOf(Insert(x, s, EntrantLe)) == Insert(x.event, EventsOf(s), RankLe)
  {
    if s != [] {
      var n := |s| - 1;
      assert EventsOf(s)[..n] == EventsOf(s[..n]);
      if EntrantLe(s[n], x) {
        assert EventsOf(s + [x]) == EventsOf(s) + [x.event];
      } else {
        InsertForgetsPosition(x, s[..n]);
        assert EventsOf(Insert(x, s[..n], EntrantLe) + [s[n]]) == EventsOf(Insert(x, s[..n], EntrantLe)) + [s[n].event];
      }
    } else {
      assert EventsOf([x]) == [x.event];
    }
  }

  lemma {:induction false} SortForgetsPosition(s: seq<Entrant>)
    ensures EventsOf(Sort(s, EntrantLe)) == Sort(EventsOf(s), RankLe)
  {
    if s != [] {
      var n := |s| - 1;
      SortForgetsPosition(s[..n]);
      InsertForgetsPosition(s[n], Sort(s[..n], EntrantLe));
      assert EventsOf(s)[..n] == EventsOf(s[..n]);
    }
  }

  lemma RankedEventsAreSorted(events: seq<Event>)
    ensures EventsOf(Ranked(events)) == Sort(events, RankLe)
  {
    SortForgetsPosition(Entrants(events));
    assert EventsOf(Entrants(events)) == events;
  }

  /** No two events agree on both priority and creation time. */
  ghost predicate NoTies(events: seq<Event>) {
    forall i, j :: 0 <= i < j < |events| ==> !(RankLe(events[i], events[j]) && RankLe(events[j], events[i]))
  }

  lemma RankLeTotal()
    ensures TotalPreorder(RankLe)
  {
  }

  lemma SameSorting(events: seq<Event>, permuted: seq<Event>)
    requires NoTies(events) && multiset(events) == multiset(permuted)
    ensures Sort(events, RankLe) == Sort(permuted, RankLe)
  {
    var a, b := Sort(events, RankLe), Sort(permuted, RankLe);
    RankLeTotal();
    SortSorts(events, RankLe);
    SortSorts(permuted, RankLe);
    forall x, y | x in a && y in a && RankLe(x, y) && RankLe(y, x)
      ensures x == y
    {
      SameElements(a, events, x);
      SameElements(a, events, y);
      var i :| 0 <= i < |events| && events[i] == x;
      var j :| 0 <= j < |events| && events[j] == y;
    }
    SortedUnique(a, b, RankLe);
  }

  /** Ranking is order-free: without ties, every permutation of the events resolves identically. */
  lemma PermutationsResolveAlike(events: seq<Event>, permuted: seq<Event>, reader: Reader, wanted: Option<set<string>>)
    requires NoTies(events) && multiset(events) == multiset(permuted)
    ensures Resolve(events, reader, wanted) == Resolve(permuted, reader, wanted)
  {
    RankedEventsAreSorted(events);
    RankedEventsAreSorted(permuted);
    SameSorting(events, permuted);
  }

  // ---- one more event --------------------------------------------------------------------------

  function Added(events: seq<Event>, extra: Event, at: nat): seq<Event>
    requires at <= |events|
  {
    events[..at] + [extra] + events[at..]
  }

  /** Where an event moves when another is put in at `at`, and back. */
  function Moved(e: nat, at: nat): nat { if e < at then e else e + 1 }

  function Back(e: nat, at: nat): nat
    requires e != at
  {
    if e < at then e else e - 1
  }

  lemma BidsAdded(events: seq<Event>, extra: Event, at: nat, reader: Reader, wanted: Option<set<string>>, t: Instant,
        p: string, e: nat, k: nat, q: nat)
    requires at <= |events|
    ensures EventBid(events, reader, wanted, t, p, e, k, q) <==>
            EventBid(Added(events, extra, at), reader, wanted, t, p, Moved(e, at), k, q)
  {
    if e < |events| {
      assert Added(events, extra, at)[Moved(e, at)] == events[e];
    }
  }

  lemma OrderAdded(events: seq<Event>, extra: Event, at: nat, e: nat, e': nat)
    requires at <= |events| && e < |events| && e' < |events|
    ensures RanksBelow(events, e, e') <==> RanksBelow(Added(events, extra, at), Moved(e, at), Moved(e', at))
  {
    assert Added(events, extra, at)[Moved(e, at)] == events[e];
    assert Added(events, extra, at)[Moved(e', at)] == events[e'];
  }

  /** Adding an event never changes a winner that ranks above it, at any instant, wherever in the
      input it is added. */
  lemma LowerEventDisturbsNothing(events: seq<Event>, extra: Event, at: nat, reader: Reader,
        wanted: Option<set<string>>,
      t: Instant, p: string, e: nat, k: nat, q: nat)
    requires at <= |events| && EventWins(events, reader, wanted, t, p, e, k, q)
    requires RanksBelow(Added(events, extra, at), at, Moved(e, at))
    ensures WinnerAt(Resolve(Added(events, extra, at), reader, wanted).segments, t, p)
         == WinnerAt(Resolve(events, reader, wanted).segments, t, p)
  {
    hide TimedIntervals, Read, Resolve, WinnerAt;
    var more := Added(events, extra, at);
    BidsAdded(events, extra, at, reader, wanted, t, p, e, k, q);
    forall e': nat, k': nat, q': nat | EventBid(more, reader, wanted, t, p, e', k', q')
      ensures BidNotAbove(more, e', k', q', Moved(e, at), k, q)
    {
      if e' != at {
        BidsAdded(events, extra, at, reader, wanted, t, p, Back(e', at), k', q');
        OrderAdded(events, extra, at, Back(e', at), e);
      }
    }
    assert more[Moved(e, at)] == events[e];
    var w := WinnerFor(reader, events[e], TimedIntervals(events[e])[k].interval.payloads[q]);
    ResolveIsPointwise(events, reader, wanted, t, p, w);
    assert EventWins(more, reader, wanted, t, p, Moved(e, at), k, q);
    ResolveIsPointwise(more, reader, wanted, t, p, w);
  }

  /** An event that ranks above the winner, or meets none, takes over wherever it bids: the winner is
      then the one it has alone. */
  lemma HigherEventTakesOver(events: seq<Event>, extra: Event, at: nat, reader: Reader, wanted: Option<set<string>>,
      t: Instant, p: string, k: nat, q: nat)
    requires at <= |events| && EventWins([extra], reader, wanted, t, p, 0, k, q)
    requires forall e: nat, k': nat, q': nat :: EventBid(events, reader, wanted, t, p, e, k', q') ==>
               RanksBelow(Added(events, extra, at), Moved(e, at), at)
    ensures WinnerAt(Resolve(Added(events, extra, at), reader, wanted).segments, t, p)
         == WinnerAt(Resolve([extra], reader, wanted).segments, t, p)
  {
    hide TimedIntervals, Read, Resolve, WinnerAt;
    var more := Added(events, extra, at);
    assert more[at] == extra;
    assert EventBid([extra], reader, wanted, t, p, 0, k, q);
    forall e': nat, k': nat, q': nat | EventBid(more, reader, wanted, t, p, e', k', q')
      ensures BidNotAbove(more, e', k', q', at, k, q)
    {
      if e' == at {
        assert EventBid([extra], reader, wanted, t, p, 0, k', q');
      } else {
        BidsAdded(events, extra, at, reader, wanted, t, p, Back(e', at), k', q');
      }
    }
    var w := WinnerFor(reader, extra, TimedIntervals(extra)[k].interval.payloads[q]);
    ResolveIsPointwise([extra], reader, wanted, t, p, w);
    assert EventWins(more, reader, wanted, t, p, at, k, q);
    ResolveIsPointwise(more, reader, wanted, t, p, w);
  }

  lemma CandidateOffers(events: seq<Event>, reader: Reader, wanted: Option<set<string>>, i: nat)
    returns (e: nat, k: nat, q: nat)
    requires i < |CandidatesOf(events, reader, wanted)|
    ensures e < |events| && k < |TimedIntervals(events[e])| && q < |TimedIntervals(events[e])[k].interval.payloads|
    ensures (var c, it := CandidatesOf(events, reader, wanted)[i], TimedIntervals(events[e])[k];
             it.start == c.start && it.end == c.end
             && EventBid(events, reader, wanted, it.start, it.interval.payloads[q].payloadType, e, k, q))
  {
    hide TimedIntervals, Read, Ranked, OffersOf, OfferOrigins;
    var ranked, c := EventsOf(Ranked(events)), CandidatesOf(events, reader, wanted)[i];
    CandidatesTrace(reader, wanted, ranked);
    var o := Origins(reader, wanted, ranked)[i];
    assert FromOrigin(reader, wanted, ranked, o, c);
    EntrantAt(events, o.rank);
    e, k, q := OfferIsEventBid(events, reader, wanted, c.start, c.offers[0].payloadType, i, 0);
  }

  /** No needless cuts: where a segment begins or ends, an interval begins or ends that is not empty and carries
      something wanted and readable. */
  lemma SegmentEdgeIsBidEdge(events: seq<Event>, reader: Reader, wanted: Option<set<string>>, s: Segment, x: Instant)
    returns (e: nat, k: nat, q: nat)
    requires s in Resolve(events, reader, wanted).segments && (x == s.start || x == s.end)
    ensures e < |events| && k < |TimedIntervals(events[e])| && q < |TimedIntervals(events[e])[k].interval.payloads|
    ensures (var it := TimedIntervals(events[e])[k];
             && (x == it.start || x == it.end)
             && EventBid(events, reader, wanted, it.start, it.interval.payloads[q].payloadType, e, k, q))
  {
    hide TimedIntervals, Read, Ranked, Candidates, EventBid, Sweep;
    var cands := CandidatesOf(events, reader, wanted);
    SweepElements(cands, Bounds(cands), s);
    BoundsAre(cands);
    assert x in Bounds(cands);
    var c :| c in cands && (x == c.start || x == c.end);
    var i :| 0 <= i < |cands| && cands[i] == c;
    e, k, q := CandidateOffers(events, reader, wanted, i);
  }

  // ---- the audit -------------------------------------------------------------------------------

  ghost predicate UniqueIds(events: seq<Event>) {
    forall i, j :: 0 <= i < j < |events| ==> events[i].id != events[j].id
  }

  lemma {:induction false} FlatHas(intervals: seq<Interval>, interval: Interval, payload: Payload)
    requires interval in intervals && payload in interval.payloads
    ensures payload in FlatPayloads(intervals)
  {
    var n := |intervals| - 1;
    assert intervals == intervals[..n] + [intervals[n]];
    if interval != intervals[n] {
      FlatHas(intervals[..n], interval, payload);
    }
  }

  lemma {:induction false} EntriesHave(events: seq<Event>, x: Entry)
    ensures x in Entries(events) <==> x.event in events && x.payload in FlatPayloads(Intervals(x.event))
  {
    if events != [] {
      var n := |events| - 1;
      assert events == events[..n] + [events[n]];
      EntriesHave(events[..n], x);
      if x.event == events[n] && x.payload in FlatPayloads(Intervals(x.event)) {
        var payloads := FlatPayloads(Intervals(x.event));
        var k :| 0 <= k < |payloads| && payloads[k] == x.payload;
        assert EntriesOf(events[n])[k] == x;
      }
    }
  }

  lemma {:induction false} BaseUses(intervals: seq<Interval>, default: Option<int>, cursor: Option<Instant>,
        x: TimedInterval)
    requires x in BaseFrom(intervals, default, cursor)
    ensures x.interval in intervals
  {
    var timed := EventTiming.Place(intervals[0], default, cursor);
    if x != timed {
      BaseUses(intervals[1..], default, Some(timed.end), x);
    }
  }

  ghost predicate Uses(base: seq<TimedInterval>, x: TimedInterval) {
    exists y :: y in base && y.interval == x.interval
  }

  lemma {:induction false} TrimUses(base: seq<TimedInterval>, end: Instant, x: TimedInterval)
    requires x in Trim(base, end)
    ensures Uses(base, x)
  {
    if base[0].start < end && x == Clip(base[0], 0, end) {
      assert base[0] in base;
    } else {
      TrimUses(base[1..], end, x);
    }
  }

  lemma {:induction false} PassUses(base: seq<TimedInterval>, shift: int, end: Instant, room: nat, x: TimedInterval)
    requires x in Pass(base, shift, end, room)
    ensures Uses(base, x)
  {
    if x == Clip(base[0], shift, end) {
      assert base[0] in base;
    } else {
      PassUses(base[1..], shift, end, room - 1, x);
    }
  }

  lemma {:induction false} PassesUse(base: seq<TimedInterval>, span: int, shift: int, end: Instant, len: nat,
        x: TimedInterval)
    requires base != [] && x in Passes(base, span, shift, end, len)
    ensures Uses(base, x)
    decreases MAX_LOOPED_INTERVALS - len
  {
    var pass := Pass(base, shift, end, MAX_LOOPED_INTERVALS - len);
    if x in pass {
      PassUses(base, shift, end, MAX_LOOPED_INTERVALS - len, x);
    } else {
      PassesUse(base, span, shift + span, end, len + |pass|, x);
    }
  }

  /** Expansion invents no interval. */
  lemma ExpansionUsesDeclared(e: Event, x: TimedInterval)
    requires x in TimedIntervals(e)
    ensures x.interval in Intervals(e)
  {
    var base := BaseIntervals(e);
    var end := EventWindowEnd(e, base);
    if end.Some? {
      var trimmed := Trim(base, end.value);
      if x in trimmed {
        TrimUses(base, end.value, x);
      } else {
        PassesUse(base, Span(base), Span(base), end.value, |trimmed|, x);
      }
      assert Uses(base, x);
    } else {
      assert Uses(base, x);
    }
    var y :| y in base && y.interval == x.interval;
    BaseUses(Intervals(e), DefaultDuration(e), EventStart(e), y);
  }

  /** A refusal of a wanted payload, with the stretch of the interval it stands in. */
  ghost predicate Refuses(reader: Reader, wanted: Option<set<string>>, e: Event, it: TimedInterval, payload: Payload,
      x: RefusedInterval) {
    && (wanted.None? || payload.payloadType in wanted.value)
    && Read(reader, e, payload) == Some(Err(x.refusal))
    && x.start == it.start && x.end == it.end && x.eventName == e.name
  }

  /** x is what payload q of the non-empty interval k of event e has refused. */
  ghost predicate RefusalAt(reader: Reader, wanted: Option<set<string>>, e: Event, timed: seq<TimedInterval>,
      k: nat, q: nat, x: RefusedInterval) {
    && k < |timed| && timed[k].start < timed[k].end && q < |timed[k].interval.payloads|
    && Refuses(reader, wanted, e, timed[k], timed[k].interval.payloads[q], x)
  }

  lemma {:induction false} RefusedInIff(reader: Reader, wanted: Option<set<string>>, e: Event, it: TimedInterval,
        payloads: seq<Payload>, x: RefusedInterval)
    ensures x in RefusedIn(reader, wanted, e, it, payloads) <==>
      exists q :: 0 <= q < |payloads| && Refuses(reader, wanted, e, it, payloads[q], x)
  {
    hide Read;
    if payloads != [] {
      var n := |payloads| - 1;
      RefusedInIff(reader, wanted, e, it, payloads[..n], x);
      if q :| 0 <= q < |payloads| && Refuses(reader, wanted, e, it, payloads[q], x) {
        assert q < n ==> payloads[..n][q] == payloads[q];
      }
    }
  }

  lemma {:induction false} EventRefusalsIff(reader: Reader, wanted: Option<set<string>>, e: Event,
        timed: seq<TimedInterval>, x: RefusedInterval)
    ensures x in EventRefusals(reader, wanted, e, timed) <==>
      exists k: nat, q: nat :: RefusalAt(reader, wanted, e, timed, k, q, x)
  {
    hide RefusedIn, Refuses;
    if timed != [] {
      var n := |timed| - 1;
      var it, front := timed[n], timed[..n];
      EventRefusalsIff(reader, wanted, e, front, x);
      RefusedInIff(reader, wanted, e, it, it.interval.payloads, x);
      if k: nat, q: nat :| RefusalAt(reader, wanted, e, front, k, q, x) {
        assert RefusalAt(reader, wanted, e, timed, k, q, x);
      }
      if x in RefusedIn(reader, wanted, e, it, it.interval.payloads) && it.start < it.end {
        var q :| 0 <= q < |it.interval.payloads| && Refuses(reader, wanted, e, it, it.interval.payloads[q], x);
        assert RefusalAt(reader, wanted, e, timed, n, q, x);
      }
      if k: nat, q: nat :| RefusalAt(reader, wanted, e, timed, k, q, x) {
        assert k < n ==> RefusalAt(reader, wanted, e, front, k, q, x);
      }
    }
  }

  lemma {:induction false} RefusalsIff(reader: Reader, wanted: Option<set<string>>, ranked: seq<Event>,
        x: RefusedInterval)
    ensures x in Refusals(reader, wanted, ranked) <==>
      exists r :: 0 <= r < |ranked| && x in EventRefusals(reader, wanted, ranked[r], TimedIntervals(ranked[r]))
  {
    hide TimedIntervals, EventRefusals;
    if ranked != [] {
      var n := |ranked| - 1;
      RefusalsIff(reader, wanted, ranked[..n], x);
      if r :| 0 <= r < |ranked| && x in EventRefusals(reader, wanted, ranked[r], TimedIntervals(ranked[r])) {
        assert r < n ==> ranked[..n][r] == ranked[r];
      }
    }
  }

  ghost predicate RefusedAt(events: seq<Event>, reader: Reader, wanted: Option<set<string>>, e: nat, k: nat, q: nat,
      x: RefusedInterval) {
    e < |events| && RefusalAt(reader, wanted, events[e], TimedIntervals(events[e]), k, q, x)
  }

  /** What resolving lists as refused is exactly every wanted payload of a non-empty interval that reading it
      refuses, over the interval's stretch, under the event's name. */
  lemma RefusalListedIff(events: seq<Event>, reader: Reader, wanted: Option<set<string>>, x: RefusedInterval)
    ensures x in Resolve(events, reader, wanted).refused <==>
      exists e: nat, k: nat, q: nat :: RefusedAt(events, reader, wanted, e, k, q, x)
  {
    hide TimedIntervals, EventRefusals, RefusalAt, Ranked;
    var ranked := EventsOf(Ranked(events));
    RefusalsIff(reader, wanted, ranked, x);
    if r :| 0 <= r < |ranked| && x in EventRefusals(reader, wanted, ranked[r], TimedIntervals(ranked[r])) {
      EntrantAt(events, r);
      EventRefusalsIff(reader, wanted, ranked[r], TimedIntervals(ranked[r]), x);
      var k: nat, q: nat :| RefusalAt(reader, wanted, ranked[r], TimedIntervals(ranked[r]), k, q, x);
      assert RefusedAt(events, reader, wanted, Ranked(events)[r].position, k, q, x);
    }
    if e: nat, k: nat, q: nat :| RefusedAt(events, reader, wanted, e, k, q, x) {
      var r := RankOf(events, e);
      EventRefusalsIff(reader, wanted, events[e], TimedIntervals(events[e]), x);
    }
  }

  /** Every refusal that resolving lists is one the audit lists. */
  lemma ResolvedRefusalsAreAudited(events: seq<Event>, reader: Reader, wanted: Option<set<string>>, x: RefusedInterval)
    requires x in Resolve(events, reader, wanted).refused
    ensures x.refusal in AuditOf(reader, events)
  {
    hide TimedIntervals, Read, Resolve;
    RefusalListedIff(events, reader, wanted, x);
    var e: nat, k: nat, q: nat :| RefusedAt(events, reader, wanted, e, k, q, x);
    var it := TimedIntervals(events[e])[k];
    ExpansionUsesDeclared(events[e], it);
    FlatHas(Intervals(events[e]), it.interval, it.interval.payloads[q]);
    var entry := Entry(events[e], it.interval.payloads[q]);
    EntriesHave(events, entry);
    assert EntryRefused(reader, entry) && RefusalOf(reader, entry) == x.refusal;
    AuditListsRefusals(reader, events);
  }

  /** With unique event ids, no segment is won by an event and payload type the audit lists as refused. */
  lemma WinnersAreNotRefused(events: seq<Event>, reader: Reader, wanted: Option<set<string>>, s: Segment, p: string,
        r: Refusal)
    requires UniqueIds(events) && s in Resolve(events, reader, wanted).segments && p in s.winners
    requires r in AuditOf(reader, events)
    ensures !(r.eventId == s.winners[p].eventId && r.payloadType == p)
  {
    var segments := Resolve(events, reader, wanted).segments;
    SegmentsAreCanonical(CandidatesOf(events, reader, wanted));
    CoveringFound(segments, s.start, s);
    var e, k, q := WinnerIsEventWinner(events, reader, wanted, s.start, p);
    var payload := TimedIntervals(events[e])[k].interval.payloads[q];
    var x := RefusedEntry(events, reader, r);
    if x.event == events[e] && x.payload.payloadType == p {
      RefusalIsPerType(reader, events[e], x.payload, payload);
    }
    RefusalIsPerType(reader, x.event, x.payload, x.payload);
    var i :| 0 <= i < |events| && events[i] == x.event;
    assert i != e ==> events[i].id != events[e].id;
  }

  lemma RefusedEntry(events: seq<Event>, reader: Reader, r: Refusal) returns (x: Entry)
    requires r in AuditOf(reader, events)
    ensures x.event in events && EntryRefused(reader, x) && RefusalOf(reader, x) == r
    ensures r.eventId == x.event.id && r.payloadType == x.payload.payloadType
  {
    AuditListsRefusals(reader, events);
    x :| x in Entries(events) && EntryRefused(reader, x) && RefusalOf(reader, x) == r;
    EntriesHave(events, x);
    RefusalIsPerType(reader, x.event, x.payload, x.payload);
  }

  /** With unique event ids, the audit lists an event and payload type at most once. */
  lemma OneRefusalPerEventAndType(events: seq<Event>, reader: Reader, a: Refusal, b: Refusal)
    requires UniqueIds(events) && a in AuditOf(reader, events) && b in AuditOf(reader, events)
    requires a.eventId == b.eventId && a.payloadType == b.payloadType
    ensures a == b
  {
    var x := RefusedEntry(events, reader, a);
    var y := RefusedEntry(events, reader, b);
    var i :| 0 <= i < |events| && events[i] == x.event;
    var j :| 0 <= j < |events| && events[j] == y.event;
    assert i == j;
  }
}
