/** The parts of an OpenADR event that timing, ranking and reading values look at.
    Instants and durations are whole milliseconds; durations have a fixed length. */
module EventModel {
  import opened Options
  import opened Numbers

  /** The first and last instant the program's date type can hold; they stand for an open start
      and an open end. */
  const OPEN_START: Instant := -8334601228800000
  const OPEN_END: Instant := 8210266876799999

  datatype Period = Period(start: Instant, duration: Option<int>, randomizeStart: Option<int>)

  datatype Value = Number(n: real) | Integer(i: int) | NotNumeric

  datatype Payload = Payload(payloadType: string, values: seq<Value>)

  datatype Interval = Interval(period: Option<Period>, payloads: seq<Payload>)

  datatype Descriptor = Descriptor(payloadType: string, units: Option<string>, currency: Option<string>)

  datatype Event = Event(
    id: string, programId: string, name: Option<string>, created: Instant, priority: Option<nat>,
    descriptors: Option<seq<Descriptor>>, period: Option<Period>, duration: Option<int>,
    intervals: Option<seq<Interval>>)

  /** An event without an interval list is read as one with an empty list. */
  function Intervals(e: Event): seq<Interval> {
    if e.intervals.Some? then e.intervals.value else []
  }

  /** Date arithmetic that answers None outside the range the date type can hold. */
  function CheckedAdd(t: Instant, d: int): Option<Instant> {
    if OPEN_START <= t + d <= OPEN_END then Some(t + d) else None
  }
}
