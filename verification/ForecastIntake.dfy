/** The forecasts a VEN has received: which message is kept per series, why the newest was refused, and
    which source it plans on. Times are milliseconds. */
module ForecastIntake {
  import opened Options
  import opened Numbers

  datatype Sign = GenerationPositive | ConsumptionPositive

  datatype Curtailment = Natural

  datatype PayloadError = Parse(text: string) | UnsupportedSchema(version: string) | Invalid(text: string)

  datatype Payload = Payload(
    schemaVersion: string, generatedAt: Instant, validUntil: Instant, modelVersion: string,
    start: Instant, stepS: nat, values: seq<real>, confidence: real, coverageH: real,
    sign: Sign, curtailment: Option<Curtailment>)

  // ---- validity --------------------------------------------------------------------------------

  function HorizonH(len: nat, stepS: nat): real { (len * stepS) as real / 3600.0 }

  /** The text before the first dot. */
  function Major(version: string): string {
    if version == [] || version[0] == '.' then [] else [version[0]] + Major(version[1..])
  }

  function CheckMajor(version: string): Option<PayloadError> {
    if version == "" then Some(Parse("missing field `schema_version`"))
    else if Major(version) == "1" then None
    else Some(UnsupportedSchema(version))
  }

  /** The first rule the payload breaks, in the order the rules are checked. */
  function Validate(p: Payload): Option<PayloadError> {
    if CheckMajor(p.schemaVersion).Some? then CheckMajor(p.schemaVersion)
    else if p.stepS == 0 then Some(Invalid("step_s must be positive"))
    else if p.values == [] then Some(Invalid("values is empty"))
    else if p.validUntil <= p.generatedAt then Some(Invalid("valid_until must be after generated_at"))
    else if !(0.0 <= p.confidence <= 1.0) then Some(Invalid("confidence must be within 0..1"))
    else if AbsR(p.coverageH - HorizonH(|p.values|, p.stepS)) > 0.000001
      then Some(Invalid("coverage_h does not match values and step_s"))
    else match (p.sign, p.curtailment)
      case (GenerationPositive, Some(Natural)) =>
        if exists i :: 0 <= i < |p.values| && p.values[i] < 0.0
        then Some(Invalid("a generation_positive series holds a negative value")) else None
      case (GenerationPositive, None) => Some(Invalid("a generation_positive series must declare curtailment natural"))
      case (ConsumptionPositive, None) => None
      case (ConsumptionPositive, Some(_)) => Some(Invalid("a consumption_positive series has no curtailment"))
  }

  /** Version 1, alone or with a minor part, is the one that is spoken. */
  lemma SpeaksVersionOne(version: string)
    ensures CheckMajor(version).None? <==> version == "1" || (|version| >= 2 && version[..2] == "1.")
    ensures CheckMajor(version).Some? && version != "" ==> CheckMajor(version).value == UnsupportedSchema(version)
    ensures CheckMajor("") == Some(Parse("missing field `schema_version`"))
  {
    if version != "" && version[0] != '.' {
      var rest := version[1..];
      assert Major(rest) == [] <==> rest == [] || rest[0] == '.';
      assert Major(version) == [version[0]] + Major(rest);
      assert Major(version) == "1" ==> |Major(rest)| == 0 && Major(version)[0] == '1';
      if rest == [] {
        assert version == [version[0]];
      } else {
        assert version[..2] == [version[0], rest[0]];
      }
    }
  }

  /** What a valid payload is: a series somebody can plan on, that says how long it is and which way it points. */
  lemma ValidIff(p: Payload)
    ensures Validate(p).None? <==>
      && (p.schemaVersion == "1" || (|p.schemaVersion| >= 2 && p.schemaVersion[..2] == "1."))
      && p.stepS > 0 && p.values != [] && p.generatedAt < p.validUntil && 0.0 <= p.confidence <= 1.0
      && -0.0036 <= p.coverageH * 3600.0 - (|p.values| * p.stepS) as real <= 0.0036
      && (p.sign.GenerationPositive? <==> p.curtailment.Some?)
      && (p.sign.GenerationPositive? ==> forall i :: 0 <= i < |p.values| ==> p.values[i] >= 0.0)
    ensures Validate(p).Some? && CheckMajor(p.schemaVersion).None? ==> Validate(p).value.Invalid?
    ensures CheckMajor(p.schemaVersion).Some? ==> Validate(p) == CheckMajor(p.schemaVersion)
  {
    hide CheckMajor;
    SpeaksVersionOne(p.schemaVersion);
    assert HorizonH(|p.values|, p.stepS) * 3600.0 == (|p.values| * p.stepS) as real;
    assert AbsR(p.coverageH - HorizonH(|p.values|, p.stepS)) <= 0.000001
      <==> -0.0036 <= p.coverageH * 3600.0 - (|p.values| * p.stepS) as real <= 0.0036;
  }

  predicate IsFresh(p: Payload, now: Instant) { now <= p.validUntil }

  /** What the producer fills in besides the series kind. */
  datatype Meta = Meta(generatedAt: Instant, validUntil: Instant, modelVersion: string, confidence: real)

  datatype Kind = PvNatural | BaseLoadKind

  /** The one constructor: it declares sign and curtailment from the kind and validates. */
  function Build(kind: Kind, meta: Meta, start: Instant, stepS: nat, values: seq<real>): Result<Payload, PayloadError> {
    var p := Payload("1.0.0", meta.generatedAt, meta.validUntil, meta.modelVersion, start, stepS, values,
                     meta.confidence, HorizonH(|values|, stepS),
                     if kind.PvNatural? then GenerationPositive else ConsumptionPositive,
                     if kind.PvNatural? then Some(Natural) else None);
    if Validate(p).Some? then Err(Validate(p).value) else Ok(p)
  }

  /** A payload can be built exactly when its series is one that may be published; what is built is
      accepted by the consumer's validation and by the sign check of its own series. */
  lemma BuildMeetsIntake(kind: Kind, meta: Meta, start: Instant, stepS: nat, values: seq<real>)
    ensures Build(kind, meta, start, stepS, values).Ok? <==>
      && stepS > 0 && values != [] && meta.generatedAt < meta.validUntil && 0.0 <= meta.confidence <= 1.0
      && (kind.PvNatural? ==> forall i :: 0 <= i < |values| ==> values[i] >= 0.0)
    ensures Build(kind, meta, start, stepS, values).Ok? ==>
      var p := Build(kind, meta, start, stepS, values).value;
      && Validate(p).None? && p.values == values && p.start == start && p.stepS == stepS
      && meta == Meta(p.generatedAt, p.validUntil, p.modelVersion, p.confidence)
      && (kind.PvNatural? ==> forall id :: Accept(PvKey(id), Readable(p)) == Ok(p))
      && (kind.BaseLoadKind? ==> Accept(BASE_LOAD_KEY, Readable(p)) == Ok(p))
  {
    assert Major("1.0.0") == "1" by {
      assert Major(".0.0") == [] && "1.0.0"[1..] == ".0.0";
    }
    PvKeyRoundTrip("");
    forall id
      ensures IsPvKey(PvKey(id))
    {
      PvKeyRoundTrip(id);
    }
  }

  // ---- keys ------------------------------------------------------------------------------------

  const BASE_LOAD_KEY := "base_load"

  function PvKey(arrayId: string): string { "pv/" + arrayId }

  predicate IsPvKey(key: string) { |key| >= 3 && key[..3] == "pv/" }

  lemma PvKeyRoundTrip(arrayId: string)
    ensures IsPvKey(PvKey(arrayId)) && PvKey(arrayId)[3..] == arrayId
    ensures !IsPvKey(BASE_LOAD_KEY)
  {
    assert BASE_LOAD_KEY[..3][0] == 'b';
  }

  lemma PvKeyOf(key: string)
    requires IsPvKey(key)
    ensures PvKey(key[3..]) == key
  {
    assert key == key[..3] + key[3..];
  }

  /** The series a message of this key is stored under: every key that names no array feeds the base load. */
  datatype SeriesId = Pv(arrayId: string) | BaseLoad

  function SeriesOf(key: string): SeriesId {
    if IsPvKey(key) then Pv(key[3..]) else BaseLoad
  }

  /** An array's messages come under its own key, the base load's under its own. */
  lemma SeriesByKey(arrayId: string)
    ensures SeriesOf("pv/" + arrayId) == Pv(arrayId) && SeriesOf("base_load") == BaseLoad
    ensures forall key: string :: SeriesOf(key) == Pv(arrayId) <==> key == "pv/" + arrayId
  {
    PvKeyRoundTrip(arrayId);
    forall key: string | IsPvKey(key)
      ensures key == "pv/" + key[3..]
    {
      PvKeyOf(key);
    }
  }

  predicate Subscribed(key: string) { IsPvKey(key) || key == BASE_LOAD_KEY }

  // ---- taking messages -------------------------------------------------------------------------

  /** The bytes of a message, as far as the JSON reader got with them. */
  datatype Message = Unreadable(error: PayloadError) | Readable(payload: Payload)

  function WantedSign(key: string): Sign {
    if IsPvKey(key) then GenerationPositive else ConsumptionPositive
  }

  function CheckKind(key: string, p: Payload): Result<Payload, PayloadError> {
    if p.sign == WantedSign(key) then Ok(p)
    else Err(Invalid(key + " takes a " + (if IsPvKey(key) then "generation" else "consumption") + "_positive series"))
  }

  function Accept(key: string, message: Message): Result<Payload, PayloadError> {
    match message
    case Unreadable(error) => Err(error)
    case Readable(p) => if Validate(p).Some? then Err(Validate(p).value) else CheckKind(key, p)
  }

  /** A message is taken exactly when it holds a valid payload that points the way its key's series does, and it
      is taken as it is; otherwise the reader's, the contract's or the key's objection is the answer. */
  lemma AcceptedIff(key: string, message: Message)
    ensures Accept(key, message).Ok? <==>
      && message.Readable? && Validate(message.payload).None?
      && (message.payload.sign.GenerationPositive? <==> SeriesOf(key).Pv?)
    ensures Accept(key, message).Ok? ==> Accept(key, message).value == message.payload
    ensures message.Unreadable? ==> Accept(key, message) == Err(message.error)
    ensures message.Readable? && Validate(message.payload).Some? ==>
              Accept(key, message) == Err(Validate(message.payload).value)
    ensures message.Readable? && Validate(message.payload).None? && Accept(key, message).Err? ==>
              Accept(key, message).error
              == Invalid(key + " takes a " + (if SeriesOf(key).Pv? then "generation" else "consumption")
                         + "_positive series")
  {
    hide Validate;
  }

  /** One line, as shown to the operator. */
  function Reason(error: PayloadError): string {
    match error
    case Parse(m) => "parse error: " + m
    case UnsupportedSchema(v) => "unsupported schema_version: " + v
    case Invalid(m) => "invalid forecast: " + m
  }

  datatype Rejection = Rejection(at: Instant, reason: string)

  datatype Arrival = Arrival(key: string, message: Message, at: Instant)

  /** What was received so far, as a value. */
  datatype Store = Store(pv: map<string, Payload>, baseLoad: Option<Payload>, rejected: map<string, Rejection>)

  const EMPTY_STORE := Store(map[], None, map[])

  function Stored(store: Store, series: SeriesId): Option<Payload> {
    match series
    case Pv(id) => if id in store.pv then Some(store.pv[id]) else None
    case BaseLoad => store.baseLoad
  }

  // ---- the history's answer --------------------------------------------------------------------

  predicate IsAccepted(a: Arrival) { Accept(a.key, a.message).Ok? }

  /** The newest accepted message of a series. */
  function LastAccepted(history: seq<Arrival>, series: SeriesId): Option<Arrival> {
    if history == [] then None else
      var last := history[|history| - 1];
      if SeriesOf(last.key) == series && IsAccepted(last) then Some(last)
      else LastAccepted(history[..|history| - 1], series)
  }

  /** The newest message of a key. */
  function LastOf(history: seq<Arrival>, key: string): Option<Arrival> {
    if history == [] then None
    else if history[|history| - 1].key == key then Some(history[|history| - 1])
    else LastOf(history[..|history| - 1], key)
  }

  /** The store is exactly what the history says: per series the last accepted message, per key the
      refusal of its newest message and nothing for a key whose newest message was accepted. */
  ghost predicate Reflects(store: Store, history: seq<Arrival>) {
    && (forall series :: Stored(store, series) == PayloadOf(LastAccepted(history, series)))
    && (forall key :: key in store.rejected <==> LastOf(history, key).Some? && !IsAccepted(LastOf(history, key).value))
    && (forall key :: key in store.rejected ==> store.rejected[key] == RejectionOf(LastOf(history, key)))
  }

  function PayloadOf(a: Option<Arrival>): Option<Payload> {
    if a.Some? && IsAccepted(a.value) then Some(Accept(a.value.key, a.value.message).value) else None
  }

  function RejectionOf(a: Option<Arrival>): Rejection {
    if a.Some? && !IsAccepted(a.value)
    then Rejection(a.value.at, Reason(Accept(a.value.key, a.value.message).error)) else Rejection(0, "")
  }

  class ReceivedForecasts {
    var pv: map<string, Payload>
    var baseLoad: Option<Payload>
    var baseLoadAsset: Option<string>
    var rejected: map<string, Rejection>
    /** Every message taken so far, oldest first. */
    ghost var history: seq<Arrival>

    ghost predicate Valid()
      reads this
    {
      Reflects(Store(pv, baseLoad, rejected), history)
    }

    constructor (baseLoadAsset: Option<string>)
      ensures Valid() && history == [] && this.baseLoadAsset == baseLoadAsset
    {
      pv, baseLoad, rejected, history := map[], None, map[], [];
      this.baseLoadAsset := baseLoadAsset;
    }

    /** Take one message. The stored state stays what the whole history says. */
    method Apply(key: string, message: Message, now: Instant)
      requires Valid()
      modifies this
      ensures Valid() && history == old(history) + [Arrival(key, message, now)]
      ensures baseLoadAsset == old(baseLoadAsset)
    {
      ghost var before := Store(pv, baseLoad, rejected);
      match Accept(key, message) {
        case Ok(parsed) =>
          rejected := rejected - {key};
          if IsPvKey(key) {
            pv := pv[key[3..] := parsed];
          } else {
            baseLoad := Some(parsed);
          }
        case Err(error) =>
          rejected := rejected[key := Rejection(now, Reason(error))];
      }
      Taken(before, history, Arrival(key, message, now), Store(pv, baseLoad, rejected));
      history := history + [Arrival(key, message, now)];
    }
  }

  /** One message, on values. */
  function Take(store: Store, a: Arrival): Store {
    match Accept(a.key, a.message)
    case Ok(p) =>
      if IsPvKey(a.key) then Store(store.pv[a.key[3..] := p], store.baseLoad, store.rejected - {a.key})
      else Store(store.pv, Some(p), store.rejected - {a.key})
    case Err(error) => store.(rejected := store.rejected[a.key := Rejection(a.at, Reason(error))])
  }

  lemma OneMore(history: seq<Arrival>, a: Arrival)
    ensures forall series :: LastAccepted(history + [a], series)
              == if SeriesOf(a.key) == series && IsAccepted(a) then Some(a) else LastAccepted(history, series)
    ensures forall key :: LastOf(history + [a], key) == if a.key == key then Some(a) else LastOf(history, key)
  {
    hide IsAccepted;
    assert (history + [a])[..|history|] == history;
  }

  lemma Taken(store: Store, history: seq<Arrival>, a: Arrival, store': Store)
    requires Reflects(store, history) && store' == Take(store, a)
    ensures Reflects(store', history + [a])
  {
    hide Validate, LastAccepted, LastOf;
    OneMore(history, a);
    forall series
      ensures Stored(store', series) == PayloadOf(LastAccepted(history + [a], series))
    {
      assert Stored(store, series) == PayloadOf(LastAccepted(history, series));
    }
    forall key
      ensures key in store'.rejected
         <==> LastOf(history + [a], key).Some? && !IsAccepted(LastOf(history + [a], key).value)
      ensures key in store'.rejected ==> store'.rejected[key] == RejectionOf(LastOf(history + [a], key))
    {
      assert key in store.rejected <==> LastOf(history, key).Some? && !IsAccepted(LastOf(history, key).value);
    }
  }

  /** Whatever is stored is valid and points the way its series does; a PV series is never negative. */
  lemma StoredIsValid(store: Store, history: seq<Arrival>, series: SeriesId)
    requires Reflects(store, history) && Stored(store, series).Some?
    ensures var p := Stored(store, series).value;
      && Validate(p).None? && p.stepS > 0 && p.values != [] && p.generatedAt < p.validUntil
      && p.sign == (if series.Pv? then GenerationPositive else ConsumptionPositive)
      && (series.Pv? ==> forall i :: 0 <= i < |p.values| ==> p.values[i] >= 0.0)
  {
    assert Stored(store, series) == PayloadOf(LastAccepted(history, series));
    LastAcceptedIs(history, series);
  }

  predicate TakenFor(a: Arrival, series: SeriesId) { SeriesOf(a.key) == series && Accept(a.key, a.message).Ok? }

  /** Place i of the history is the last one taken for the series. */
  ghost predicate LastTaken(history: seq<Arrival>, series: SeriesId, i: nat) {
    i < |history| && TakenFor(history[i], series) && forall j :: i < j < |history| ==> !TakenFor(history[j], series)
  }

  lemma LastTakenFront(history: seq<Arrival>, series: SeriesId, i: nat)
    requires history != [] && !TakenFor(history[|history| - 1], series)
    ensures LastTaken(history, series, i) <==> LastTaken(history[..|history| - 1], series, i)
  {
    hide TakenFor;
    var front := history[..|history| - 1];
    assert forall j :: 0 <= j < |front| ==> history[j] == front[j];
  }

  /** It is the last message taken for the series; none only if none was. */
  lemma {:induction false} LastAcceptedIs(history: seq<Arrival>, series: SeriesId)
    ensures LastAccepted(history, series).None? <==>
      forall i :: 0 <= i < |history| ==> !TakenFor(history[i], series)
    ensures LastAccepted(history, series).Some? ==>
      exists i: nat :: LastTaken(history, series, i) && history[i] == LastAccepted(history, series).value
  {
    hide Accept, SeriesOf;
    if history != [] {
      var n := |history| - 1;
      var front := history[..n];
      LastAcceptedIs(front, series);
      if TakenFor(history[n], series) {
        assert LastTaken(history, series, n);
      } else {
        assert forall i :: 0 <= i < n ==> history[i] == front[i];
        if LastAccepted(front, series).Some? {
          var i: nat :| LastTaken(front, series, i) && front[i] == LastAccepted(front, series).value;
          LastTakenFront(history, series, i);
        }
      }
    }
  }

  // ---- keys nobody subscribed to ---------------------------------------------------------------

  /** Taking a message of a key leaves the series of every other subscribed key alone exactly when the
      key is itself subscribed: any other key without the array prefix overwrites the base load. */
  lemma TakesOwnSeriesIff(key: string)
    ensures (forall store: Store, a: Arrival, other: string :: a.key == key && other != key && Subscribed(other) ==>
               Stored(Take(store, a), SeriesOf(other)) == Stored(store, SeriesOf(other)))
            <==> Subscribed(key)
  {
    if Subscribed(key) {
      forall store: Store, a: Arrival, other: string | a.key == key && other != key && Subscribed(other)
        ensures Stored(Take(store, a), SeriesOf(other)) == Stored(store, SeriesOf(other))
      {
        OtherSeries(key, other);
      }
    } else {
      var p := Payload("1.0.0", 0, 1, "", 0, 3600, [0.0], 0.0, HorizonH(1, 3600), ConsumptionPositive, None);
      BuildMeetsIntake(BaseLoadKind, Meta(0, 1, "", 0.0), 0, 3600, [0.0]);
      assert Validate(p).None?;
      PvKeyRoundTrip("");
      var a := Arrival(key, Readable(p), 0);
      assert Stored(Take(EMPTY_STORE, a), SeriesOf(BASE_LOAD_KEY)) == Some(p);
    }
  }

  lemma OtherSeries(key: string, other: string)
    requires Subscribed(key) && Subscribed(other) && key != other
    ensures SeriesOf(key) != SeriesOf(other)
  {
    if IsPvKey(key) && IsPvKey(other) {
      PvKeyOf(key);
      PvKeyOf(other);
    }
    PvKeyRoundTrip("");
  }

  // ---- what is planned on ----------------------------------------------------------------------

  datatype Slot = Slot(validAt: Instant, acKw: real, snowFreeKw: real, snowCovered: bool, snowPossible: bool)

  datatype SeriesSource = Forecaster(modelVersion: string, generatedAt: Instant) | InProcess

  /** A consumption series as a value-at-time lookup. */
  datatype ReceivedSeries = ReceivedSeries(start: Instant, stepS: nat, valuesKw: seq<real>)

  function UsablePv(p: Option<Payload>, now: Instant): Option<Payload> {
    if p.Some? && p.value.sign == GenerationPositive && IsFresh(p.value, now) then p else None
  }

  function UsableBaseLoad(p: Option<Payload>, now: Instant): Option<ReceivedSeries> {
    if p.Some? && IsFresh(p.value, now) && p.value.sign == ConsumptionPositive
    then Some(ReceivedSeries(p.value.start, p.value.stepS, p.value.values)) else None
  }

  function PvSlots(p: Payload): seq<Slot> {
    seq(|p.values|, i requires 0 <= i < |p.values| =>
      Slot(p.start + p.stepS * i * 1000, p.values[i], p.values[i], false, false))
  }

  function ChoosePvSeries(received: Option<Payload>, now: Instant,
        own: Option<seq<Slot>>): Option<(seq<Slot>, SeriesSource)> {
    match UsablePv(received, now)
    case Some(p) => Some((PvSlots(p), Forecaster(p.modelVersion, p.generatedAt)))
    case None => if own.Some? then Some((own.value, InProcess)) else None
  }

  function BaseLoadFor(store: Store, seriesAsset: Option<string>, asset: string,
        now: Instant): Option<(ReceivedSeries, Payload)> {
    if seriesAsset != Some(asset) || store.baseLoad.None? then None else
      var series := UsableBaseLoad(store.baseLoad, now);
      if series.Some? then Some((series.value, store.baseLoad.value)) else None
  }

  /** Whatever its series, a payload that points the wrong way is planned on by nobody. */
  lemma WrongSignIsNotPlanned(p: Payload, now: Instant, own: Option<seq<Slot>>, asset: string, store: Store)
    ensures p.sign.ConsumptionPositive? ==>
              ChoosePvSeries(Some(p), now, own) == if own.Some? then Some((own.value, InProcess)) else None
    ensures p.sign.GenerationPositive? && store.baseLoad == Some(p) ==>
              BaseLoadFor(store, Some(asset), asset, now).None?
  {
  }

  // ---- what is displayed -----------------------------------------------------------------------

  datatype SourceKind = ShowsForecaster | ShowsInProcess

  datatype SourceView = SourceView(
    source: SourceKind, modelVersion: Option<string>, ageS: Option<nat>, validUntil: Option<Instant>,
    rejectedReason: Option<string>, rejectedAt: Option<Instant>)

  const U32_MAX: nat := 0xFFFF_FFFF

  function AgeS(generatedAt: Instant, now: Instant): nat {
    if now < generatedAt then 0
    else if (now - generatedAt) / 1000 > U32_MAX then U32_MAX else (now - generatedAt) / 1000
  }

  function ViewOf(store: Store, key: string, p: Option<Payload>, now: Instant): SourceView {
    var rejection := if key in store.rejected then Some(store.rejected[key]) else None;
    SourceView(
      if p.Some? && IsFresh(p.value, now) then ShowsForecaster else ShowsInProcess,
      if p.Some? then Some(p.value.modelVersion) else None,
      if p.Some? then Some(AgeS(p.value.generatedAt, now)) else None,
      if p.Some? then Some(p.value.validUntil) else None,
      if rejection.Some? then Some(rejection.value.reason) else None,
      if rejection.Some? then Some(rejection.value.at) else None)
  }

  function ViewKeys(ids: seq<string>): set<string> {
    (set id | id in ids :: PvKey(id)) + {BASE_LOAD_KEY}
  }

  function SourceViews(store: Store, ids: seq<string>, now: Instant): map<string, SourceView> {
    map key | key in ViewKeys(ids) :: ViewOf(store, key, Stored(store, SeriesOf(key)), now)
  }

  /** The slots of a received series, step by step: its own values as they are, with nothing for snow to add. */
  ghost predicate HoldsValues(slots: seq<Slot>, p: Payload) {
    && |slots| == |p.values|
    && forall i :: 0 <= i < |slots| ==>
         slots[i] == Slot(p.start + p.stepS * i * 1000, p.values[i], p.values[i], false, false)
  }

  /** What an array is planned on: the received series while it is fresh, under its own label; otherwise the own
      computation, if there is one. */
  ghost predicate PlansOn(received: Option<Payload>, now: Instant, own: Option<seq<Slot>>,
      choice: Option<(seq<Slot>, SeriesSource)>) {
    if received.Some? && now <= received.value.validUntil then
      && choice.Some? && HoldsValues(choice.value.0, received.value)
      && choice.value.1 == Forecaster(received.value.modelVersion, received.value.generatedAt)
    else
      choice == if own.Some? then Some((own.value, InProcess)) else None
  }

  /** What the base load is planned on: the received series as it is, while it is fresh. */
  ghost predicate Received(series: ReceivedSeries, p: Payload, now: Instant) {
    series.start == p.start && series.stepS == p.stepS && series.valuesKw == p.values && now <= p.validUntil
  }

  /** Display equals plan, after any history of messages: an array is planned on the received series exactly
      while that is fresh, and its view says Forecaster exactly then; the view of the base load says so exactly
      when the named asset is planned on the received series, and no other asset ever gets it. */
  lemma DisplayEqualsPlan(store: Store, history: seq<Arrival>, seriesAsset: Option<string>, ids: seq<string>,
      now: Instant, own: Option<seq<Slot>>)
    requires Reflects(store, history)
    ensures var views := SourceViews(store, ids, now);
      && (forall id :: id in ids ==>
            && PvKey(id) in views
            && PlansOn(Stored(store, Pv(id)), now, own, ChoosePvSeries(Stored(store, Pv(id)), now, own))
            && (views[PvKey(id)].source == ShowsForecaster <==>
                  var choice := ChoosePvSeries(Stored(store, Pv(id)), now, own);
                  choice.Some? && choice.value.1.Forecaster?))
      && BASE_LOAD_KEY in views
      && (forall asset :: BaseLoadFor(store, seriesAsset, asset, now).Some? <==>
            seriesAsset == Some(asset) && views[BASE_LOAD_KEY].source == ShowsForecaster)
      && (forall asset :: BaseLoadFor(store, seriesAsset, asset, now).Some? ==>
            var planned := BaseLoadFor(store, seriesAsset, asset, now).value;
            Stored(store, BaseLoad) == Some(planned.1) && Received(planned.0, planned.1, now))
  {
    hide Validate, ViewOf, PlansOn, ChoosePvSeries, BaseLoadFor, Received, Reflects;
    PvKeyRoundTrip("");
    forall id | id in ids
      ensures SeriesOf(PvKey(id)) == Pv(id)
      ensures (var received, view := Stored(store, Pv(id)), ViewOf(store, PvKey(id), Stored(store, Pv(id)), now);
               var choice := ChoosePvSeries(received, now, own);
               && PlansOn(received, now, own, choice)
               && (view.source == ShowsForecaster <==> choice.Some? && choice.value.1.Forecaster?))
    {
      PvKeyRoundTrip(id);
      ArrayShown(store, history, id, now, own);
    }
    forall asset
      ensures BaseLoadFor(store, seriesAsset, asset, now).Some? <==>
        seriesAsset == Some(asset) && ViewOf(store, BASE_LOAD_KEY, store.baseLoad, now).source == ShowsForecaster
      ensures BaseLoadFor(store, seriesAsset, asset, now).Some? ==>
        (var planned := BaseLoadFor(store, seriesAsset, asset, now).value;
         store.baseLoad == Some(planned.1) && Received(planned.0, planned.1, now))
    {
      BaseLoadShown(store, history, seriesAsset, asset, now);
    }
  }

  lemma ArrayShown(store: Store, history: seq<Arrival>, id: string, now: Instant, own: Option<seq<Slot>>)
    requires Reflects(store, history)
    ensures (var received, view := Stored(store, Pv(id)), ViewOf(store, PvKey(id), Stored(store, Pv(id)), now);
             var choice := ChoosePvSeries(received, now, own);
             && PlansOn(received, now, own, choice)
             && (view.source == ShowsForecaster <==> choice.Some? && choice.value.1.Forecaster?))
  {
    hide Validate, Reflects;
    if Stored(store, Pv(id)).Some? {
      StoredIsValid(store, history, Pv(id));
    }
  }

  lemma BaseLoadShown(store: Store, history: seq<Arrival>, seriesAsset: Option<string>, asset: string, now: Instant)
    requires Reflects(store, history)
    ensures BaseLoadFor(store, seriesAsset, asset, now).Some? <==>
      seriesAsset == Some(asset) && ViewOf(store, BASE_LOAD_KEY, store.baseLoad, now).source == ShowsForecaster
    ensures BaseLoadFor(store, seriesAsset, asset, now).Some? ==>
      (var planned := BaseLoadFor(store, seriesAsset, asset, now).value;
       store.baseLoad == Some(planned.1) && Received(planned.0, planned.1, now))
  {
    hide Validate, Reflects;
    if store.baseLoad.Some? {
      StoredIsValid(store, history, BaseLoad);
    }
  }

  /** The base load's view says Forecaster exactly when some asset plans on the received series. */
  ghost predicate BaseLoadShownIsPlanned(store: Store, seriesAsset: Option<string>, now: Instant) {
    ViewOf(store, BASE_LOAD_KEY, store.baseLoad, now).source == ShowsForecaster
    <==> exists asset :: BaseLoadFor(store, seriesAsset, asset, now).Some?
  }

  /** The source shown for the base load is the one in use exactly when an asset is named for the series, or
      nothing fresh was received: without a named asset, a fresh series is shown and nobody plans on it. */
  lemma BaseLoadShownIsPlannedIff(store: Store, history: seq<Arrival>, seriesAsset: Option<string>, now: Instant)
    requires Reflects(store, history)
    ensures BaseLoadShownIsPlanned(store, seriesAsset, now)
       <==> seriesAsset.Some? || store.baseLoad.None? || !IsFresh(store.baseLoad.value, now)
  {
    hide Validate;
    if store.baseLoad.Some? {
      StoredIsValid(store, history, BaseLoad);
      if seriesAsset.Some? && IsFresh(store.baseLoad.value, now) {
        assert BaseLoadFor(store, seriesAsset, seriesAsset.value, now).Some?;
      }
    }
  }

  /** Such a state: one valid message, and no asset named. */
  lemma ShownButNotPlanned()
    ensures exists store: Store, history: seq<Arrival> ::
      Reflects(store, history) && |history| == 1 && !BaseLoadShownIsPlanned(store, None, 0)
  {
    var meta := Meta(0, 1, "", 0.0);
    BuildMeetsIntake(BaseLoadKind, meta, 0, 3600, [0.0]);
    hide Validate;
    var p := Build(BaseLoadKind, meta, 0, 3600, [0.0]).value;
    var a := Arrival(BASE_LOAD_KEY, Readable(p), 0);
    var store := Take(EMPTY_STORE, a);
    PvKeyRoundTrip("");
    Taken(EMPTY_STORE, [], a, store);
    assert [] + [a] == [a];
    BaseLoadShownIsPlannedIff(store, [a], None, 0);
    assert store.baseLoad == Some(p) && p.validUntil == 1;
  }

  /** A view carries a reason exactly when the newest message of its key was refused, and it is that
      message's reason. */
  lemma DisplayedRejection(store: Store, history: seq<Arrival>, ids: seq<string>, now: Instant, key: string)
    requires Reflects(store, history) && key in ViewKeys(ids)
    ensures var view := SourceViews(store, ids, now)[key];
            var newest := LastOf(history, key);
      && (view.rejectedReason.Some? <==> newest.Some? && !IsAccepted(newest.value))
      && (view.rejectedReason.Some? ==>
            && view.rejectedReason == Some(Reason(Accept(newest.value.key, newest.value.message).error))
            && view.rejectedAt == Some(newest.value.at))
  {
    hide Validate;
    assert key in store.rejected <==> LastOf(history, key).Some? && !IsAccepted(LastOf(history, key).value);
    LastOfIs(history, key);
  }

  /** It is a message of the key with none after it; none only if there is none. */
  lemma {:induction false} LastOfIs(history: seq<Arrival>, key: string)
    ensures LastOf(history, key).None? <==> forall i :: 0 <= i < |history| ==> history[i].key != key
    ensures LastOf(history, key).Some? ==>
      (exists i :: 0 <= i < |history| && history[i] == LastOf(history, key).value
                   && history[i].key == key && forall j :: i < j < |history| ==> history[j].key != key)
  {
    if history != [] {
      var n := |history| - 1;
      var front := history[..n];
      LastOfIs(front, key);
      if history[n].key != key && LastOf(front, key).Some? {
        var i :| 0 <= i < n && front[i] == LastOf(front, key).value && front[i].key == key
          && forall j :: i < j < n ==> front[j].key != key;
        assert history[i] == front[i];
        assert forall j :: i < j < n ==> history[j] == front[j];
      }
    }
  }

  /** There is a view for each array and the base load and no other, and it describes the stored payload, fresh
      or not: its model, its limit, and its age in whole seconds, as far as 32 bits hold it. */
  lemma DisplayedPayload(store: Store, ids: seq<string>, now: Instant, key: string)
    ensures key in SourceViews(store, ids, now) <==> key == "base_load" || exists id :: id in ids && key == "pv/" + id
    ensures key in SourceViews(store, ids, now) ==>
      (var view, p := SourceViews(store, ids, now)[key], Stored(store, SeriesOf(key));
       if p.None? then view.modelVersion.None? && view.ageS.None? && view.validUntil.None? else
         && view.modelVersion == Some(p.value.modelVersion) && view.validUntil == Some(p.value.validUntil)
         && view.ageS.Some? && 0 <= view.ageS.value <= 4294967295
         && var age, s := now - p.value.generatedAt, view.ageS.value;
            (s > 0 ==> s * 1000 <= age) && (s < 4294967295 ==> age < (s + 1) * 1000))
  {
    if id :| id in ids && key == "pv/" + id {
      assert PvKey(id) == key;
    }
  }

  // ---- reading the received series -------------------------------------------------------------

  /** Whole seconds of a duration, rounded toward zero. */
  function WholeSeconds(ms: int): int {
    if ms >= 0 then ms / 1000 else -((-ms) / 1000)
  }

  function At(s: ReceivedSeries, t: Instant): Option<real>
    requires s.stepS > 0
  {
    var elapsed := WholeSeconds(t - s.start);
    if elapsed < 0 then None else
      var index := elapsed / s.stepS;
      if index < |s.valuesKw| then Some(s.valuesKw[index]) else None
  }

  lemma QuotientIs(x: nat, d: nat, i: nat)
    requires d > 0 && i * d <= x < (i + 1) * d
    ensures x / d == i
  {
    var q := x / d;
    assert x == q * d + x % d;
    MulAtLeast(q - i, d);
    MulAtLeast(i - q, d);
    assert (q - i) * d == q * d - i * d;
    assert (i - q) * d == i * d - q * d;
    assert (i + 1) * d == i * d + d;
  }

  /** Each value covers its whole step. */
  lemma AtHoldsEachStep(s: ReceivedSeries, t: Instant, i: nat)
    requires s.stepS > 0 && i < |s.valuesKw|
    requires s.start + i * s.stepS * 1000 <= t < s.start + (i + 1) * s.stepS * 1000
    ensures At(s, t) == Some(s.valuesKw[i])
  {
    var ms := t - s.start;
    assert i * s.stepS >= 0;
    assert i * s.stepS <= ms / 1000 < (i + 1) * s.stepS;
    QuotientIs(ms / 1000, s.stepS, i);
  }

  /** Where the lookup answers. The source promises None outside the series; because seconds are
      rounded toward zero, the last second before the start answers too, with the first value. */
  lemma AtAnswersExactly(s: ReceivedSeries, t: Instant)
    requires s.stepS > 0 && s.valuesKw != []
    ensures At(s, t).Some? <==> s.start - 1000 < t < s.start + |s.valuesKw| * s.stepS * 1000
    ensures At(s, t).Some? && t < s.start <==> s.start - 1000 < t < s.start
    ensures s.start - 1000 < t < s.start ==> At(s, t) == Some(s.valuesKw[0])
  {
    var ms := t - s.start;
    var n := |s.valuesKw|;
    if ms >= 0 {
      var elapsed := ms / 1000;
      var index := elapsed / s.stepS;
      assert index < n <==> elapsed < n * s.stepS by { IndexBelow(elapsed, s.stepS, n); }
      assert elapsed < n * s.stepS <==> ms < n * s.stepS * 1000;
    } else {
      assert n * s.stepS >= 0;
      assert WholeSeconds(ms) < 0 <==> ms <= -1000;
      assert ms > -1000 ==> WholeSeconds(ms) == 0;
      assert 0 / s.stepS == 0;
    }
  }

  lemma IndexBelow(x: nat, d: nat, n: nat)
    requires d > 0
    ensures x / d < n <==> x < n * d
  {
    var q := x / d;
    assert x == q * d + x % d;
    MulAtLeast(n - q, d);
    assert (n - q) * d == n * d - q * d;
    if q >= n {
      assert (q - n) * d >= 0;
      assert (q - n) * d == q * d - n * d;
    }
  }

  /** The PV slots of a payload and the step-held lookup of the same grid agree at every slot. */
  lemma SlotsAreTheGrid(p: Payload, i: nat)
    requires p.stepS > 0 && i < |p.values|
    ensures |PvSlots(p)| == |p.values|
    ensures At(ReceivedSeries(p.start, p.stepS, p.values), PvSlots(p)[i].validAt) == Some(PvSlots(p)[i].acKw)
    ensures !PvSlots(p)[i].snowPossible && PvSlots(p)[i].snowFreeKw == PvSlots(p)[i].acKw
  {
    assert p.stepS * i == i * p.stepS && (i + 1) * p.stepS == i * p.stepS + p.stepS;
    AtHoldsEachStep(ReceivedSeries(p.start, p.stepS, p.values), PvSlots(p)[i].validAt, i);
  }
}
