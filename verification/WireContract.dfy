/** What an incoming event value means: it is read through the event's descriptors, else the
    program's, else the profile default, and refused when what is declared is not what the profile
    reads. The audit lists what one poll assumed and had refused. */
module WireContract {
  import opened Options
  import opened EventModel
  import opened Sorting

  datatype Quantity =
    EnergyKwh | PowerKw | Percent | PricePerKwhEur | EmissionGPerKwh | State | Dimensionless

  function Units(q: Quantity): Option<string> {
    match q
    case EnergyKwh | PricePerKwhEur => Some("KWH")
    case PowerKw => Some("KW")
    case Percent => Some("PERCENT")
    case EmissionGPerKwh => Some("GHG")
    case State | Dimensionless => None
  }

  function Currency(q: Quantity): Option<string> {
    if q.PricePerKwhEur? then Some("EUR") else None
  }

  function EventQuantityOf(payloadType: string): Option<Quantity> {
    match payloadType
    case "SIMPLE" => Some(Dimensionless)
    case "IMPORT_CAPACITY_LIMIT" => Some(PowerKw)
    case "EXPORT_CAPACITY_LIMIT" => Some(PowerKw)
    case "CHARGE_STATE_SETPOINT" => Some(Percent)
    case "PRICE" => Some(PricePerKwhEur)
    case "EXPORT_PRICE" => Some(PricePerKwhEur)
    case "GHG" => Some(EmissionGPerKwh)
    case "DISPATCH_SETPOINT" => Some(PowerKw)
    case "IMPORT_CAPACITY_SUBSCRIPTION" => Some(PowerKw)
    case "EXPORT_CAPACITY_SUBSCRIPTION" => Some(PowerKw)
    case "IMPORT_CAPACITY_RESERVATION" => Some(PowerKw)
    case "EXPORT_CAPACITY_RESERVATION" => Some(PowerKw)
    case _ => None
  }

  datatype DeclaredBy = ByEvent | ByProgram | ProfileDefault | NothingToDeclare

  datatype Reading = Reading(value: real, declaredBy: DeclaredBy)

  datatype Refusal = Refusal(eventId: string, payloadType: string, declared: string, expected: string)

  /** Program id to that program's event payload descriptors. */
  type Reader = map<string, seq<Descriptor>>

  function NumericValue(p: Payload): Option<real> {
    if p.values == [] then None else
      match p.values[0]
      case Number(n) => Some(n)
      case Integer(i) => Some(i as real)
      case NotNumeric => None
  }

  function FindDescriptor(ds: seq<Descriptor>, payloadType: string): Option<Descriptor> {
    if ds == [] then None
    else if ds[0].payloadType == payloadType then Some(ds[0])
    else FindDescriptor(ds[1..], payloadType)
  }

  datatype Declaration = Matches | Silent | Differs(declared: string, expected: string)

  function Side(units: Option<string>, currency: Option<string>): string {
    (if units.Some? then "units " + units.value else "")
    + (if units.Some? && currency.Some? then " " else "")
    + (if currency.Some? then "currency " + currency.value else "")
  }

  predicate SaysOtherwise(declared: Option<string>, expected: Option<string>) {
    declared.Some? && declared != expected
  }

  function Check(d: Descriptor, q: Quantity): Declaration {
    if d.units.None? && d.currency.None? then Silent
    else if SaysOtherwise(d.units, Units(q)) || SaysOtherwise(d.currency, Currency(q)) then
      var expected := Side(Units(q), Currency(q));
      Differs(Side(d.units, d.currency), if expected == "" then "no unit" else expected)
    else Matches
  }

  function EventDescriptor(e: Event, payloadType: string): Option<Descriptor> {
    if e.descriptors.Some? then FindDescriptor(e.descriptors.value, payloadType) else None
  }

  function ProgramDescriptor(reader: Reader, e: Event, payloadType: string): Option<Descriptor> {
    if e.programId in reader then FindDescriptor(reader[e.programId], payloadType) else None
  }

  /** Who settles the unit of a payload type of an event, or why it is refused. */
  function Settle(reader: Reader, e: Event, payloadType: string): Result<DeclaredBy, Refusal> {
    var quantity := EventQuantityOf(payloadType);
    if quantity.None? then Ok(NothingToDeclare) else
      var q := quantity.value;
      var fallback := Ok(if Units(q).None? then NothingToDeclare else ProfileDefault);
      var byProgram := SettleBy(ProgramDescriptor(reader, e, payloadType), q, ByProgram, e, payloadType, fallback);
      SettleBy(EventDescriptor(e, payloadType), q, ByEvent, e, payloadType, byProgram)
  }

  function SettleBy(
    d: Option<Descriptor>, q: Quantity, who: DeclaredBy, e: Event, payloadType: string,
    next: Result<DeclaredBy, Refusal>): Result<DeclaredBy, Refusal>
  {
    if d.None? then next else
      match Check(d.value, q)
      case Matches => Ok(who)
      case Silent => next
      case Differs(declared, expected) => Err(Refusal(e.id, payloadType, declared, expected))
  }

  /** The payload's value with who declared its unit; Err when the declaration cannot be honoured;
      None when it carries no number. */
  function Read(reader: Reader, e: Event, p: Payload): Option<Result<Reading, Refusal>> {
    var value := NumericValue(p);
    if value.None? then None else
      match Settle(reader, e, p.payloadType)
      case Ok(who) => Some(Ok(Reading(value.value, who)))
      case Err(refusal) => Some(Err(refusal))
  }

  predicate Refused(reader: Reader, e: Event, p: Payload) {
    Read(reader, e, p).Some? && Read(reader, e, p).value.Err?
  }

  predicate Readable(reader: Reader, e: Event, p: Payload) {
    Read(reader, e, p).Some? && Read(reader, e, p).value.Ok?
  }

  predicate Assumed(reader: Reader, e: Event, p: Payload) {
    Readable(reader, e, p) && Read(reader, e, p).value.value.declaredBy == ProfileDefault
  }

  /** The descriptor that is listened to: the event's, unless it names neither unit nor currency, and
      then the program's on the same terms. */
  function Heard(reader: Reader, e: Event, payloadType: string): Option<Descriptor> {
    var own := EventDescriptor(e, payloadType);
    var program := ProgramDescriptor(reader, e, payloadType);
    if own.Some? && (own.value.units.Some? || own.value.currency.Some?) then own
    else if program.Some? && (program.value.units.Some? || program.value.currency.Some?) then program
    else None
  }

  /** A number of a type the profile defines is refused exactly when the descriptor listened to names
      a unit or a currency the profile does not read; it is assumed exactly when nobody is listened
      to and the type has a unit. A type the profile does not define is never either. */
  lemma ReadFollowsDeclarations(reader: Reader, e: Event, p: Payload)
    requires NumericValue(p).Some?
    ensures var heard := Heard(reader, e, p.payloadType);
            var quantity := EventQuantityOf(p.payloadType);
      && (Refused(reader, e, p) <==>
            && quantity.Some? && heard.Some?
            && ((heard.value.units.Some? && heard.value.units != Units(quantity.value))
                || (heard.value.currency.Some? && heard.value.currency != Currency(quantity.value))))
      && (Assumed(reader, e, p) <==> quantity.Some? && heard.None? && Units(quantity.value).Some?)
      && (Readable(reader, e, p) ==> Read(reader, e, p).value.value.value == NumericValue(p).value)
  {
    if EventQuantityOf(p.payloadType).Some? {
      var q := EventQuantityOf(p.payloadType).value;
      var own, program := EventDescriptor(e, p.payloadType), ProgramDescriptor(reader, e, p.payloadType);
      assert own.Some? ==> (Check(own.value, q).Silent? <==> own.value.units.None? && own.value.currency.None?);
      assert program.Some? ==>
        (Check(program.value, q).Silent? <==> program.value.units.None? && program.value.currency.None?);
    }
  }

  /** Within one event, a payload type is refused for every number or for none. */
  lemma RefusalIsPerType(reader: Reader, e: Event, p: Payload, q: Payload)
    requires p.payloadType == q.payloadType && Refused(reader, e, p)
    ensures !Readable(reader, e, q)
    ensures Read(reader, e, p).value.error.eventId == e.id
            && Read(reader, e, p).value.error.payloadType == p.payloadType
  {
  }

  // ---- the same, on what is written ------------------------------------------------------------

  /** A payload is read exactly when its first value is a number, whole or not, and read as that number. */
  lemma ReadsFirstNumber(reader: Reader, e: Event, p: Payload)
    ensures Read(reader, e, p).None? <==> p.values == [] || p.values[0].NotNumeric?
    ensures Readable(reader, e, p) && p.values[0].Integer? ==>
              Read(reader, e, p).value.value.value == p.values[0].i as real
    ensures Readable(reader, e, p) && p.values[0].Number? ==> Read(reader, e, p).value.value.value == p.values[0].n
  {
  }

  /** Descriptor k is the first of its list for this payload type. */
  ghost predicate FirstFor(ds: seq<Descriptor>, payloadType: string, k: nat) {
    k < |ds| && ds[k].payloadType == payloadType && forall i :: 0 <= i < k ==> ds[i].payloadType != payloadType
  }

  lemma {:induction false} FirstIsFound(ds: seq<Descriptor>, payloadType: string, k: nat)
    requires FirstFor(ds, payloadType, k)
    ensures FindDescriptor(ds, payloadType) == Some(ds[k])
  {
    if k > 0 {
      assert ds[0].payloadType != payloadType;
      FirstIsFound(ds[1..], payloadType, k - 1);
    }
  }

  lemma {:induction false} FoundIsFirst(ds: seq<Descriptor>, payloadType: string) returns (k: nat)
    requires FindDescriptor(ds, payloadType).Some?
    ensures FirstFor(ds, payloadType, k) && ds[k] == FindDescriptor(ds, payloadType).value
  {
    if ds[0].payloadType == payloadType {
      k := 0;
    } else {
      k := FoundIsFirst(ds[1..], payloadType);
      k := k + 1;
    }
  }

  /** In this list, the first descriptor for the type is d, and it names a unit or a currency. */
  ghost predicate Speaks(ds: Option<seq<Descriptor>>, payloadType: string, d: Descriptor) {
    ds.Some? && (d.units.Some? || d.currency.Some?)
    && exists k: nat :: FirstFor(ds.value, payloadType, k) && ds.value[k] == d
  }

  /** The descriptors of an event's program, if it is known. */
  function ProgramDescriptors(reader: Reader, e: Event): Option<seq<Descriptor>> {
    if e.programId in reader then Some(reader[e.programId]) else None
  }

  /** It names a unit or a currency the profile does not read. */
  predicate Contradicts(d: Descriptor, q: Quantity) {
    (d.units.Some? && d.units != Units(q)) || (d.currency.Some? && d.currency != Currency(q))
  }

  lemma SpeaksIff(ds: Option<seq<Descriptor>>, payloadType: string, d: Descriptor)
    ensures Speaks(ds, payloadType, d) <==>
            && ds.Some? && FindDescriptor(ds.value, payloadType) == Some(d)
            && (d.units.Some? || d.currency.Some?)
  {
    if ds.Some? && FindDescriptor(ds.value, payloadType) == Some(d) {
      var k := FoundIsFirst(ds.value, payloadType);
    }
    if Speaks(ds, payloadType, d) {
      var k: nat :| FirstFor(ds.value, payloadType, k) && ds.value[k] == d;
      FirstIsFound(ds.value, payloadType, k);
    }
  }

  /** A declared value is read through the event's own descriptor when that names something; then it is taken
      or refused on that alone. */
  lemma EventDescriptorDecides(reader: Reader, e: Event, p: Payload, d: Descriptor)
    requires p.values != [] && !p.values[0].NotNumeric? && EventQuantityOf(p.payloadType).Some?
    requires Speaks(e.descriptors, p.payloadType, d)
    ensures Refused(reader, e, p) <==> Contradicts(d, EventQuantityOf(p.payloadType).value)
    ensures Readable(reader, e, p) ==> Read(reader, e, p).value.value.declaredBy == ByEvent
  {
    SpeaksIff(e.descriptors, p.payloadType, d);
  }

  /** Else through the program's, on the same terms. */
  lemma ProgramDescriptorDecides(reader: Reader, e: Event, p: Payload, d: Descriptor)
    requires p.values != [] && !p.values[0].NotNumeric? && EventQuantityOf(p.payloadType).Some?
    requires !exists own :: Speaks(e.descriptors, p.payloadType, own)
    requires Speaks(ProgramDescriptors(reader, e), p.payloadType, d)
    ensures Refused(reader, e, p) <==> Contradicts(d, EventQuantityOf(p.payloadType).value)
    ensures Readable(reader, e, p) ==> Read(reader, e, p).value.value.declaredBy == ByProgram
  {
    SpeaksIff(ProgramDescriptors(reader, e), p.payloadType, d);
    var own := EventDescriptor(e, p.payloadType);
    if own.Some? {
      SpeaksIff(e.descriptors, p.payloadType, own.value);
    }
  }

  /** Else by the profile's default; a type without a unit, or unknown to the profile, has nothing to declare. */
  lemma NobodyDecides(reader: Reader, e: Event, p: Payload)
    requires p.values != [] && !p.values[0].NotNumeric?
    requires EventQuantityOf(p.payloadType).Some? ==>
      && !(exists d :: Speaks(e.descriptors, p.payloadType, d))
      && !(exists d :: Speaks(ProgramDescriptors(reader, e), p.payloadType, d))
    ensures Readable(reader, e, p)
    ensures Read(reader, e, p).value.value.declaredBy
         == if EventQuantityOf(p.payloadType).Some? && Units(EventQuantityOf(p.payloadType).value).Some?
            then ProfileDefault else NothingToDeclare
  {
    if EventQuantityOf(p.payloadType).Some? {
      var own, program := EventDescriptor(e, p.payloadType), ProgramDescriptor(reader, e, p.payloadType);
      if own.Some? {
        SpeaksIff(e.descriptors, p.payloadType, own.value);
      }
      if program.Some? {
        SpeaksIff(ProgramDescriptors(reader, e), p.payloadType, program.value);
      }
    }
  }

  /** The profile's table: which payload types it defines, in which unit, and which are money. */
  lemma ProfileTable(payloadType: string)
    ensures var q := EventQuantityOf(payloadType);
            var power := {"IMPORT_CAPACITY_LIMIT", "EXPORT_CAPACITY_LIMIT", "DISPATCH_SETPOINT",
                          "IMPORT_CAPACITY_SUBSCRIPTION", "EXPORT_CAPACITY_SUBSCRIPTION",
                          "IMPORT_CAPACITY_RESERVATION", "EXPORT_CAPACITY_RESERVATION"};
            var price := {"PRICE", "EXPORT_PRICE"};
      && (q.Some? && Units(q.value) == Some("KW") <==> payloadType in power)
      && (q.Some? && Units(q.value) == Some("KWH") <==> payloadType in price)
      && (q.Some? && Units(q.value) == Some("PERCENT") <==> payloadType == "CHARGE_STATE_SETPOINT")
      && (q.Some? && Units(q.value) == Some("GHG") <==> payloadType == "GHG")
      && (q.Some? && Units(q.value).None? <==> payloadType == "SIMPLE")
      && (q.Some? && Currency(q.value) == Some("EUR") <==> payloadType in price)
      && (q.Some? && Currency(q.value).None? ==> payloadType !in price)
      && (q.Some? <==> payloadType in power + price + {"CHARGE_STATE_SETPOINT", "GHG", "SIMPLE"})
  {
  }

  /** The words of a refusal name what was declared, units before currency. */
  lemma DeclaredWords(d: Descriptor, q: Quantity)
    requires Contradicts(d, q)
    ensures Check(d, q).Differs?
    ensures d.units.Some? && d.currency.Some? ==>
              Check(d, q).declared == "units " + d.units.value + " " + ("currency " + d.currency.value)
    ensures d.units.Some? && d.currency.None? ==> Check(d, q).declared == "units " + d.units.value
    ensures d.units.None? ==> Check(d, q).declared == "currency " + d.currency.value
  {
    hide Units, Currency;
    SideWords(d.units, d.currency);
  }

  lemma SideWords(units: Option<string>, currency: Option<string>)
    ensures units.Some? && currency.Some? ==>
              Side(units, currency) == "units " + units.value + " " + ("currency " + currency.value)
    ensures units.Some? && currency.None? ==> Side(units, currency) == "units " + units.value
    ensures units.None? && currency.Some? ==> Side(units, currency) == "currency " + currency.value
    ensures units.None? && currency.None? ==> Side(units, currency) == ""
  {
  }

  /** And what the profile reads the type as instead. */
  lemma ExpectedWords(d: Descriptor, q: Quantity)
    requires Contradicts(d, q)
    ensures Check(d, q).Differs?
    ensures q.PowerKw? ==> Check(d, q).expected == "units " + "KW"
    ensures q.EnergyKwh? ==> Check(d, q).expected == "units " + "KWH"
    ensures q.PricePerKwhEur? ==> Check(d, q).expected == "units " + "KWH" + " " + ("currency " + "EUR")
    ensures q.Percent? ==> Check(d, q).expected == "units " + "PERCENT"
    ensures q.EmissionGPerKwh? ==> Check(d, q).expected == "units " + "GHG"
    ensures q.Dimensionless? || q.State? ==> Check(d, q).expected == "no unit"
  {
    hide Side;
    SideWords(Units(q), Currency(q));
  }

  // ---- the audit -------------------------------------------------------------------------------

  datatype Audit = Audit(assumed: map<string, nat>, refusals: seq<Refusal>)

  datatype Entry = Entry(event: Event, payload: Payload)

  function FlatPayloads(intervals: seq<Interval>): seq<Payload> {
    if intervals == [] then [] else FlatPayloads(intervals[..|intervals| - 1]) + intervals[|intervals| - 1].payloads
  }

  function EntriesOf(e: Event): (r: seq<Entry>) {
    var payloads := FlatPayloads(Intervals(e));
    seq(|payloads|, k requires 0 <= k < |payloads| => Entry(e, payloads[k]))
  }

  /** Every payload of every event, with its event, in list order. */
  function Entries(events: seq<Event>): seq<Entry> {
    if events == [] then [] else Entries(events[..|events| - 1]) + EntriesOf(events[|events| - 1])
  }

  predicate EntryRefused(reader: Reader, x: Entry) { Refused(reader, x.event, x.payload) }

  function RefusalOf(reader: Reader, x: Entry): Refusal
    requires EntryRefused(reader, x)
  {
    Read(reader, x.event, x.payload).value.error
  }

  function AssumedCount(reader: Reader, entries: seq<Entry>, payloadType: string): nat {
    if entries == [] then 0 else
      var last := entries[|entries| - 1];
      AssumedCount(reader, entries[..|entries| - 1], payloadType)
      + if Assumed(reader, last.event, last.payload) && last.payload.payloadType == payloadType then 1 else 0
  }

  function RefusalsOf(reader: Reader, entries: seq<Entry>): seq<Refusal> {
    if entries == [] then [] else
      var last := entries[|entries| - 1];
      RefusalsOf(reader, entries[..|entries| - 1])
      + if EntryRefused(reader, last) then [RefusalOf(reader, last)] else []
  }

  predicate CharLe(a: char, b: char) { a <= b }

  predicate StringLe(a: string, b: string) { LexLe(a, b, CharLe) }

  function Fields(r: Refusal): seq<string> { [r.eventId, r.payloadType, r.declared, r.expected] }

  /** Field by field, as the order is derived for the record. */
  predicate RefusalLe(a: Refusal, b: Refusal) { LexLe(Fields(a), Fields(b), StringLe) }

  lemma StringLeTotal()
    ensures TotalOrder(StringLe)
  {
    forall a: string, b: string
      ensures StringLe(a, b) || StringLe(b, a)
      ensures StringLe(a, b) && StringLe(b, a) ==> a == b
    {
      LexTotal(a, b, CharLe);
    }
    forall a: string, b: string, c: string | StringLe(a, b) && StringLe(b, c)
      ensures StringLe(a, c)
    {
      LexTransitive(a, b, c, CharLe);
    }
  }

  lemma RefusalLeTotal()
    ensures TotalOrder(RefusalLe)
  {
    StringLeTotal();
    forall a: Refusal, b: Refusal
      ensures RefusalLe(a, b) || RefusalLe(b, a)
      ensures RefusalLe(a, b) && RefusalLe(b, a) ==> a == b
    {
      LexTotal(Fields(a), Fields(b), StringLe);
      if Fields(a) == Fields(b) {
        assert Fields(a)[0] == Fields(b)[0] && Fields(a)[1] == Fields(b)[1];
        assert Fields(a)[2] == Fields(b)[2] && Fields(a)[3] == Fields(b)[3];
      }
    }
    forall a: Refusal, b: Refusal, c: Refusal | RefusalLe(a, b) && RefusalLe(b, c)
      ensures RefusalLe(a, c)
    {
      LexTransitive(Fields(a), Fields(b), Fields(c), StringLe);
    }
  }

  /** Text order: a prefix comes first, else the first different character decides. */
  lemma {:induction false} StringOrder(a: string, b: string, k: nat)
    requires k <= |a| && k <= |b| && a[..k] == b[..k]
    ensures k == |a| ==> StringLe(a, b)
    ensures k < |a| && k == |b| ==> !StringLe(a, b)
    ensures k < |a| && k < |b| && a[k] != b[k] ==> (StringLe(a, b) <==> a[k] < b[k])
  {
    if k > 0 {
      assert a[0] == a[..k][0] == b[..k][0] == b[0];
      assert a[1..][..k - 1] == a[..k][1..] && b[1..][..k - 1] == b[..k][1..];
      StringOrder(a[1..], b[1..], k - 1);
    }
  }

  /** Refusals are ordered by event, then payload type, then what was declared, then what was expected. */
  lemma RefusalOrder(a: Refusal, b: Refusal)
    ensures RefusalLe(a, b) <==>
            if a.eventId != b.eventId then StringLe(a.eventId, b.eventId)
            else if a.payloadType != b.payloadType then StringLe(a.payloadType, b.payloadType)
            else if a.declared != b.declared then StringLe(a.declared, b.declared)
            else a.expected == b.expected || StringLe(a.expected, b.expected)
  {
    var x, y := Fields(a), Fields(b);
    LexStep(x, y);
    LexStep(x[1..], y[1..]);
    LexStep(x[1..][1..], y[1..][1..]);
    LexStep(x[1..][1..][1..], y[1..][1..][1..]);
  }

  lemma LexStep(x: seq<string>, y: seq<string>)
    requires |x| == |y| > 0
    ensures LexLe(x, y, StringLe) <==> if x[0] == y[0] then LexLe(x[1..], y[1..], StringLe) else StringLe(x[0], y[0])
    ensures |x| == 1 ==> LexLe(x[1..], y[1..], StringLe)
  {
    hide StringLe;
  }

  // ---- what is counted -------------------------------------------------------------------------

  /** The count is additive: one for each payload read from the profile default, by its own type. */
  lemma {:induction false} AssumedCountAdds(reader: Reader, a: seq<Entry>, b: seq<Entry>, t: string)
    ensures AssumedCount(reader, a + b, t) == AssumedCount(reader, a, t) + AssumedCount(reader, b, t)
    ensures AssumedCount(reader, [], t) == 0
    ensures |b| == 1 ==>
      AssumedCount(reader, b, t)
      == (if Assumed(reader, b[0].event, b[0].payload) && b[0].payload.payloadType == t then 1 else 0)
  {
    hide Assumed;
    if b == [] {
      assert a + b == a;
    } else {
      var n := |b| - 1;
      assert (a + b)[..|a + b| - 1] == a + b[..n];
      AssumedCountAdds(reader, a, b[..n], t);
      assert |b| == 1 ==> b[..n] == [];
    }
  }

  lemma {:induction false} FlatPayloadsAdd(a: seq<Interval>, b: seq<Interval>)
    ensures FlatPayloads(a + b) == FlatPayloads(a) + FlatPayloads(b)
    ensures |b| == 1 ==> FlatPayloads(b) == b[0].payloads
  {
    if b == [] {
      assert a + b == a;
    } else {
      var n := |b| - 1;
      assert (a + b)[..|a + b| - 1] == a + b[..n];
      FlatPayloadsAdd(a, b[..n]);
      assert |b| == 1 ==> b[..n] == [];
    }
  }

  /** What a poll's audit ranges over: every payload of every interval of every event, once, in list order. */
  lemma {:induction false} EntriesAdd(a: seq<Event>, b: seq<Event>)
    ensures Entries(a + b) == Entries(a) + Entries(b)
  {
    hide EntriesOf;
    if b == [] {
      assert a + b == a;
    } else {
      var n := |b| - 1;
      assert (a + b)[..|a + b| - 1] == a + b[..n];
      EntriesAdd(a, b[..n]);
    }
  }

  lemma EntriesOfOne(e: Event, k: nat)
    ensures |Entries([e])| == |FlatPayloads(Intervals(e))|
    ensures k < |Entries([e])| ==> Entries([e])[k] == Entry(e, FlatPayloads(Intervals(e))[k])
  {
    assert [e][..0] == [];
  }

  ghost predicate Tallies(assumed: map<string, nat>, reader: Reader, entries: seq<Entry>) {
    forall t: string ::
      && (t in assumed <==> AssumedCount(reader, entries, t) > 0)
      && (t in assumed ==> assumed[t] == AssumedCount(reader, entries, t))
  }

  /** The refusals of the audit: what was refused, once each, in order. */
  ghost predicate ListsRefusals(refusals: seq<Refusal>, reader: Reader, entries: seq<Entry>) {
    && StrictlySorted(refusals, RefusalLe)
    && (forall r :: r in refusals <==> exists x :: x in entries && EntryRefused(reader, x) && RefusalOf(reader, x) == r)
  }

  function AuditOf(reader: Reader, events: seq<Event>): seq<Refusal> {
    Dedup(Sort(RefusalsOf(reader, Entries(events)), RefusalLe))
  }

  lemma {:induction false} RefusalsOfElements(reader: Reader, entries: seq<Entry>, r: Refusal)
    ensures r in RefusalsOf(reader, entries) <==>
            exists x :: x in entries && EntryRefused(reader, x) && RefusalOf(reader, x) == r
  {
    if entries != [] {
      var front, last := entries[..|entries| - 1], entries[|entries| - 1];
      assert entries == front + [last];
      RefusalsOfElements(reader, front, r);
    }
  }

  lemma AuditListsRefusals(reader: Reader, events: seq<Event>)
    ensures ListsRefusals(AuditOf(reader, events), reader, Entries(events))
  {
    var all := RefusalsOf(reader, Entries(events));
    RefusalLeTotal();
    SortSorts(all, RefusalLe);
    DedupSorted(Sort(all, RefusalLe), RefusalLe);
    forall r
      ensures r in AuditOf(reader, events) <==>
              exists x :: x in Entries(events) && EntryRefused(reader, x) && RefusalOf(reader, x) == r
    {
      SameElements(all, Sort(all, RefusalLe), r);
      RefusalsOfElements(reader, Entries(events), r);
    }
  }

  lemma OneMore(reader: Reader, seen: seq<Entry>, x: Entry, t: string)
    ensures AssumedCount(reader, seen + [x], t)
         == AssumedCount(reader, seen, t)
            + if Assumed(reader, x.event, x.payload) && x.payload.payloadType == t then 1 else 0
    ensures RefusalsOf(reader, seen + [x])
         == RefusalsOf(reader, seen) + if EntryRefused(reader, x) then [RefusalOf(reader, x)] else []
    ensures Assumed(reader, x.event, x.payload) ==> !EntryRefused(reader, x)
  {
    assert (seen + [x])[..|seen|] == seen;
  }

  lemma TallyOneMore(assumed: map<string, nat>, assumed': map<string, nat>, reader: Reader, seen: seq<Entry>, x: Entry)
    requires Tallies(assumed, reader, seen)
    requires var t := x.payload.payloadType;
             assumed' == if Assumed(reader, x.event, x.payload)
                         then assumed[t := (if t in assumed then assumed[t] else 0) + 1] else assumed
    ensures Tallies(assumed', reader, seen + [x])
  {
    forall t: string
      ensures t in assumed' <==> AssumedCount(reader, seen + [x], t) > 0
      ensures t in assumed' ==> assumed'[t] == AssumedCount(reader, seen + [x], t)
    {
      OneMore(reader, seen, x, t);
    }
  }

  /** The inner loop: the payloads of one event. */
  method AuditEvent(reader: Reader, event: Event, assumed: map<string, nat>,
        refusals: seq<Refusal>, ghost seen: seq<Entry>)
    returns (assumed': map<string, nat>, refusals': seq<Refusal>)
    requires Tallies(assumed, reader, seen) && refusals == RefusalsOf(reader, seen)
    ensures Tallies(assumed', reader, seen + EntriesOf(event))
    ensures refusals' == RefusalsOf(reader, seen + EntriesOf(event))
  {
    hide Read, Assumed, EntryRefused, RefusalsOf;
    assumed', refusals' := assumed, refusals;
    var entries := EntriesOf(event);
    assert seen + entries[..0] == seen;
    for k := 0 to |entries|
      invariant Tallies(assumed', reader, seen + entries[..k])
      invariant refusals' == RefusalsOf(reader, seen + entries[..k])
    {
      var x := entries[k];
      var t := x.payload.payloadType;
      ghost var before := assumed';
      assert seen + entries[..k + 1] == (seen + entries[..k]) + [x];
      OneMore(reader, seen + entries[..k], x, t);
      if Assumed(reader, x.event, x.payload) {
        assumed' := assumed'[t := (if t in assumed' then assumed'[t] else 0) + 1];
      } else if EntryRefused(reader, x) {
        refusals' := refusals' + [RefusalOf(reader, x)];
      }
      TallyOneMore(before, assumed', reader, seen + entries[..k], x);
    }
    assert entries[..|entries|] == entries;
  }

  /** One pass over the events: `assumed` counts, per type, exactly the payloads read from the profile
      default; `refusals` is strictly sorted and holds exactly what was refused. */
  method AuditEvents(reader: Reader, events: seq<Event>) returns (audit: Audit)
    ensures Tallies(audit.assumed, reader, Entries(events))
    ensures audit.refusals == AuditOf(reader, events)
    ensures ListsRefusals(audit.refusals, reader, Entries(events))
  {
    var assumed: map<string, nat> := map[];
    var refusals: seq<Refusal> := [];
    for i := 0 to |events|
      invariant Tallies(assumed, reader, Entries(events[..i]))
      invariant refusals == RefusalsOf(reader, Entries(events[..i]))
    {
      assert events[..i + 1][..i] == events[..i] && events[..i + 1][i] == events[i];
      assumed, refusals := AuditEvent(reader, events[i], assumed, refusals, Entries(events[..i]));
    }
    assert events[..|events|] == events;
    AuditListsRefusals(reader, events);
    audit := Audit(assumed, Dedup(Sort(refusals, RefusalLe)));
  }
}
