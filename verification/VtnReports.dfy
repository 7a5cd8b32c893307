/** Submitting reports to the VTN by name, with a cache of the ids the VTN gave out. Between any two
    steps of a call the rest of the world may act: reports disappear, the database is reset, other
    tasks of the same client submit, delete and learn. */
module VtnReports {
  import opened Options

  type Id = string
  type Name = string
  type Body = string

  /** A report as the VTN keeps it for this client. */
  datatype Report = Report(name: Option<Name>, body: Body)

  type Reports = map<Id, Report>

  /** No two reports of the client share a name. */
  predicate UniqueNames(reports: Reports) {
    forall id, id' :: id in reports && id' in reports && id != id' && reports[id].name.Some? ==>
      reports[id].name != reports[id'].name
  }

  predicate NameTaken(reports: Reports, name: Option<Name>) {
    name.Some? && exists id :: id in reports && reports[id].name == name
  }

  predicate NameTakenElsewhere(reports: Reports, name: Option<Name>, id: Id) {
    name.Some? && exists id' :: id' in reports && id' != id && reports[id'].name == name
  }

  // ---- the plain map the reports stand for -----------------------------------------------------

  function NamesOf(reports: Reports): set<Name> {
    set id | id in reports && reports[id].name.Some? :: reports[id].name.value
  }

  ghost function BodyOf(reports: Reports, n: Name): Body
    requires n in NamesOf(reports)
  {
    var id :| id in reports && reports[id].name == Some(n);
    reports[id].body
  }

  /** Name to body: what a "put by name" store would hold. */
  ghost function AsMap(reports: Reports): map<Name, Body> {
    map n | n in NamesOf(reports) :: BodyOf(reports, n)
  }

  lemma BodyAt(reports: Reports, id: Id, n: Name)
    requires UniqueNames(reports) && id in reports && reports[id].name == Some(n)
    ensures n in NamesOf(reports) && BodyOf(reports, n) == reports[id].body
  {
    assert reports[id].name.value in NamesOf(reports);
  }

  /** The plain map holds exactly the named reports, each with its body. */
  lemma AsMapIff(reports: Reports, n: Name, body: Body)
    requires UniqueNames(reports)
    ensures (n in AsMap(reports) && AsMap(reports)[n] == body) <==>
            exists id :: id in reports && reports[id].name == Some(n) && reports[id].body == body
  {
    if id :| id in reports && reports[id].name == Some(n) {
      BodyAt(reports, id, n);
    }
  }

  /** Writing a report of name n under an id that is new, or that bears n already, is putting n. */
  lemma WriteIsPut(reports: Reports, id: Id, n: Name, body: Body)
    requires UniqueNames(reports) && !NameTakenElsewhere(reports, Some(n), id)
    requires id in reports ==> reports[id].name == Some(n)
    ensures UniqueNames(reports[id := Report(Some(n), body)])
    ensures AsMap(reports[id := Report(Some(n), body)]) == AsMap(reports)[n := body]
  {
    var after := reports[id := Report(Some(n), body)];
    BodyAt(after, id, n);
    forall m | m != n
      ensures m in NamesOf(after) <==> m in NamesOf(reports)
      ensures m in NamesOf(after) ==> BodyOf(after, m) == BodyOf(reports, m)
    {
      if i :| i in reports && reports[i].name == Some(m) {
        assert i in after && after[i] == reports[i];
        BodyAt(after, i, m);
        BodyAt(reports, i, m);
      }
      if i :| i in after && after[i].name == Some(m) {
        assert i in reports && reports[i] == after[i];
        BodyAt(after, i, m);
        BodyAt(reports, i, m);
      }
    }
  }

  lemma UnnamedWriteIsNoPut(reports: Reports, id: Id, body: Body)
    requires UniqueNames(reports) && id !in reports
    ensures UniqueNames(reports[id := Report(None, body)])
    ensures AsMap(reports[id := Report(None, body)]) == AsMap(reports)
  {
    var after := reports[id := Report(None, body)];
    forall m: Name
      ensures m in NamesOf(after) <==> m in NamesOf(reports)
      ensures m in NamesOf(after) ==> BodyOf(after, m) == BodyOf(reports, m)
    {
      if i :| i in reports && reports[i].name == Some(m) {
        assert i in after && after[i] == reports[i];
        BodyAt(after, i, m);
        BodyAt(reports, i, m);
      }
      if i :| i in after && after[i].name == Some(m) {
        assert i in reports && reports[i] == after[i];
        BodyAt(reports, i, m);
      }
    }
  }

  // ---- the cache and the rest of the world -----------------------------------------------------

  /** Each remembered (name, id) is gone from the VTN or is the report of exactly that name. */
  predicate Sound(ids: map<Name, Id>, reports: Reports, used: set<Id>) {
    forall n :: n in ids ==> ids[n] in used && (ids[n] in reports ==> reports[ids[n]].name == Some(n))
  }

  /** What the rest of the world may do: delete, reset, create under new ids, change bodies. It gives no
      id out twice and renames nothing. */
  predicate WorldStep(reports: Reports, used: set<Id>, reports': Reports, used': set<Id>) {
    && used <= used' && reports'.Keys <= used' && UniqueNames(reports')
    && forall id :: id in used && id in reports' ==> id in reports && reports'[id].name == reports[id].name
  }

  /** The world cannot make a sound cache unsound. */
  lemma WorldKeepsCacheSound(ids: map<Name, Id>, r0: Reports, u0: set<Id>, r1: Reports, u1: set<Id>)
    requires Sound(ids, r0, u0) && WorldStep(r0, u0, r1, u1)
    ensures Sound(ids, r1, u1)
  {
  }

  /** The world is free to do all of that: to reset the database, to delete a report, to create one of a free
      name under a new id, and to change what a report says. */
  lemma WorldIsFree(reports: Reports, used: set<Id>, id: Id, report: Report, body: Body)
    requires reports.Keys <= used && UniqueNames(reports)
    ensures WorldStep(reports, used, map[], used) && WorldStep(reports, used, reports - {id}, used)
    ensures id !in used && !NameTaken(reports, report.name) ==>
              WorldStep(reports, used, reports[id := report], used + {id})
    ensures id in reports ==> WorldStep(reports, used, reports[id := reports[id].(body := body)], used)
  {
  }

  datatype PostAnswer = Created(id: Option<Id>) | Conflict | Failed

  datatype Listed = Listed(id: Id, name: Option<Name>)

  function FirstNamed(items: seq<Listed>, name: Name): (found: Option<Id>)
    ensures found.None? <==> forall item :: item in items ==> item.name != Some(name)
    ensures found.Some? ==> (exists k :: 0 <= k < |items| && items[k] == Listed(found.value, Some(name))
                                         && forall j :: 0 <= j < k ==> items[j].name != Some(name))
  {
    if items == [] then None
    else if items[0].name == Some(name) then Some(items[0].id)
    else FirstNamed(items[1..], name)
  }

  /** A request of the client, with the answer it got. */
  datatype Request = PutSent(id: Id, report: Report, ok: bool) | PostSent(report: Report, answer: PostAnswer)
                   | ListSent(items: Option<seq<Listed>>) | DeleteSent(id: Id, ok: bool)

  /** What is sent once the POST said 409: a listing, then a PUT to the first report of that name, if any. */
  predicate ByName(name: Name, body: Body, sent: seq<Request>, ok: bool) {
    && sent != [] && sent[0].ListSent?
    && var found := if sent[0].items.Some? then FirstNamed(sent[0].items.value, name) else None;
       if found.Some? then sent[1..] == [PutSent(found.value, Report(Some(name), body), ok)] else |sent| == 1 && !ok
  }

  predicate Creating(name: Option<Name>, body: Body, sent: seq<Request>, ok: bool) {
    && sent != [] && sent[0].PostSent? && sent[0].report == Report(name, body)
    && match sent[0].answer
       case Created(_) => |sent| == 1 && ok
       case Conflict => if name.Some? then ByName(name.value, body, sent[1..], ok) else |sent| == 1 && !ok
       case Failed => |sent| == 1 && !ok
  }

  /** The requests of one submission and its answer: a remembered id is tried first, and what the VTN
      rejects there is created. */
  predicate Submitting(remembered: Option<Id>, name: Option<Name>, body: Body, sent: seq<Request>, ok: bool) {
    if remembered.None? then Creating(name, body, sent, ok) else
      && sent != [] && sent[0].PutSent? && sent[0].id == remembered.value && sent[0].report == Report(name, body)
      && if sent[0].ok then |sent| == 1 && ok else Creating(name, body, sent[1..], ok)
  }

  /** The id a submission learns: the created report's, or the one found by name. */
  function Learned(sent: seq<Request>): Option<Id> {
    if sent == [] then None else
      match sent[|sent| - 1]
      case PostSent(_, Created(id)) => id
      case PutSent(id, _, ok) => if ok && |sent| > 1 then Some(id) else None
      case _ => None
  }

  /** Requests sent before do not change what is learned, as long as more than a PUT follows. */
  lemma LearnedLast(sent: seq<Request>, from: nat)
    requires from < |sent| && !sent[from].PutSent?
    ensures Learned(sent) == Learned(sent[from..])
  {
  }

  lemma FirstIsNoPut(name: Option<Name>, body: Body, sent: seq<Request>, ok: bool)
    requires Creating(name, body, sent, ok) || (name.Some? && ByName(name.value, body, sent, ok))
    ensures sent != [] && !sent[0].PutSent?
  {
  }

  /** One remembered id, accepted or not. */
  lemma RememberedFirst(id: Id, name: Option<Name>, body: Body, created: seq<Request>, ok: bool)
    ensures (var sent := [PutSent(id, Report(name, body), true)];
             Submitting(Some(id), name, body, sent, true) && Learned(sent) == None)
    ensures Creating(name, body, created, ok) ==>
      (var sent := [PutSent(id, Report(name, body), false)] + created;
       && Submitting(Some(id), name, body, sent, ok) && Submitting(None, name, body, created, ok)
       && Learned(sent) == Learned(created))
  {
    if Creating(name, body, created, ok) {
      var sent := [PutSent(id, Report(name, body), false)] + created;
      assert sent[1..] == created;
      FirstIsNoPut(name, body, created, ok);
      LearnedLast(sent, 1);
    }
  }

  /** The cache with the id learned for a name. */
  function Knowing(ids: map<Name, Id>, name: Option<Name>, id: Option<Id>): (r: map<Name, Id>)
    ensures name.Some? && id.Some? ==> name.value in r && r[name.value] == id.value
    ensures forall n :: name != Some(n) || id.None? ==> (n in r <==> n in ids) && (n in r ==> r[n] == ids[n])
  {
    if name.Some? && id.Some? then ids[name.value := id.value] else ids
  }

  /** A submission sends at most four requests, and only one when the remembered id is accepted. It fails only
      after a POST that was not answered by a new report: for good, or by a 409 for a report without a name, or
      when the listing failed or has no report of the name, or when the report found rejects the PUT. */
  lemma FailsOnlyWhen(remembered: Option<Id>, name: Option<Name>, body: Body, sent: seq<Request>, ok: bool)
    requires Submitting(remembered, name, body, sent, ok)
    ensures 1 <= |sent| <= 4
    ensures remembered.Some? && sent[0].ok ==> ok && |sent| == 1
    ensures (var post := if remembered.Some? then 1 else 0;
             !ok <==> |sent| > post && sent[post].PostSent? && match sent[post].answer
                      case Created(_) => false
                      case Failed => true
                      case Conflict =>
                        || name.None?
                        || sent[post + 1].items.None?
                        || (forall item :: item in sent[post + 1].items.value ==> item.name != name)
                        || !sent[post + 2].ok)
    decreases |sent|
  {
    if remembered.Some? && !sent[0].ok {
      FailsOnlyWhen(None, name, body, sent[1..], ok);
    }
  }

  /** What a submission learns: the id of the report it created, when the answer shows it, and the id of the
      report it found by name and put. */
  lemma LearnedIff(remembered: Option<Id>, name: Option<Name>, body: Body, sent: seq<Request>, ok: bool, id: Id)
    requires Submitting(remembered, name, body, sent, ok)
    ensures (var post := if remembered.Some? then 1 else 0;
             Learned(sent) == Some(id) <==>
               (ok && |sent| > post && match sent[post].answer
                                       case Created(made) => made == Some(id)
                                       case Conflict => sent[post + 2].id == id
                                       case Failed => false))
    decreases |sent|
  {
    if remembered.Some? && !sent[0].ok {
      FirstIsNoPut(name, body, sent[1..], ok);
      LearnedLast(sent, 1);
      LearnedIff(None, name, body, sent[1..], ok, id);
    } else if remembered.None? && sent[0].answer.Conflict? && ok {
      assert sent[1..][1..] == sent[2..] && |sent| == 3;
    }
  }

  /** One entry of the VTN's history: the reports after somebody acted. */
  datatype Moment = Moment(own: bool, reports: Reports)

  /** At step k of the history the plain map was put at `name` (not at all for an unnamed report) and
      nowhere else. */
  ghost predicate PutsAt(log: seq<Moment>, k: nat, name: Option<Name>, body: Body)
    requires 0 < k < |log|
  {
    var before := AsMap(log[k - 1].reports);
    AsMap(log[k].reports) == if name.Some? then before[name.value := body] else before
  }

  /** Step k, if a request of this call, either had no effect or put `body` at `name`. */
  ghost predicate Harmless(log: seq<Moment>, k: nat, name: Option<Name>, body: Body)
    requires 0 < k < |log|
  {
    log[k].own ==> log[k].reports == log[k - 1].reports || PutsAt(log, k, name, body)
  }

  ghost predicate OnlyPuts(log: seq<Moment>, from: nat, name: Option<Name>, body: Body) {
    0 < from && forall k :: from <= k < |log| ==> Harmless(log, k, name, body)
  }

  lemma OnlyPutsCompose(log: seq<Moment>, from: nat, middle: seq<Moment>, name: Option<Name>, body: Body)
    requires middle <= log && from <= |middle|
    requires OnlyPuts(middle, from, name, body) && OnlyPuts(log, |middle|, name, body)
    ensures OnlyPuts(log, from, name, body)
  {
    forall k | from <= k < |log|
      ensures Harmless(log, k, name, body)
    {
      if k < |middle| {
        assert Harmless(middle, k, name, body);
        assert middle[k] == log[k] && middle[k - 1] == log[k - 1];
      }
    }
  }

  /** The VTN, seen from one client. A request may be refused for any reason, and its answer may be lost
      after it took effect. */
  class Vtn {
    var reports: Reports
    var used: set<Id>
    /** Everything that happened; `own` marks the requests of the call in progress. */
    ghost var log: seq<Moment>
    /** The requests the client has sent, with their answers; a listing counts as one. */
    ghost var sent: seq<Request>

    ghost predicate Valid()
      reads this
    {
      && reports.Keys <= used && UniqueNames(reports)
      && log != [] && log[|log| - 1].reports == reports
    }

    constructor ()
      ensures Valid() && reports == map[] && used == {}
    {
      reports, used, log, sent := map[], {}, [Moment(false, map[])], [];
    }

    method Put(id: Id, report: Report) returns (ok: bool)
      requires Valid()
      modifies this
      ensures Valid() && used == old(used) && log == old(log) + [Moment(true, reports)]
      ensures sent == old(sent) + [PutSent(id, report, ok)]
      ensures reports == old(reports) || Written(old(reports), id, report, reports)
      ensures ok ==> Written(old(reports), id, report, reports)
    {
      ok := false;
      var accepted: bool, answered: bool := *, *;
      if accepted && id in reports && !NameTakenElsewhere(reports, report.name, id) {
        reports := reports[id := report];
        ok := answered;
      }
      log, sent := log + [Moment(true, reports)], sent + [PutSent(id, report, ok)];
    }

    method Post(report: Report) returns (answer: PostAnswer)
      requires Valid()
      modifies this
      ensures Valid() && old(used) <= used && log == old(log) + [Moment(true, reports)]
      ensures sent == old(sent) + [PostSent(report, answer)]
      ensures reports == old(reports) || exists id :: Made(old(reports), old(used), id, report, reports, used)
      ensures answer.Created? ==> exists id :: Made(old(reports), old(used), id, report, reports, used)
                                               && (answer.id.Some? ==> answer.id.value == id)
      ensures NameTaken(old(reports), report.name) ==> !answer.Created? && reports == old(reports)
    {
      ghost var before, usedBefore := reports, used;
      var accepted: bool, answered: bool, readable: bool, id: Id := *, *, *, *;
      if accepted && !NameTaken(reports, report.name) && id !in used {
        reports, used := reports[id := report], used + {id};
        assert Made(before, usedBefore, id, report, reports, used);
        answer := if answered then Created(if readable then Some(id) else None) else Failed;
      } else {
        answer := if answered then Conflict else Failed;
      }
      log, sent := log + [Moment(true, reports)], sent + [PostSent(report, answer)];
    }

    /** The listing is read page by page, so every item was true at some moment. */
    method List() returns (items: Option<seq<Listed>>)
      requires Valid()
      modifies this`sent
      ensures Valid() && sent == old(sent) + [ListSent(items)]
      ensures items.Some? ==> forall k :: 0 <= k < |items.value| ==> WasTrue(items.value[k], reports, used)
    {
      var read: seq<Listed> := *;
      items := if forall k :: 0 <= k < |read| ==> WasTrue(read[k], reports, used) then Some(read) else None;
      sent := sent + [ListSent(items)];
    }

    method Delete(id: Id) returns (ok: bool)
      requires Valid()
      modifies this
      ensures Valid() && used == old(used) && log == old(log) + [Moment(true, reports)]
      ensures sent == old(sent) + [DeleteSent(id, ok)]
      ensures reports == old(reports) || reports == old(reports) - {id}
      ensures ok ==> id in old(reports) && reports == old(reports) - {id}
    {
      ok := false;
      var accepted: bool, answered: bool := *, *;
      if accepted && id in reports {
        reports := reports - {id};
        ok := answered;
      }
      log, sent := log + [Moment(true, reports)], sent + [DeleteSent(id, ok)];
    }
  }

  predicate Written(before: Reports, id: Id, report: Report, after: Reports) {
    id in before && !NameTakenElsewhere(before, report.name, id) && after == before[id := report]
  }

  predicate Made(before: Reports, usedBefore: set<Id>, id: Id, report: Report, after: Reports, used: set<Id>) {
    id !in usedBefore && !NameTaken(before, report.name) && after == before[id := report] && used == usedBefore + {id}
  }

  predicate WasTrue(item: Listed, reports: Reports, used: set<Id>) {
    item.id in used && (item.id in reports ==> reports[item.id].name == item.name)
  }

  /** The id was given out, and if its report still exists it bears the name. */
  predicate Bears(id: Id, name: Option<Name>, reports: Reports, used: set<Id>) {
    id in used && (id in reports ==> reports[id].name == name)
  }

  lemma WorldKeepsBearing(id: Id, name: Option<Name>, r0: Reports, u0: set<Id>, r1: Reports, u1: set<Id>)
    requires Bears(id, name, r0, u0) && WorldStep(r0, u0, r1, u1)
    ensures Bears(id, name, r1, u1)
  {
  }

  lemma PutSurvives(log: seq<Moment>, log': seq<Moment>, k: nat, name: Option<Name>, body: Body)
    requires log <= log' && 0 < k < |log|
    ensures PutsAt(log, k, name, body) <==> PutsAt(log', k, name, body)
  {
  }

  /** A request that wrote a report under its own name is a put. */
  lemma OwnWritePuts(log: seq<Moment>, k: nat, id: Id, name: Option<Name>, body: Body)
    requires 0 < k < |log| && UniqueNames(log[k - 1].reports)
    requires log[k].reports == log[k - 1].reports[id := Report(name, body)]
    requires if id in log[k - 1].reports
             then name.Some? && log[k - 1].reports[id].name == name && !NameTakenElsewhere(log[k - 1].reports, name, id)
             else !NameTaken(log[k - 1].reports, name)
    ensures PutsAt(log, k, name, body)
  {
    if name.Some? {
      WriteIsPut(log[k - 1].reports, id, name.value, body);
    } else {
      UnnamedWriteIsNoPut(log[k - 1].reports, id, body);
    }
  }

  class Client {
    const vtn: Vtn
    var reportIds: map<Name, Id>
    /** The cache as each wait left it. */
    ghost var views: seq<map<Name, Id>>

    ghost predicate Valid()
      reads this, vtn
    {
      vtn.Valid() && Sound(reportIds, vtn.reports, vtn.used)
    }

    constructor (vtn: Vtn)
      requires vtn.Valid()
      ensures Valid() && this.vtn == vtn && reportIds == map[]
    {
      this.vtn, reportIds, views := vtn, map[], [];
    }

    /** The rest of the world acts while a call waits; other tasks may also change the cache. */
    method Await()
      requires Valid()
      modifies this, vtn
      ensures Valid() && vtn.log == old(vtn.log) + [Moment(false, vtn.reports)]
      ensures vtn.sent == old(vtn.sent) && views == old(views) + [reportIds]
      ensures WorldStep(old(vtn.reports), old(vtn.used), vtn.reports, vtn.used)
    {
      var reports: Reports, used: set<Id>, ids: map<Name, Id> := *, *, *;
      if WorldStep(vtn.reports, vtn.used, reports, used) && Sound(ids, reports, used) {
        vtn.reports, vtn.used, reportIds := reports, used, ids;
      }
      vtn.log, views := vtn.log + [Moment(false, vtn.reports)], views + [reportIds];
    }

    /** PUT to an id that bears `name`. */
    method UpdateReport(id: Id, name: Name, body: Body) returns (ok: bool, ghost k: nat)
      requires Valid() && Bears(id, Some(name), vtn.reports, vtn.used)
      modifies this, vtn
      ensures Valid() && Bears(id, Some(name), vtn.reports, vtn.used)
      ensures vtn.sent == old(vtn.sent) + [PutSent(id, Report(Some(name), body), ok)]
      ensures old(views) < views && reportIds == views[|views| - 1]
      ensures old(vtn.log) <= vtn.log && OnlyPuts(vtn.log, |old(vtn.log)|, Some(name), body)
      ensures ok ==> |old(vtn.log)| <= k < |vtn.log| && vtn.log[k].own && PutsAt(vtn.log, k, Some(name), body)
    {
      hide PutsAt, WorldStep;
      ghost var r0, u0 := vtn.reports, vtn.used;
      Await();
      ghost var r1, u1 := vtn.reports, vtn.used;
      WorldKeepsBearing(id, Some(name), r0, u0, r1, u1);
      ok := vtn.Put(id, Report(Some(name), body));
      k := |vtn.log| - 1;
      if Written(r1, id, Report(Some(name), body), vtn.reports) {
        OwnWritePuts(vtn.log, k, id, Some(name), body);
      }
      ghost var r2, u2, put := vtn.reports, vtn.used, vtn.log;
      Await();
      WorldKeepsBearing(id, Some(name), r2, u2, vtn.reports, vtn.used);
      PutSurvives(put, vtn.log, k, Some(name), body);
    }

    method CreateReport(name: Option<Name>, body: Body) returns (answer: PostAnswer, ghost k: nat)
      requires Valid()
      modifies this, vtn
      ensures Valid()
      ensures old(vtn.log) <= vtn.log && OnlyPuts(vtn.log, |old(vtn.log)|, name, body)
      ensures answer.Created? ==> |old(vtn.log)| <= k < |vtn.log| && vtn.log[k].own && PutsAt(vtn.log, k, name, body)
      ensures answer.Created? && answer.id.Some? ==> Bears(answer.id.value, name, vtn.reports, vtn.used)
      ensures vtn.sent == old(vtn.sent) + [PostSent(Report(name, body), answer)]
      ensures old(views) < views && reportIds == views[|views| - 1]
    {
      hide PutsAt, WorldStep;
      Await();
      ghost var r1, u1 := vtn.reports, vtn.used;
      answer := vtn.Post(Report(name, body));
      k := |vtn.log| - 1;
      if id :| Made(r1, u1, id, Report(name, body), vtn.reports, vtn.used) {
        OwnWritePuts(vtn.log, k, id, name, body);
      }
      ghost var r2, u2, put := vtn.reports, vtn.used, vtn.log;
      Await();
      if answer.Created? && answer.id.Some? {
        WorldKeepsBearing(answer.id.value, name, r2, u2, vtn.reports, vtn.used);
      }
      PutSurvives(put, vtn.log, k, name, body);
    }

    /** The first own report of that name in the listing: found when one is listed, and only then. */
    method FindReportByName(name: Name) returns (found: Option<Id>, ghost listed: Option<seq<Listed>>)
      requires Valid()
      modifies this, vtn
      ensures Valid() && old(vtn.log) <= vtn.log && vtn.sent == old(vtn.sent) + [ListSent(listed)]
      ensures old(views) < views && reportIds == views[|views| - 1]
      ensures forall k :: |old(vtn.log)| <= k < |vtn.log| ==> !vtn.log[k].own
      ensures found.Some? ==> Bears(found.value, Some(name), vtn.reports, vtn.used)
      ensures listed.None? ==> found.None?
      ensures listed.Some? ==> found == FirstNamed(listed.value, name)
    {
      Await();
      var listing := vtn.List();
      listed := listing;
      if listing.None? {
        return None, listed;
      }
      var items := listing.value;
      for k := 0 to |items|
        invariant FirstNamed(items, name) == FirstNamed(items[k..], name)
      {
        assert items[k..][0] == items[k] && items[k..][1..] == items[k + 1..];
        if items[k].name == Some(name) {
          found := Some(items[k].id);
          Await();
          return;
        }
      }
      return None, listed;
    }

    method Remember(name: Name, id: Id)
      requires Valid() && Bears(id, Some(name), vtn.reports, vtn.used)
      modifies this`reportIds
      ensures Valid() && reportIds == old(reportIds)[name := id]
    {
      reportIds := reportIds[name := id];
    }

    method Forget(name: Name)
      requires Valid()
      modifies this`reportIds
      ensures Valid() && reportIds == old(reportIds) - {name}
    {
      reportIds := reportIds - {name};
    }

    /** PUT to the remembered id, if there is one; a rejected id is forgotten. */
    method UpdateRemembered(name: Name, body: Body) returns (ok: bool, ghost k: nat)
      requires Valid()
      modifies this, vtn
      ensures Valid()
      ensures old(vtn.log) <= vtn.log && OnlyPuts(vtn.log, |old(vtn.log)|, Some(name), body)
      ensures ok ==> |old(vtn.log)| <= k < |vtn.log| && vtn.log[k].own && PutsAt(vtn.log, k, Some(name), body)
      ensures !ok ==> name !in reportIds
      ensures ok ==> name in old(reportIds) && old(views) < views && reportIds == views[|views| - 1]
      ensures old(views) <= views
      ensures vtn.sent == old(vtn.sent) + if name in old(reportIds)
                                          then [PutSent(old(reportIds[name]), Report(Some(name), body), ok)] else []
    {
      hide PutsAt;
      ok, k := false, 0;
      if name in reportIds {
        ok, k := UpdateReport(reportIds[name], name, body);
        if !ok {
          Forget(name);
        }
      }
    }

    /** The POST answered 409: look the report up by name and PUT to it. */
    method UpdateByName(name: Name, body: Body) returns (ok: bool, ghost k: nat, ghost id: Id)
      requires Valid()
      modifies this, vtn
      ensures Valid()
      ensures old(vtn.log) <= vtn.log && OnlyPuts(vtn.log, |old(vtn.log)|, Some(name), body)
      ensures ok ==> |old(vtn.log)| <= k < |vtn.log| && vtn.log[k].own && PutsAt(vtn.log, k, Some(name), body)
      ensures ok ==> name in reportIds && reportIds[name] == id
      ensures old(vtn.sent) <= vtn.sent && ByName(name, body, vtn.sent[|old(vtn.sent)|..], ok)
      ensures Learned(vtn.sent[|old(vtn.sent)|..]) == if ok then Some(id) else None
      ensures old(views) < views && reportIds == if ok then views[|views| - 1][name := id] else views[|views| - 1]
    {
      hide PutsAt, Sound;
      ok, k, id := false, 0, "";
      var found, listed := FindReportByName(name);
      ghost var middle := vtn.log;
      assert vtn.sent[|old(vtn.sent)|..] == [ListSent(listed)];
      if found.Some? {
        ok, k := UpdateReport(found.value, name, body);
        OnlyPutsCompose(vtn.log, |old(vtn.log)|, middle, Some(name), body);
        assert vtn.sent[|old(vtn.sent)|..]
            == [ListSent(listed), PutSent(found.value, Report(Some(name), body), ok)];
        if ok {
          id := found.value;
          Remember(name, found.value);
        }
      }
    }

    /** POST, and on a 409 the lookup by name and the PUT. */
    method CreateOrUpdate(name: Option<Name>, body: Body) returns (ok: bool, ghost k: nat)
      requires Valid()
      modifies this, vtn
      ensures Valid()
      ensures old(vtn.log) <= vtn.log && OnlyPuts(vtn.log, |old(vtn.log)|, name, body)
      ensures ok ==> |old(vtn.log)| <= k < |vtn.log| && vtn.log[k].own && PutsAt(vtn.log, k, name, body)
      ensures old(vtn.sent) <= vtn.sent && Creating(name, body, vtn.sent[|old(vtn.sent)|..], ok)
      ensures old(views) < views
      ensures reportIds == Knowing(views[|views| - 1], name, Learned(vtn.sent[|old(vtn.sent)|..]))
    {
      hide PutsAt, Sound, ByName;
      ghost var before := vtn.sent;
      var answer;
      answer, k := CreateReport(name, body);
      assert vtn.sent[|before|..] == [PostSent(Report(name, body), answer)];
      match answer {
        case Created(id) =>
          if name.Some? && id.Some? {
            Remember(name.value, id.value);
          }
          ok := true;
        case Conflict =>
          ok := false;
          if name.Some? {
            ghost var conflicted, posted, id := vtn.log, vtn.sent, "";
            ok, k, id := UpdateByName(name.value, body);
            OnlyPutsCompose(vtn.log, |old(vtn.log)|, conflicted, name, body);
            assert vtn.sent[|before|..][1..] == vtn.sent[|posted|..];
            FirstIsNoPut(name, body, vtn.sent[|posted|..], ok);
            LearnedLast(vtn.sent[|before|..], 1);
          }
        case Failed =>
          ok := false;
      }
    }

    /** Submit a report. When it answers Ok, one of its requests put the VTN's reports, read as a plain
        map, at this name and nowhere else; and no request of the call, whatever its answer, did anything
        but that. Its requests, and whether it answers Ok, are what a submission with the id remembered when
        it looked asks for; and the id the VTN gave is remembered for the next submission. */
    method UpsertReport(name: Option<Name>, body: Body) returns (ok: bool, ghost k: nat)
      requires Valid()
      modifies this, vtn
      ensures Valid()
      ensures old(vtn.log) <= vtn.log && OnlyPuts(vtn.log, |old(vtn.log)|, name, body)
      ensures ok ==> |old(vtn.log)| <= k < |vtn.log| && vtn.log[k].own && PutsAt(vtn.log, k, name, body)
      ensures old(vtn.sent) <= vtn.sent && old(views) < views
      ensures (var seen := views[|old(views)|];
               var remembered := if name.Some? && name.value in seen then Some(seen[name.value]) else None;
               Submitting(remembered, name, body, vtn.sent[|old(vtn.sent)|..], ok))
      ensures reportIds == Knowing(views[|views| - 1], name, Learned(vtn.sent[|old(vtn.sent)|..]))
    {
      hide PutsAt, Sound, Creating, Submitting, Learned;
      Await();
      ghost var waited, before, id := vtn.log, vtn.sent, "";
      if name.Some? {
        if name.value in reportIds {
          id := reportIds[name.value];
        }
        ok, k := UpdateRemembered(name.value, body);
        OnlyPutsCompose(vtn.log, |old(vtn.log)|, waited, name, body);
        if ok {
          RememberedFirst(id, name, body, [], ok);
          assert vtn.sent[|before|..] == [PutSent(id, Report(name, body), true)];
          return;
        }
      }
      ghost var tried, rejected := vtn.log, vtn.sent;
      ok, k := CreateOrUpdate(name, body);
      OnlyPutsCompose(vtn.log, |old(vtn.log)|, tried, name, body);
      assert vtn.sent[|before|..] == rejected[|before|..] + vtn.sent[|rejected|..];
      RememberedFirst(id, name, body, vtn.sent[|rejected|..], ok);
    }

    /** Delete a report. Ok means it is gone for good and no name remembers its id. */
    method DeleteReport(id: Id) returns (ok: bool)
      requires Valid()
      modifies this, vtn
      ensures Valid() && old(vtn.log) <= vtn.log && vtn.sent == old(vtn.sent) + [DeleteSent(id, ok)]
      ensures old(views) < views
      ensures reportIds == var last := views[|views| - 1];
                           if ok then (map n | n in last && last[n] != id :: last[n]) else last
      ensures ok ==> id !in vtn.reports && forall n :: n in reportIds ==> reportIds[n] != id
      ensures forall k :: 0 < |old(vtn.log)| <= k < |vtn.log| && vtn.log[k].own ==>
                vtn.log[k].reports == vtn.log[k - 1].reports || vtn.log[k].reports == vtn.log[k - 1].reports - {id}
    {
      Await();
      ok := vtn.Delete(id);
      Await();
      if ok {
        reportIds := map n | n in reportIds && reportIds[n] != id :: reportIds[n];
      }
    }
  }

  datatype Call = Upsert(name: Option<Name>, body: Body) | Delete(id: Id)

  /** What step k of the history did is what the call asks for, or nothing. */
  ghost predicate Answers(log: seq<Moment>, k: nat, call: Call)
    requires 0 < k < |log|
  {
    match call
    case Upsert(name, body) => log[k].reports == log[k - 1].reports || PutsAt(log, k, name, body)
    case Delete(id) => log[k].reports == log[k - 1].reports || log[k].reports == log[k - 1].reports - {id}
  }

  /** Every request of the client's own since `from` is accounted for by one of the calls. */
  ghost predicate Accounted(log: seq<Moment>, from: nat, calls: seq<Call>) {
    0 < from && forall k :: from <= k < |log| && log[k].own ==> exists c :: c in calls && Answers(log, k, c)
  }

  lemma OneCallMore(log: seq<Moment>, from: nat, middle: seq<Moment>, calls: seq<Call>, c: Call)
    requires middle <= log && from <= |middle| && Accounted(middle, from, calls)
    requires forall k :: |middle| <= k < |log| && log[k].own ==> Answers(log, k, c)
    ensures Accounted(log, from, calls + [c])
  {
    forall k | from <= k < |log| && log[k].own
      ensures exists x :: x in calls + [c] && Answers(log, k, x)
    {
      if k < |middle| {
        assert middle[k] == log[k] && middle[k - 1] == log[k - 1];
        var x :| x in calls && Answers(middle, k, x);
        assert x in calls + [c] && Answers(log, k, x);
      } else {
        assert c in calls + [c];
      }
    }
  }

  /** Every run: whatever is called, and whatever the world does meanwhile, the cache stays sound, and each
      request the client made changed nothing, or put one called name, or removed one called id. */
  method RunCalls(client: Client, calls: seq<Call>)
    requires client.Valid()
    modifies client, client.vtn
    ensures client.Valid()
    ensures old(client.vtn.log) <= client.vtn.log && Accounted(client.vtn.log, |old(client.vtn.log)|, calls)
  {
    ghost var from := |client.vtn.log|;
    for k := 0 to |calls|
      invariant client.Valid() && old(client.vtn.log) <= client.vtn.log
      invariant Accounted(client.vtn.log, from, calls[..k])
    {
      hide PutsAt, Sound, Accounted;
      ghost var middle := client.vtn.log;
      match calls[k] {
        case Upsert(name, body) =>
          var ok, _ := client.UpsertReport(name, body);
          forall i | |middle| <= i < |client.vtn.log| && client.vtn.log[i].own
            ensures Answers(client.vtn.log, i, calls[k])
          {
            assert Harmless(client.vtn.log, i, name, body);
          }
        case Delete(id) =>
          var ok := client.DeleteReport(id);
      }
      OneCallMore(client.vtn.log, from, middle, calls[..k], calls[k]);
      assert calls[..k + 1] == calls[..k] + [calls[k]];
    }
    assert calls[..|calls|] == calls;
  }

  // ---- why soundness matters -------------------------------------------------------------------

  /** What the sound cache protects: a PUT under name n to an id leaves every other name alone exactly when
      the report behind the id bears n or no name. */
  lemma PutLeavesOthersIff(reports: Reports, id: Id, n: Name, body: Body)
    requires UniqueNames(reports) && Written(reports, id, Report(Some(n), body), reports[id := Report(Some(n), body)])
    ensures (forall m :: m != n && m in AsMap(reports) ==>
               m in AsMap(reports[id := Report(Some(n), body)])
               && AsMap(reports[id := Report(Some(n), body)])[m] == AsMap(reports)[m])
            <==> (reports[id].name == Some(n) || reports[id].name.None?)
  {
    var after := reports[id := Report(Some(n), body)];
    var name := reports[id].name;
    if name == Some(n) {
      WriteIsPut(reports, id, n, body);
    } else if name.None? {
      forall m | m != n && m in AsMap(reports)
        ensures m in AsMap(after) && AsMap(after)[m] == AsMap(reports)[m]
      {
        var i :| i in reports && reports[i].name == Some(m);
        BodyAt(reports, i, m);
        assert after[i] == reports[i];
        BodyAt(after, i, m);
      }
    } else {
      BodyAt(reports, id, name.value);
      assert name.value in AsMap(reports);
      assert forall i :: i in after && after[i].name.Some? ==> after[i].name != name;
      assert name.value !in NamesOf(after);
    }
  }

  /** The world must not rename: had another writer given the remembered report a new name, the PUT to the
      remembered id would overwrite it, and that name would be gone. */
  lemma RenamingWouldOverwrite()
    ensures (var ids: map<Name, Id> := map["mine" := "1"];
             var before := map["1" := Report(Some("mine"), "a")];
             var renamed := map["1" := Report(Some("theirs"), "b")];
             var after := map["1" := Report(Some("mine"), "c")];
             && Sound(ids, before, {"1"}) && !WorldStep(before, {"1"}, renamed, {"1"})
             && Written(renamed, ids["mine"], Report(Some("mine"), "c"), after)
             && "theirs" in AsMap(renamed) && "theirs" !in AsMap(after))
  {
    var before := map["1" := Report(Some("mine"), "a")];
    var renamed := map["1" := Report(Some("theirs"), "b")];
    assert map["1" := Report(Some("mine"), "c")] == renamed["1" := Report(Some("mine"), "c")];
    assert renamed["1"].name.value in NamesOf(renamed);
    assert renamed["1"].name != before["1"].name;
  }
}
