/**
  The conferencing provider's event sink: a POSTed event about a guest joining or
  leaving, or a conference ending, moves the entry of the patient whose uuid is the
  conference alias to "In Call" or "Left Call", and refreshes that entry's doctor's
  dashboards when the status actually changed.
 */
module Events {
  import opened Wrappers
  import opened Models
  import opened Store
  import Orm
  import Consumers

  const PARTICIPANT_CONNECTED := "participant_connected"
  const PARTICIPANT_DISCONNECTED := "participant_disconnected"
  const CONFERENCE_ENDED := "conference_ended"
  const GUEST := "guest"

  /** The `data` member of a decoded body: absent, present but not an object, or an object. */
  datatype EventData =
    | NoData
    | DataNotAnObject
    | DataObject(destinationAlias: Option<string>, displayName: Option<string>, role: Option<string>)

  /** The request body: not JSON, JSON but not an object, or an object with `event` and `data`. */
  datatype EventBody =
    | InvalidJson
    | NotAnObject
    | EventObject(event: Option<string>, data: EventData)

  datatype EventRequest = EventRequest(verb: string, body: EventBody)

  /**
    `HttpResponseBadRequest(text)` (400, plain text), a `JsonResponse` with a code and
    its `status` and `message` members, or the generic 500 whose message carries the
    exception's text.
   */
  datatype EventResponse =
    | BadRequest(text: string)
    | Reply(code: nat, status: string, message: string)
    | ServerError

  /** The HTTP status code of a response. */
  function Code(r: EventResponse): nat {
    match r
    case BadRequest(_) => 400
    case Reply(code, _, _) => code
    case ServerError => 500
  }

  /**
    The status an event moves the patient's entry to: "In Call" when a guest
    connected, "Left Call" when a guest disconnected or the conference ended whatever
    the role, and none for every other event or role.
   */
  function TargetStatus(event: Option<string>, role: Option<string>): (t: Option<string>)
    ensures t == Some(IN_CALL) <==> event == Some(PARTICIPANT_CONNECTED) && role == Some(GUEST)
    ensures t == Some(LEFT_CALL) <==>
      (event == Some(PARTICIPANT_DISCONNECTED) && role == Some(GUEST)) || event == Some(CONFERENCE_ENDED)
    ensures t.Some? ==> t == Some(IN_CALL) || t == Some(LEFT_CALL)
  {
    if event == Some(PARTICIPANT_CONNECTED) && role == Some(GUEST) then Some(IN_CALL)
    else if event == Some(PARTICIPANT_DISCONNECTED) && role == Some(GUEST) then Some(LEFT_CALL)
    else if event == Some(CONFERENCE_ENDED) then Some(LEFT_CALL)
    else None
  }

  /**
    The response of `pexip_event_sink_view`, which does not depend on the database:
    400 unless the request is a POST of valid JSON; 500 when the body or its `data`
    is not an object (the `.get` raises); 400 with status "error" when the alias is
    missing; otherwise 200 with status "success", whatever the event or the lookup.
   */
  function SinkResponse(req: EventRequest): (r: EventResponse)
    ensures Code(r) == 200 <==>
      && req.verb == "POST" && req.body.EventObject? && req.body.data.DataObject?
      && AliasPresent(req.body.data.destinationAlias)
    ensures Code(r) == 200 ==> r == Reply(200, "success", "Event received")
    ensures Code(r) == 500 <==>
      && req.verb == "POST" && !req.body.InvalidJson?
      && (req.body.NotAnObject? || req.body.data.DataNotAnObject?)
    ensures r.BadRequest? <==> req.verb != "POST" || req.body.InvalidJson?
    ensures r.Reply? && Code(r) != 200 ==> r == Reply(400, "error", "Missing conference_alias")
  {
    if req.verb != "POST" then BadRequest("Only POST requests are allowed for Pexip Event Sinks.")
    else match req.body
      case InvalidJson => BadRequest("Invalid JSON in request body.")
      case NotAnObject => ServerError
      case EventObject(_, NoData) => Reply(400, "error", "Missing conference_alias")
      case EventObject(_, DataNotAnObject) => ServerError
      case EventObject(_, DataObject(alias, _, _)) =>
        if !AliasPresent(alias) then Reply(400, "error", "Missing conference_alias")
        else Reply(200, "success", "Event received")
  }

  /** `WaitingRoomEntry.objects.filter(patient__uuid=uuid)`: the entries whose patient carries `uuid`. */
  function EntriesForUuid(entries: seq<Entry>, patients: seq<Patient>, uuid: string): seq<Entry> {
    Orm.Filter(entries, (e: Entry) => PatientHasUuid(patients, e.patientId, uuid))
  }

  /**
    `_update_entry_status_and_notify`, as a relation between the tables and the sent
    log before (`b`, `bSent`) and after (`a`, `aSent`): the single entry of that patient
    uuid, when its status differs, is saved with the new one and a refresh goes to its
    doctor's group; no entry, several entries (caught by `except Exception`), an equal
    status or a refused save change nothing and send nothing.
   */
  ghost predicate StatusNotified(b: Db, bSent: seq<Signal>, a: Db, aSent: seq<Signal>, uuid: string, status: string) {
    match Orm.Get(EntriesForUuid(b.entries, b.patients, uuid))
    case Found(e) =>
      if e.status != status && |status| <= MAX_STATUS_LENGTH
      then a == b.(entries := WithStatusById(b.entries, e.id, status))
           && aSent == bSent + [WaitingListUpdate(GroupName(e.doctorId))]
      else a == b && aSent == bSent
    case _ => a == b && aSent == bSent
  }

  /** `_update_entry_status_and_notify(patient_uuid_str, new_status)` on the shared database. */
  method UpdateEntryStatusAndNotify(db: Database, patientUuid: string, newStatus: string)
    requires db.Valid()
    modifies db
    ensures db.Valid()
    ensures StatusNotified(old(db.Tables()), old(db.sent), db.Tables(), db.sent, patientUuid, newStatus)
  {
    match Orm.Get(EntriesForUuid(db.entries, db.patients, patientUuid)) {
      case Found(entry) =>
        if entry.status != newStatus {
          var saved := db.SaveStatus(entry.id, newStatus);
          if saved {
            db.GroupSend(GroupName(entry.doctorId));
          }
        }
      case DoesNotExist =>
      case MultipleObjectsReturned =>
    }
  }

  /**
    `pexip_event_sink_view`: answers with `SinkResponse(req)`; only a 200 answer to an
    event with a target status runs the helper for the alias, and every other request
    leaves the database and the sent log as they were.
   */
  method PexipEventSinkView(db: Database, req: EventRequest) returns (resp: EventResponse)
    requires db.Valid()
    modifies db
    ensures db.Valid()
    ensures resp == SinkResponse(req)
    ensures Code(resp) == 200 && TargetStatus(req.body.event, req.body.data.role).Some? ==>
      StatusNotified(old(db.Tables()), old(db.sent), db.Tables(), db.sent,
                     req.body.data.destinationAlias.value, TargetStatus(req.body.event, req.body.data.role).value)
    ensures !(Code(resp) == 200 && TargetStatus(req.body.event, req.body.data.role).Some?) ==>
      db.Tables() == old(db.Tables()) && db.sent == old(db.sent)
  {
    resp := SinkResponse(req);
    if Code(resp) == 200 {
      var target := TargetStatus(req.body.event, req.body.data.role);
      if target.Some? {
        UpdateEntryStatusAndNotify(db, req.body.data.destinationAlias.value, target.value);
      }
    }
  }

  // ----- What the helper guarantees -----

  /**
    The helper writes at most the one entry of that uuid and only its status, keeps
    the tables consistent, and sends either nothing or exactly one refresh to the
    group of an entry of that uuid whose status differed; it never writes without
    sending, nor sends without writing.
   */
  lemma NotifyTouchesOnlyTarget(b: Db, bSent: seq<Signal>, a: Db, aSent: seq<Signal>, uuid: string, status: string)
    requires Consistent(b) && StatusNotified(b, bSent, a, aSent, uuid, status)
    ensures Consistent(a)
    ensures a.doctors == b.doctors && a.patients == b.patients && |a.entries| == |b.entries|
    ensures forall i :: 0 <= i < |b.entries| ==>
      a.entries[i] == b.entries[i]
      || (PatientHasUuid(b.patients, b.entries[i].patientId, uuid) && a.entries[i] == b.entries[i].(status := status))
    ensures aSent == bSent <==> a == b
    ensures aSent != bSent ==> exists e ::
      && e in b.entries && PatientHasUuid(b.patients, e.patientId, uuid) && e.status != status
      && aSent == bSent + [WaitingListUpdate(GroupName(e.doctorId))]
    ensures |EntriesForUuid(b.entries, b.patients, uuid)| != 1 ==> a == b && aSent == bSent
  {
    match Orm.Get(EntriesForUuid(b.entries, b.patients, uuid))
    case Found(e) =>
      if e.status != status && |status| <= MAX_STATUS_LENGTH {
        SaveStatusKeepsConsistent(b, e.id, status);
        SavedEntryIsTarget(b.entries, b.patients, e, uuid, status);
      }
    case DoesNotExist =>
    case MultipleObjectsReturned =>
  }

  /** Saving the single entry of `uuid` changes that entry and no other, and does change it. */
  lemma SavedEntryIsTarget(entries: seq<Entry>, patients: seq<Patient>, e: Entry, uuid: string, status: string)
    requires EntryIdsUnique(entries) && Orm.Get(EntriesForUuid(entries, patients, uuid)) == Orm.Found(e)
    requires e.status != status
    ensures e in entries && PatientHasUuid(patients, e.patientId, uuid)
    ensures WithStatusById(entries, e.id, status) != entries
    ensures forall i :: 0 <= i < |entries| ==>
      WithStatusById(entries, e.id, status)[i] == entries[i]
      || (PatientHasUuid(patients, entries[i].patientId, uuid)
          && WithStatusById(entries, e.id, status)[i] == entries[i].(status := status))
  {
    assert e in EntriesForUuid(entries, patients, uuid);
    var r := WithStatusById(entries, e.id, status);
    var k :| 0 <= k < |entries| && entries[k] == e;
    assert r[k] != entries[k];
    forall i | 0 <= i < |entries| && entries[i].id == e.id
      ensures PatientHasUuid(patients, entries[i].patientId, uuid)
    {
      EntryByKeyIsUnique(entries, e, i);
    }
  }

  /** After the single entry of `uuid` is saved with `status`, it is still the single entry of `uuid`, now with `status`. */
  lemma SavedEntryStillFound(entries: seq<Entry>, patients: seq<Patient>, e: Entry, uuid: string, status: string)
    requires EntryIdsUnique(entries) && Orm.Get(EntriesForUuid(entries, patients, uuid)) == Orm.Found(e)
    ensures Orm.Get(EntriesForUuid(WithStatusById(entries, e.id, status), patients, uuid)) == Orm.Found(e.(status := status))
  {
    var r := WithStatusById(entries, e.id, status);
    assert forall i :: 0 <= i < |entries| ==> r[i].patientId == entries[i].patientId;
    Orm.FilterCountAgrees(entries, r, (e: Entry) => PatientHasUuid(patients, e.patientId, uuid));
    var q := EntriesForUuid(r, patients, uuid);
    assert q[0] in q;
    var k :| 0 <= k < |r| && r[k] == q[0];
    assert entries[k] in EntriesForUuid(entries, patients, uuid);
  }

  /**
    Delivering the same event twice is the same as delivering it once: the second
    run finds the status already equal, so it neither writes nor sends.
   */
  lemma NotifyIdempotent(b: Db, s0: seq<Signal>, m: Db, s1: seq<Signal>, a: Db, s2: seq<Signal>,
                         uuid: string, status: string)
    requires Consistent(b)
    requires StatusNotified(b, s0, m, s1, uuid, status)
    requires StatusNotified(m, s1, a, s2, uuid, status)
    ensures a == m && s2 == s1
  {
    match Orm.Get(EntriesForUuid(b.entries, b.patients, uuid))
    case Found(e) =>
      if e.status != status && |status| <= MAX_STATUS_LENGTH {
        SavedEntryStillFound(b.entries, b.patients, e, uuid, status);
      }
    case DoesNotExist =>
    case MultipleObjectsReturned =>
  }

  /**
    The code applies "Left Call" (the target of `conference_ended`) whatever the
    entry's current status, so such an event for a patient whose single entry is already "Done" or
    "Cancelled" brings that entry back onto the doctor's waiting list.
   */
  lemma ConferenceEndReopensFinished(b: Db, bSent: seq<Signal>, a: Db, aSent: seq<Signal>, uuid: string, e: Entry)
    requires Consistent(b) && Orm.Get(EntriesForUuid(b.entries, b.patients, uuid)) == Orm.Found(e)
    requires IsFinished(e.status)
    requires StatusNotified(b, bSent, a, aSent, uuid, LEFT_CALL)
    ensures Consistent(a)
    ensures e !in Consumers.WaitingList(b, e.doctorId)
    ensures e.(status := LEFT_CALL) in Consumers.WaitingList(a, e.doctorId)
    ensures aSent == bSent + [WaitingListUpdate(GroupName(e.doctorId))]
  {
    assert e in EntriesForUuid(b.entries, b.patients, uuid);
    assert !IsFinished(LEFT_CALL) by {
      assert LEFT_CALL[0] != DONE[0] && LEFT_CALL[0] != CANCELLED[0];
    }
    assert e.status != LEFT_CALL;
    NotifyTouchesOnlyTarget(b, bSent, a, aSent, uuid, LEFT_CALL);
    var k :| 0 <= k < |b.entries| && b.entries[k] == e;
    var moved := e.(status := LEFT_CALL);
    assert a.entries == WithStatusById(b.entries, e.id, LEFT_CALL);
    assert a.entries[k] == moved;
    assert moved in a.entries;
    assert HasDoctor(a.doctors, moved.doctorId);
  }
}
