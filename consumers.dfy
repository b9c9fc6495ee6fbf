/**
  `WaitingRoomConsumer`: one realtime connection scoped to a doctor. Each inbound
  command changes the shared database and then sends one refresh to the doctor's
  group; the snapshot it pushes lists the doctor's entries still in the queue.
 */
module Consumers {
  import opened Wrappers
  import opened Models
  import opened Store
  import Orm

  const UPDATE_STATUS := "update_status"
  const ADD_PATIENT := "add_patient"
  const REMOVE_PATIENT := "remove_patient"

  /** A parsed inbound frame: `type` and the fields the three commands read, each possibly absent. */
  datatype Message = Message(
    kind: Option<string>,
    entryId: Option<int>,
    status: Option<string>,
    patientName: Option<string>)

  /**
    Values the hidden column defaults supply when a patient or an entry is created:
    the new patient's uuid and the new entry's host and guest PINs.
   */
  datatype Fresh = Fresh(patientUuid: string, hostPin: string, guestPin: string)

  /** One element of the pushed `waiting_list` data. */
  datatype Row = Row(id: nat, patientName: string, status: string, arrivedAt: nat, doctorId: nat)

  predicate IsCommand(kind: Option<string>) {
    kind == Some(UPDATE_STATUS) || kind == Some(ADD_PATIENT) || kind == Some(REMOVE_PATIENT)
  }

  // ----- Query sets -----

  /** `filter(doctor=doctor).exclude(status__in=['Done', 'Cancelled']).order_by('arrived_at')`. */
  function ActiveQuery(entries: seq<Entry>, doctorId: nat): seq<Entry> {
    Orm.Filter(entries, (e: Entry) => e.doctorId == doctorId && !IsFinished(e.status))
  }

  /** `WaitingRoomEntry.objects.filter(id=entry_id, doctor_id=doctor_id)`; no row has a null key. */
  function EntryQuery(entries: seq<Entry>, entryId: Option<int>, doctorId: nat): seq<Entry> {
    if entryId.None? then []
    else Orm.Filter(entries, (e: Entry) => e.id == entryId.value && e.doctorId == doctorId)
  }

  /** `Patient.objects.filter(name=name)`, the lookup half of `get_or_create`. */
  function PatientsNamed(patients: seq<Patient>, name: string): seq<Patient> {
    Orm.Filter(patients, (p: Patient) => p.name == name)
  }

  /**
    The entries behind `get_waiting_list_data`: none when the doctor does not exist,
    otherwise exactly the doctor's entries whose status is neither "Done" nor
    "Cancelled" ("Left Call" included), in arrival order.
   */
  function WaitingList(db: Db, doctorId: nat): (r: seq<Entry>)
    requires Consistent(db)
    ensures !HasDoctor(db.doctors, doctorId) ==> r == []
    ensures forall e :: e in r <==>
      HasDoctor(db.doctors, doctorId) && e in db.entries && e.doctorId == doctorId && !IsFinished(e.status)
  {
    DoctorQueryByKey(db.doctors, doctorId);
    match Orm.Get(DoctorQuery(db.doctors, doctorId))
    case Found(_) => ActiveQuery(db.entries, doctorId)
    case _ => []
  }

  /** The waiting list is in ascending order of arrival. */
  lemma WaitingListAscending(db: Db, doctorId: nat)
    requires Consistent(db)
    ensures ArrivalAscending(WaitingList(db, doctorId))
  {
    Orm.FilterKeepsPairwise(db.entries, (e: Entry) => e.doctorId == doctorId && !IsFinished(e.status),
      (a: Entry, b: Entry) => a.arrivedAt < b.arrivedAt);
  }

  /** The pushed form of one entry. */
  function RowOf(db: Db, e: Entry): (r: Row)
    requires Consistent(db) && e in db.entries
    ensures r.id == e.id && r.status == e.status && r.arrivedAt == e.arrivedAt && r.doctorId == e.doctorId
    ensures exists p :: p in db.patients && p.id == e.patientId && r.patientName == p.name
  {
    Row(e.id, PatientOf(db, e).name, e.status, e.arrivedAt, e.doctorId)
  }

  /** With unique keys, `get(id=..., doctor_id=...)` finds the matching entry or reports none, never several. */
  lemma EntryQueryByKey(entries: seq<Entry>, entryId: Option<int>, doctorId: nat)
    requires EntryIdsUnique(entries)
    ensures !Orm.Get(EntryQuery(entries, entryId, doctorId)).MultipleObjectsReturned?
    ensures Orm.Get(EntryQuery(entries, entryId, doctorId)).Found? <==>
      exists e :: e in entries && Some(e.id) == entryId && e.doctorId == doctorId
    ensures forall e :: e in EntryQuery(entries, entryId, doctorId) ==>
      e in entries && Some(e.id) == entryId && e.doctorId == doctorId
  {
    if entryId.Some? {
      var id := entryId.value;
      Orm.FilterOfUniqueKey(entries, (e: Entry) => e.id == id && e.doctorId == doctorId,
        (a: Entry, b: Entry) => a.id != b.id);
      if exists e :: e in entries && e.id == id && e.doctorId == doctorId {
        var e :| e in entries && e.id == id && e.doctorId == doctorId;
        assert e in EntryQuery(entries, entryId, doctorId);
      }
    }
  }

  // ----- The three commands, as relations between the database before and after -----

  /** `update_waiting_entry_status`: `get(id=..., doctor_id=...)`, then overwrite the status and `save()`. */
  ghost predicate StatusUpdated(b: Db, a: Db, doctorId: nat, entryId: Option<int>, status: Option<string>) {
    match Orm.Get(EntryQuery(b.entries, entryId, doctorId))
    case Found(e) =>
      // a null status violates NOT NULL and an overlong one the column width: save() raises
      if status.Some? && |status.value| <= MAX_STATUS_LENGTH
      then a == b.(entries := WithStatusById(b.entries, e.id, status.value))
      else a == b
    case _ => a == b
  }

  /** The database after `objects.create(doctor=..., patient=..., status='Waiting')`. */
  function WithWaitingEntry(db: Db, doctorId: nat, patientId: nat, minted: Fresh): Db {
    db.(entries := db.entries + [NewEntry(db.nextEntryId, doctorId, patientId, Some(WAITING), db.clock,
                                          minted.hostPin, minted.guestPin)],
        nextEntryId := db.nextEntryId + 1,
        clock := db.clock + 1)
  }

  /**
    `Patient.objects.get_or_create(name=name)` where it succeeds: the one patient of
    that name, or a new one with the next key.
   */
  function GetOrCreatePatient(b: Db, name: string, minted: Fresh): (Db, nat) {
    match Orm.Get(PatientsNamed(b.patients, name))
    case Found(p) => (b, p.id)
    case _ =>
      (b.(patients := b.patients + [Patient(b.nextPatientId, name, minted.patientUuid)],
          nextPatientId := b.nextPatientId + 1),
       b.nextPatientId)
  }

  /**
    `add_patient_to_waiting_room`: `Doctor.objects.get`, `Patient.objects.get_or_create(name=...)`,
    then always a new "Waiting" entry. A missing doctor, a null or overlong name, or
    several patients of that name end in a caught exception with nothing stored.
   */
  ghost predicate PatientAdded(b: Db, a: Db, doctorId: nat, name: Option<string>, minted: Fresh) {
    if || !Orm.Get(DoctorQuery(b.doctors, doctorId)).Found?
       || name.None?
       || Orm.Get(PatientsNamed(b.patients, name.value)).MultipleObjectsReturned?
       || (PatientsNamed(b.patients, name.value) == [] && |name.value| > MAX_NAME_LENGTH)
    then a == b
    else
      var (m, pid) := GetOrCreatePatient(b, name.value, minted);
      a == WithWaitingEntry(m, doctorId, pid, minted)
  }

  /** `remove_waiting_entry`: `get(id=..., doctor_id=...)`, then `delete()`. */
  ghost predicate EntryRemoved(b: Db, a: Db, doctorId: nat, entryId: Option<int>) {
    match Orm.Get(EntryQuery(b.entries, entryId, doctorId))
    case Found(e) => a == b.(entries := WithoutEntry(b.entries, e.id))
    case _ => a == b
  }

  // ----- What the relations imply -----

  /**
    `update_status` rewrites the status of the one entry with that key and this
    doctor, whatever its current status, and leaves every other entry and table as
    it was; when nothing matches, nothing changes.
   */
  lemma {:induction false} UpdateStatusTouchesOnlyTarget(b: Db, a: Db, doctorId: nat, entryId: Option<int>, status: Option<string>)
    requires Consistent(b) && StatusUpdated(b, a, doctorId, entryId, status)
    ensures Consistent(a)
    ensures a.doctors == b.doctors && a.patients == b.patients && |a.entries| == |b.entries|
    ensures forall i :: 0 <= i < |b.entries| ==>
      a.entries[i] == if Some(b.entries[i].id) == entryId && b.entries[i].doctorId == doctorId
                          && status.Some? && |status.value| <= MAX_STATUS_LENGTH
                      then b.entries[i].(status := status.value)
                      else b.entries[i]
    ensures ArrivalsKept(b.entries, a.entries)
  {
    EntryQueryByKey(b.entries, entryId, doctorId);
    match Orm.Get(EntryQuery(b.entries, entryId, doctorId))
    case Found(e) =>
      if status.Some? && |status.value| <= MAX_STATUS_LENGTH {
        SaveStatusKeepsConsistent(b, e.id, status.value);
        SaveStatusKeepsArrivals(b.entries, e.id, status.value);
        forall i | 0 <= i < |b.entries|
          ensures (b.entries[i].id == e.id) == (Some(b.entries[i].id) == entryId && b.entries[i].doctorId == doctorId)
        {
          if b.entries[i].id == e.id { EntryByKeyIsUnique(b.entries, e, i); }
        }
      }
    case DoesNotExist =>
    case MultipleObjectsReturned =>
  }

  /** `get_or_create` of a storable name keeps the tables consistent and yields a patient of that name. */
  lemma GetOrCreateResolves(b: Db, name: string, minted: Fresh)
    requires Consistent(b) && |name| <= MAX_NAME_LENGTH && |PatientsNamed(b.patients, name)| <= 1
    ensures var (m, pid) := GetOrCreatePatient(b, name, minted);
      && Consistent(m)
      && m == b.(patients := m.patients, nextPatientId := m.nextPatientId)
      && (forall p :: p in m.patients && p.id == pid ==> p.name == name)
      && HasPatient(m.patients, pid)
      && (|PatientsNamed(b.patients, name)| == 1 ==> m == b)
      && (|PatientsNamed(b.patients, name)| == 0 ==>
            m.patients == b.patients + [Patient(b.nextPatientId, name, minted.patientUuid)])
  {
    var named := PatientsNamed(b.patients, name);
    var (m, pid) := GetOrCreatePatient(b, name, minted);
    if |named| == 1 {
      assert named[0] in named;
      forall p | p in m.patients && p.id == pid ensures p.name == name {
        PatientKeyDeterminesRow(b.patients, p, named[0]);
      }
    } else {
      var q := Patient(b.nextPatientId, name, minted.patientUuid);
      AppendPatientKeepsConsistent(b, q);
      assert q in m.patients;
      forall p | p in m.patients && p.id == pid ensures p.name == name {
        PatientKeyDeterminesRow(m.patients, p, q);
      }
    }
  }

  /** A new active entry of an existing doctor lands at the end of that doctor's waiting list. */
  lemma NewEntryJoinsWaitingList(b: Db, e: Entry)
    requires Consistent(b) && HasDoctor(b.doctors, e.doctorId) && !IsFinished(e.status)
    requires Consistent(b.(entries := b.entries + [e], nextEntryId := b.nextEntryId + 1, clock := b.clock + 1))
    ensures var a := b.(entries := b.entries + [e], nextEntryId := b.nextEntryId + 1, clock := b.clock + 1);
      WaitingList(a, e.doctorId) == WaitingList(b, e.doctorId) + [e]
  {
    DoctorQueryByKey(b.doctors, e.doctorId);
    Orm.FilterAppend(b.entries, e, (x: Entry) => x.doctorId == e.doctorId && !IsFinished(x.status));
  }

  /**
    `add_patient` with an existing doctor, a storable name and at most one patient of
    that name always appends one new "Waiting" entry for that patient, at the end of
    the doctor's waiting list, even when the patient is already queued: there is no
    duplicate-join suppression. An existing patient of that name is reused.
   */
  lemma AddPatientAlwaysAppends(b: Db, a: Db, doctorId: nat, name: Option<string>, minted: Fresh)
    requires Consistent(b) && PatientAdded(b, a, doctorId, name, minted)
    requires HasDoctor(b.doctors, doctorId) && name.Some? && |name.value| <= MAX_NAME_LENGTH
    requires |PatientsNamed(b.patients, name.value)| <= 1
    ensures Consistent(a)
    ensures a.doctors == b.doctors
    ensures |a.entries| == |b.entries| + 1 && a.entries[..|b.entries|] == b.entries
    ensures var e := a.entries[|b.entries|];
      && e.doctorId == doctorId && e.status == WAITING
      && e.id == b.nextEntryId && e.arrivedAt == b.clock
      && e.hostPin == minted.hostPin && e.guestPin == minted.guestPin
      && PatientOf(a, e).name == name.value
      && WaitingList(a, doctorId) == WaitingList(b, doctorId) + [e]
    ensures |PatientsNamed(b.patients, name.value)| == 1 ==> a.patients == b.patients
    ensures |PatientsNamed(b.patients, name.value)| == 0 ==>
      a.patients == b.patients + [Patient(b.nextPatientId, name.value, minted.patientUuid)]
  {
    DoctorQueryByKey(b.doctors, doctorId);
    GetOrCreateResolves(b, name.value, minted);
    var (m, pid) := GetOrCreatePatient(b, name.value, minted);
    var e := NewEntry(m.nextEntryId, doctorId, pid, Some(WAITING), m.clock, minted.hostPin, minted.guestPin);
    AppendEntryKeepsConsistent(m, e);
    assert a == m.(entries := m.entries + [e], nextEntryId := m.nextEntryId + 1, clock := m.clock + 1);
    NewEntryJoinsWaitingList(m, e);
    assert WaitingList(m, doctorId) == WaitingList(b, doctorId) by {
      DoctorQueryByKey(m.doctors, doctorId);
    }
  }

  /**
    `add_patient` stores nothing when the doctor does not exist, the name is absent or
    longer than its column, or several patients already share the name.
   */
  lemma AddPatientFailsQuietly(b: Db, a: Db, doctorId: nat, name: Option<string>, minted: Fresh)
    requires Consistent(b) && PatientAdded(b, a, doctorId, name, minted)
    requires || !HasDoctor(b.doctors, doctorId) || name.None?
             || |name.value| > MAX_NAME_LENGTH || |PatientsNamed(b.patients, name.value)| >= 2
    ensures a == b
  {
    DoctorQueryByKey(b.doctors, doctorId);
    if HasDoctor(b.doctors, doctorId) && name.Some? && |name.value| > MAX_NAME_LENGTH {
      var named := PatientsNamed(b.patients, name.value);
      assert forall p :: p in named ==> |p.name| <= MAX_NAME_LENGTH < |name.value|;
      Orm.NoMembersMeansEmpty(named);
    }
  }

  /**
    `remove_patient` deletes exactly the entry with that key and this doctor, if there
    is one, and changes nothing else.
   */
  lemma RemoveDeletesOnlyTarget(b: Db, a: Db, doctorId: nat, entryId: Option<int>)
    requires Consistent(b) && EntryRemoved(b, a, doctorId, entryId)
    ensures Consistent(a)
    ensures a.doctors == b.doctors && a.patients == b.patients
    ensures forall x :: x in a.entries <==>
      x in b.entries && !(Some(x.id) == entryId && x.doctorId == doctorId)
    ensures ArrivalsKept(b.entries, a.entries)
  {
    EntryQueryByKey(b.entries, entryId, doctorId);
    match Orm.Get(EntryQuery(b.entries, entryId, doctorId))
    case Found(e) =>
      DeleteKeepsConsistent(b, e.id);
      forall x | x in b.entries
        ensures x.id == e.id <==> (Some(x.id) == entryId && x.doctorId == doctorId)
      {
        if x.id == e.id { EntryKeyDeterminesRow(b.entries, x, e); }
      }
    case DoesNotExist =>
    case MultipleObjectsReturned =>
  }

  // ----- The consumer -----

  /**
    One websocket connection of a doctor's dashboard or of a patient page. The
    channel-layer group join and leave are transport and are not modelled.
   */
  class WaitingRoomConsumer {
    const db: Database
    const doctorId: nat
    /** `doctor_group_name`. */
    const groupName: string := GroupName(doctorId)

    /** `connect`: remembers the doctor of the route and the name of that doctor's group. */
    constructor Connect(db: Database, doctorId: nat)
      ensures this.db == db && this.doctorId == doctorId && groupName == GroupName(doctorId)
    {
      this.db := db;
      this.doctorId := doctorId;
    }

    /**
      `get_waiting_list_data`: one row per entry of the waiting list, in its order; the
      list is empty when the doctor does not exist. Every row belongs to this doctor,
      carries a status other than "Done" and "Cancelled", and rows are in ascending
      order of arrival.
     */
    method GetWaitingListData() returns (data: seq<Row>)
      requires db.Valid()
      ensures |data| == |WaitingList(db.Tables(), doctorId)|
      ensures forall i :: 0 <= i < |data| ==> data[i] == RowOf(db.Tables(), WaitingList(db.Tables(), doctorId)[i])
      ensures !HasDoctor(db.doctors, doctorId) ==> data == []
      ensures forall i :: 0 <= i < |data| ==> data[i].doctorId == doctorId && !IsFinished(data[i].status)
      ensures forall i, j :: 0 <= i < j < |data| ==> data[i].arrivedAt < data[j].arrivedAt
    {
      var tables := db.Tables();
      DoctorQueryByKey(tables.doctors, doctorId);
      WaitingListAscending(tables, doctorId);
      var doctor := Orm.Get(DoctorQuery(tables.doctors, doctorId));
      if !doctor.Found? {
        return [];
      }
      var waiting := ActiveQuery(tables.entries, doctorId);
      assert waiting == WaitingList(tables, doctorId);
      data := [];
      for k := 0 to |waiting|
        invariant |data| == k
        invariant forall i :: 0 <= i < k ==> data[i] == RowOf(tables, waiting[i])
      {
        assert waiting[k] in waiting;
        data := data + [RowOf(tables, waiting[k])];
      }
      forall i | 0 <= i < |data|
        ensures data[i].doctorId == doctorId && !IsFinished(data[i].status)
      {
        assert waiting[i] in waiting;
      }
    }

    /** `update_waiting_entry_status`: the database moves as `StatusUpdated` says; nothing is sent. */
    method UpdateWaitingEntryStatus(entryId: Option<int>, status: Option<string>)
      requires db.Valid()
      modifies db
      ensures db.Valid()
      ensures StatusUpdated(old(db.Tables()), db.Tables(), doctorId, entryId, status)
      ensures db.sent == old(db.sent)
    {
      EntryQueryByKey(db.entries, entryId, doctorId);
      var found := Orm.Get(EntryQuery(db.entries, entryId, doctorId));
      if found.Found? && status.Some? {
        var saved := db.SaveStatus(found.value.id, status.value);
      }
    }

    /** `add_patient_to_waiting_room`: the database moves as `PatientAdded` says; nothing is sent. */
    method AddPatientToWaitingRoom(name: Option<string>, minted: Fresh)
      requires db.Valid()
      modifies db
      ensures db.Valid()
      ensures PatientAdded(old(db.Tables()), db.Tables(), doctorId, name, minted)
      ensures db.sent == old(db.sent)
    {
      DoctorQueryByKey(db.doctors, doctorId);
      var doctor := Orm.Get(DoctorQuery(db.doctors, doctorId));
      if !doctor.Found? || name.None? {
        return;
      }
      var patientId: nat;
      match Orm.Get(PatientsNamed(db.patients, name.value)) {
        case MultipleObjectsReturned =>
          return;
        case Found(p) =>
          assert p in PatientsNamed(db.patients, name.value);
          patientId := p.id;
        case DoesNotExist =>
          var created := db.CreatePatient(name.value, minted.patientUuid);
          if created.None? {
            return;
          }
          assert created.value in db.patients;
          patientId := created.value.id;
      }
      var entry := db.CreateEntry(doctorId, patientId, Some(WAITING), minted.hostPin, minted.guestPin);
    }

    /** `remove_waiting_entry`: the database moves as `EntryRemoved` says; nothing is sent. */
    method RemoveWaitingEntry(entryId: Option<int>)
      requires db.Valid()
      modifies db
      ensures db.Valid()
      ensures EntryRemoved(old(db.Tables()), db.Tables(), doctorId, entryId)
      ensures db.sent == old(db.sent)
    {
      EntryQueryByKey(db.entries, entryId, doctorId);
      var found := Orm.Get(EntryQuery(db.entries, entryId, doctorId));
      if found.Found? {
        db.DeleteEntry(found.value.id);
      }
    }

    /**
      `receive`: each of the three commands runs its handler and then sends exactly
      one "waiting_list_update" to this doctor's group, whether or not the handler
      changed anything; any other `type` changes nothing and sends nothing.
     */
    method Receive(msg: Message, minted: Fresh)
      requires db.Valid()
      modifies db
      ensures db.Valid()
      ensures msg.kind == Some(UPDATE_STATUS) ==>
        StatusUpdated(old(db.Tables()), db.Tables(), doctorId, msg.entryId, msg.status)
      ensures msg.kind == Some(ADD_PATIENT) ==>
        PatientAdded(old(db.Tables()), db.Tables(), doctorId, msg.patientName, minted)
      ensures msg.kind == Some(REMOVE_PATIENT) ==>
        EntryRemoved(old(db.Tables()), db.Tables(), doctorId, msg.entryId)
      ensures !IsCommand(msg.kind) ==> db.Tables() == old(db.Tables())
      ensures db.sent == old(db.sent) + if IsCommand(msg.kind) then [WaitingListUpdate(GroupName(doctorId))] else []
    {
      if msg.kind == Some(UPDATE_STATUS) {
        UpdateWaitingEntryStatus(msg.entryId, msg.status);
        db.GroupSend(groupName);
      } else if msg.kind == Some(ADD_PATIENT) {
        AddPatientToWaitingRoom(msg.patientName, minted);
        db.GroupSend(groupName);
      } else if msg.kind == Some(REMOVE_PATIENT) {
        RemoveWaitingEntry(msg.entryId);
        db.GroupSend(groupName);
      }
    }
  }
}
