/**
  The three record types of the waiting room and the tables that hold them.
  `models.py` as shown declares no `uuid` on Patient and no PINs on an entry, although
  the conferencing views read `patient.uuid`, `entry.host_pin` and `entry.guest_pin`;
  the model carries them as plain fields.
 */
module Models {
  import opened Wrappers
  import Orm

  /** `CharField(max_length=100)` on both names and `max_length=50` on the status. */
  const MAX_NAME_LENGTH: nat := 100
  const MAX_STATUS_LENGTH: nat := 50

  /** The status strings the code writes or tests. */
  const WAITING := "Waiting"
  const IN_PROGRESS := "In Progress"
  const IN_CALL := "In Call"
  const LEFT_CALL := "Left Call"
  const DONE := "Done"
  const CANCELLED := "Cancelled"

  /** `default='Waiting'` on the status column. */
  const DEFAULT_STATUS := WAITING

  datatype Doctor = Doctor(id: nat, name: string)

  datatype Patient = Patient(id: nat, name: string, uuid: string)

  /** One `WaitingRoomEntry` row; `arrivedAt` is the creation counter standing for `auto_now_add`. */
  datatype Entry = Entry(
    id: nat,
    doctorId: nat,
    patientId: nat,
    status: string,
    arrivedAt: nat,
    hostPin: string,
    guestPin: string)

  /**
    The three tables, each in its default order, with the counters the database uses
    for the next primary keys and for the next arrival time.
   */
  datatype Db = Db(
    doctors: seq<Doctor>,
    patients: seq<Patient>,
    entries: seq<Entry>,
    nextPatientId: nat,
    nextEntryId: nat,
    clock: nat)

  /** The statuses that the history page shows and the waiting list leaves out. */
  predicate IsFinished(status: string) {
    status == DONE || status == CANCELLED
  }

  predicate HasDoctor(doctors: seq<Doctor>, id: int) {
    exists d :: d in doctors && d.id == id
  }

  predicate HasPatient(patients: seq<Patient>, id: int) {
    exists p :: p in patients && p.id == id
  }

  /** Whether the entry's patient carries the given uuid: the join behind `patient__uuid=`. */
  predicate PatientHasUuid(patients: seq<Patient>, patientId: nat, uuid: string) {
    exists p :: p in patients && p.id == patientId && p.uuid == uuid
  }

  ghost predicate DoctorIdsUnique(doctors: seq<Doctor>) {
    forall i, j :: 0 <= i < j < |doctors| ==> doctors[i].id != doctors[j].id
  }

  ghost predicate PatientIdsUnique(patients: seq<Patient>) {
    forall i, j :: 0 <= i < j < |patients| ==> patients[i].id != patients[j].id
  }

  ghost predicate EntryIdsUnique(entries: seq<Entry>) {
    forall i, j :: 0 <= i < j < |entries| ==> entries[i].id != entries[j].id
  }

  /** `ordering = ['arrived_at']`: the entry table in its default order, arrivals strictly increasing. */
  ghost predicate ArrivalAscending(entries: seq<Entry>) {
    forall i, j :: 0 <= i < j < |entries| ==> entries[i].arrivedAt < entries[j].arrivedAt
  }

  /** `order_by('-arrived_at')`: newest first. */
  ghost predicate ArrivalDescending(entries: seq<Entry>) {
    forall i, j :: 0 <= i < j < |entries| ==> entries[i].arrivedAt > entries[j].arrivedAt
  }

  /**
    What the database guarantees of its tables: primary keys are unique and below the
    next key to be handed out, every entry references an existing doctor and patient
    (the two foreign keys), arrival times are below the clock and increase along the
    default order, and no stored text exceeds its column's `max_length`.
   */
  ghost predicate Consistent(db: Db) {
    && DoctorIdsUnique(db.doctors)
    && PatientIdsUnique(db.patients)
    && EntryIdsUnique(db.entries)
    && ArrivalAscending(db.entries)
    && (forall e :: e in db.entries ==>
          HasDoctor(db.doctors, e.doctorId) && HasPatient(db.patients, e.patientId))
    && (forall p :: p in db.patients ==> p.id < db.nextPatientId)
    && (forall e :: e in db.entries ==> e.id < db.nextEntryId && e.arrivedAt < db.clock)
    && (forall d :: d in db.doctors ==> |d.name| <= MAX_NAME_LENGTH)
    && (forall p :: p in db.patients ==> |p.name| <= MAX_NAME_LENGTH)
    && (forall e :: e in db.entries ==> |e.status| <= MAX_STATUS_LENGTH)
  }

  // ----- The query sets the application builds -----

  /** `Doctor.objects.filter(id=id)`, the query behind `get(id=...)` and `get_object_or_404(Doctor, pk=...)`. */
  function DoctorQuery(doctors: seq<Doctor>, id: int): seq<Doctor> {
    Orm.Filter(doctors, (d: Doctor) => d.id == id)
  }

  /** `Patient.objects.filter(id=id)`. */
  function PatientQuery(patients: seq<Patient>, id: int): seq<Patient> {
    Orm.Filter(patients, (p: Patient) => p.id == id)
  }

  /** Lookup by primary key finds the one doctor with that key, or none. */
  lemma DoctorQueryByKey(doctors: seq<Doctor>, id: int)
    requires DoctorIdsUnique(doctors)
    ensures HasDoctor(doctors, id) ==> Orm.Get(DoctorQuery(doctors, id)).Found?
    ensures !HasDoctor(doctors, id) ==> Orm.Get(DoctorQuery(doctors, id)).DoesNotExist?
    ensures forall d :: d in DoctorQuery(doctors, id) ==> d in doctors && d.id == id
  {
    var q := DoctorQuery(doctors, id);
    Orm.FilterOfUniqueKey(doctors, (d: Doctor) => d.id == id, (a: Doctor, b: Doctor) => a.id != b.id);
    if HasDoctor(doctors, id) {
      var d :| d in doctors && d.id == id;
      assert d in q;
    }
  }

  /** Lookup by primary key finds the one patient with that key, or none. */
  lemma PatientQueryByKey(patients: seq<Patient>, id: int)
    requires PatientIdsUnique(patients)
    ensures HasPatient(patients, id) ==> Orm.Get(PatientQuery(patients, id)).Found?
    ensures !HasPatient(patients, id) ==> Orm.Get(PatientQuery(patients, id)).DoesNotExist?
  {
    var q := PatientQuery(patients, id);
    Orm.FilterOfUniqueKey(patients, (p: Patient) => p.id == id, (a: Patient, b: Patient) => a.id != b.id);
    if HasPatient(patients, id) {
      var p :| p in patients && p.id == id;
      assert p in q;
    }
  }

  /** The doctor an entry references (the `entry.doctor` foreign key). */
  function DoctorOf(db: Db, e: Entry): (d: Doctor)
    requires Consistent(db) && e in db.entries
    ensures d in db.doctors && d.id == e.doctorId
  {
    var q := DoctorQuery(db.doctors, e.doctorId);
    DoctorQueryByKey(db.doctors, e.doctorId);
    q[0]
  }

  /** The patient an entry references (the `entry.patient` foreign key). */
  function PatientOf(db: Db, e: Entry): (p: Patient)
    requires Consistent(db) && e in db.entries
    ensures p in db.patients && p.id == e.patientId
  {
    var q := PatientQuery(db.patients, e.patientId);
    PatientQueryByKey(db.patients, e.patientId);
    q[0]
  }

  // ----- Creating, saving and deleting rows -----

  /**
    `WaitingRoomEntry(...)` at creation: the status is the one given or else the column
    default, and the arrival time is the creation time.
   */
  function NewEntry(id: nat, doctorId: nat, patientId: nat, status: Option<string>,
                    now: nat, hostPin: string, guestPin: string): (e: Entry)
    ensures status.None? ==> e.status == DEFAULT_STATUS
    ensures status.Some? ==> e.status == status.value
    ensures e.id == id && e.doctorId == doctorId && e.patientId == patientId && e.arrivedAt == now
  {
    Entry(id, doctorId, patientId, if status.Some? then status.value else DEFAULT_STATUS,
          now, hostPin, guestPin)
  }

  /** The entry table after `save()` of the row with key `id` carrying status `status`. */
  function WithStatusById(entries: seq<Entry>, id: nat, status: string): (r: seq<Entry>)
    ensures |r| == |entries|
    ensures forall i :: 0 <= i < |entries| ==>
      r[i] == if entries[i].id == id then entries[i].(status := status) else entries[i]
  {
    if entries == [] then []
    else [if entries[0].id == id then entries[0].(status := status) else entries[0]]
         + WithStatusById(entries[1..], id, status)
  }

  /** The entry table after `delete()` of the row with key `id`. */
  function WithoutEntry(entries: seq<Entry>, id: nat): seq<Entry> {
    Orm.Filter(entries, (e: Entry) => e.id != id)
  }

  /** A row of a table with unique keys is the only one with its key. */
  lemma EntryByKeyIsUnique(entries: seq<Entry>, e: Entry, i: int)
    requires EntryIdsUnique(entries) && e in entries && 0 <= i < |entries| && entries[i].id == e.id
    ensures entries[i] == e
  {
    var k :| 0 <= k < |entries| && entries[k] == e;
  }

  /** Two rows of the entry table with the same key are the same row. */
  lemma EntryKeyDeterminesRow(entries: seq<Entry>, x: Entry, y: Entry)
    requires EntryIdsUnique(entries) && x in entries && y in entries && x.id == y.id
    ensures x == y
  {
    var i :| 0 <= i < |entries| && entries[i] == x;
    EntryByKeyIsUnique(entries, y, i);
  }

  /** Two rows of the patient table with the same key are the same row. */
  lemma PatientKeyDeterminesRow(patients: seq<Patient>, x: Patient, y: Patient)
    requires PatientIdsUnique(patients) && x in patients && y in patients && x.id == y.id
    ensures x == y
  {
    var i :| 0 <= i < |patients| && patients[i] == x;
    var j :| 0 <= j < |patients| && patients[j] == y;
    assert patients[i].id == patients[j].id;
  }

  /** Saving a status that fits its column keeps the tables consistent and moves no arrival time. */
  lemma {:induction false} SaveStatusKeepsConsistent(db: Db, id: nat, status: string)
    requires Consistent(db) && |status| <= MAX_STATUS_LENGTH
    ensures Consistent(db.(entries := WithStatusById(db.entries, id, status)))
  {
    var es := db.entries;
    var r := WithStatusById(es, id, status);
    assert forall i :: 0 <= i < |r| ==> r[i].id == es[i].id && r[i].arrivedAt == es[i].arrivedAt;
    assert EntryIdsUnique(r);
    assert ArrivalAscending(r);
    forall e | e in r
      ensures HasDoctor(db.doctors, e.doctorId) && HasPatient(db.patients, e.patientId)
      ensures e.id < db.nextEntryId && e.arrivedAt < db.clock && |e.status| <= MAX_STATUS_LENGTH
    {
      var k :| 0 <= k < |r| && r[k] == e;
      assert es[k] in es;
    }
  }

  /** No entry that exists both before and after has a different arrival time. */
  ghost predicate ArrivalsKept(before: seq<Entry>, after: seq<Entry>) {
    forall x, y :: x in after && y in before && x.id == y.id ==> x.arrivedAt == y.arrivedAt
  }

  /** `save()` of a status never moves an arrival time (`auto_now_add` is set once). */
  lemma SaveStatusKeepsArrivals(entries: seq<Entry>, id: nat, status: string)
    requires EntryIdsUnique(entries)
    ensures ArrivalsKept(entries, WithStatusById(entries, id, status))
  {
    var r := WithStatusById(entries, id, status);
    forall x, y | x in r && y in entries && x.id == y.id ensures x.arrivedAt == y.arrivedAt {
      var i :| 0 <= i < |r| && r[i] == x;
      var j :| 0 <= j < |entries| && entries[j] == y;
      assert entries[i].id == entries[j].id;
    }
  }

  /** Deleting a row keeps the tables consistent and removes exactly the rows with that key. */
  lemma DeleteKeepsConsistent(db: Db, id: nat)
    requires Consistent(db)
    ensures Consistent(db.(entries := WithoutEntry(db.entries, id)))
    ensures forall e :: e in WithoutEntry(db.entries, id) <==> e in db.entries && e.id != id
  {
    Orm.FilterKeepsPairwise(db.entries, (e: Entry) => e.id != id, (a: Entry, b: Entry) => a.id != b.id);
    Orm.FilterKeepsPairwise(db.entries, (e: Entry) => e.id != id, (a: Entry, b: Entry) => a.arrivedAt < b.arrivedAt);
  }

  /** Appending a newly created entry keeps the tables consistent. */
  lemma AppendEntryKeepsConsistent(db: Db, e: Entry)
    requires Consistent(db)
    requires e.id == db.nextEntryId && e.arrivedAt == db.clock
    requires HasDoctor(db.doctors, e.doctorId) && HasPatient(db.patients, e.patientId)
    requires |e.status| <= MAX_STATUS_LENGTH
    ensures Consistent(db.(entries := db.entries + [e], nextEntryId := db.nextEntryId + 1, clock := db.clock + 1))
  {
    var es := db.entries + [e];
    forall i, j | 0 <= i < j < |es| ensures es[i].id != es[j].id && es[i].arrivedAt < es[j].arrivedAt {
      if j == |es| - 1 {
        assert es[i] in db.entries;
      } else {
        assert es[i] == db.entries[i] && es[j] == db.entries[j];
      }
    }
  }

  /** Appending a newly created patient keeps the tables consistent. */
  lemma AppendPatientKeepsConsistent(db: Db, p: Patient)
    requires Consistent(db)
    requires p.id == db.nextPatientId && |p.name| <= MAX_NAME_LENGTH
    ensures Consistent(db.(patients := db.patients + [p], nextPatientId := db.nextPatientId + 1))
  {
    var ps := db.patients + [p];
    forall i, j | 0 <= i < j < |ps| ensures ps[i].id != ps[j].id {
      if j == |ps| - 1 {
        assert ps[i] in db.patients;
      } else {
        assert ps[i] == db.patients[i] && ps[j] == db.patients[j];
      }
    }
    forall e | e in db.entries ensures HasPatient(ps, e.patientId) {
      var q :| q in db.patients && q.id == e.patientId;
      assert q in ps;
    }
  }

  // ----- on_delete=models.CASCADE -----

  /** Deleting a doctor deletes the doctor's entries with it. */
  function DeleteDoctor(db: Db, id: nat): Db {
    db.(doctors := Orm.Filter(db.doctors, (d: Doctor) => d.id != id),
        entries := Orm.Filter(db.entries, (e: Entry) => e.doctorId != id))
  }

  /** Deleting a patient deletes the patient's entries with it. */
  function DeletePatient(db: Db, id: nat): Db {
    db.(patients := Orm.Filter(db.patients, (p: Patient) => p.id != id),
        entries := Orm.Filter(db.entries, (e: Entry) => e.patientId != id))
  }

  /**
    The cascade removes exactly the doctor with that key and that doctor's entries,
    keeps every other doctor, entry and patient, and keeps the tables consistent.
   */
  lemma DeleteDoctorCascades(db: Db, id: nat)
    requires Consistent(db)
    ensures var r := DeleteDoctor(db, id);
      && Consistent(r)
      && !HasDoctor(r.doctors, id)
      && (forall d :: d in r.doctors <==> d in db.doctors && d.id != id)
      && (forall e :: e in r.entries <==> e in db.entries && e.doctorId != id)
      && r.patients == db.patients
  {
    var r := DeleteDoctor(db, id);
    Orm.FilterKeepsPairwise(db.doctors, (d: Doctor) => d.id != id, (a: Doctor, b: Doctor) => a.id != b.id);
    Orm.FilterKeepsPairwise(db.entries, (e: Entry) => e.doctorId != id, (a: Entry, b: Entry) => a.id != b.id);
    Orm.FilterKeepsPairwise(db.entries, (e: Entry) => e.doctorId != id, (a: Entry, b: Entry) => a.arrivedAt < b.arrivedAt);
    forall e | e in r.entries ensures HasDoctor(r.doctors, e.doctorId) {
      var d :| d in db.doctors && d.id == e.doctorId;
      assert d in r.doctors;
    }
  }

  /**
    The cascade removes exactly the patient with that key and that patient's entries,
    keeps every other patient, entry and doctor, and keeps the tables consistent.
   */
  lemma DeletePatientCascades(db: Db, id: nat)
    requires Consistent(db)
    ensures var r := DeletePatient(db, id);
      && Consistent(r)
      && !HasPatient(r.patients, id)
      && (forall p :: p in r.patients <==> p in db.patients && p.id != id)
      && (forall e :: e in r.entries <==> e in db.entries && e.patientId != id)
      && r.doctors == db.doctors
  {
    var r := DeletePatient(db, id);
    Orm.FilterKeepsPairwise(db.patients, (p: Patient) => p.id != id, (a: Patient, b: Patient) => a.id != b.id);
    Orm.FilterKeepsPairwise(db.entries, (e: Entry) => e.patientId != id, (a: Entry, b: Entry) => a.id != b.id);
    Orm.FilterKeepsPairwise(db.entries, (e: Entry) => e.patientId != id, (a: Entry, b: Entry) => a.arrivedAt < b.arrivedAt);
    forall e | e in r.entries ensures HasPatient(r.patients, e.patientId) {
      var p :| p in db.patients && p.id == e.patientId;
      assert p in r.patients;
    }
  }

  // ----- request fields -----

  /**
    Python truthiness of an optional text field, as both provider callbacks test the
    conference alias: an absent, null or empty alias is missing.
   */
  predicate AliasPresent(alias: Option<string>) {
    alias.Some? && alias.value != ""
  }

  // ----- __str__ -----

  /** `WaitingRoomEntry.__str__`: "{patient} for Dr. {doctor} - {status}". */
  function EntryLabel(db: Db, e: Entry): (s: string)
    requires Consistent(db) && e in db.entries
    ensures var patient, doctor := PatientOf(db, e).name, DoctorOf(db, e).name;
      && |s| == |patient| + |" for Dr. "| + |doctor| + |" - "| + |e.status|
      && s[..|patient|] == patient
      && s[|patient|..|patient| + 9] == " for Dr. "
      && s[|patient| + 9..|patient| + 9 + |doctor|] == doctor
      && s[|patient| + 9 + |doctor|..|s| - |e.status|] == " - "
      && s[|s| - |e.status|..] == e.status
  {
    PatientOf(db, e).name + " for Dr. " + DoctorOf(db, e).name + " - " + e.status
  }

  /**
    A label tells apart two entries of the same patient with the same doctor exactly
    when their statuses differ: the printed form of an entry reflects its status.
   */
  lemma EntryLabelShowsStatus(db: Db, e1: Entry, e2: Entry)
    requires Consistent(db) && e1 in db.entries && e2 in db.entries
    requires e1.patientId == e2.patientId && e1.doctorId == e2.doctorId
    ensures EntryLabel(db, e1) == EntryLabel(db, e2) <==> e1.status == e2.status
  {
  }
}
