/**
  The three pages of the waiting room, as the queries behind them: the patient page
  lists the doctors by name, the dashboard needs an existing doctor, and the history
  lists the doctor's finished entries, newest first. Rendering is not modelled.
 */
module Views {
  import opened Models
  import Orm
  import Consumers

  /** A page found, or the 404 of `get_object_or_404`. */
  datatype Page<T> = Found(value: T) | NotFound

  /** What the history template receives: the doctor and the historical entries. */
  datatype History = History(doctor: Doctor, entries: seq<Entry>)

  // ----- Doctors ordered by name -----

  /** `order_by('name')`: lexicographic order of names, character by character. */
  predicate NameLe(a: string, b: string)
    decreases |a|
  {
    if a == [] then true
    else if b == [] then false
    else if a[0] != b[0] then a[0] < b[0]
    else NameLe(a[1..], b[1..])
  }

  lemma {:induction false} NameLeTotal(a: string, b: string)
    ensures NameLe(a, b) || NameLe(b, a)
    decreases |a|
  {
    if a != [] && b != [] && a[0] == b[0] {
      NameLeTotal(a[1..], b[1..]);
    }
  }

  lemma {:induction false} NameLeTransitive(a: string, b: string, c: string)
    requires NameLe(a, b) && NameLe(b, c)
    ensures NameLe(a, c)
    decreases |a|
  {
    if a != [] && b != [] && c != [] && a[0] == b[0] && b[0] == c[0] {
      NameLeTransitive(a[1..], b[1..], c[1..]);
    }
  }

  predicate SortedByName(s: seq<Doctor>) {
    forall i, j :: 0 <= i < j < |s| ==> NameLe(s[i].name, s[j].name)
  }

  /** `d` put in front of the first doctor whose name does not come before its own. */
  function InsertByName(d: Doctor, s: seq<Doctor>): seq<Doctor> {
    if s == [] then [d]
    else if NameLe(d.name, s[0].name) then [d] + s
    else [s[0]] + InsertByName(d, s[1..])
  }

  function SortByName(s: seq<Doctor>): seq<Doctor> {
    if s == [] then [] else InsertByName(s[0], SortByName(s[1..]))
  }

  /** Inserting adds exactly the one doctor. */
  lemma {:induction false} InsertByNameAdds(d: Doctor, s: seq<Doctor>)
    ensures multiset(InsertByName(d, s)) == multiset(s) + multiset{d}
  {
    if s != [] && !NameLe(d.name, s[0].name) {
      InsertByNameAdds(d, s[1..]);
      assert s == [s[0]] + s[1..];
    }
  }

  lemma SortedTail(s: seq<Doctor>)
    requires SortedByName(s) && s != []
    ensures SortedByName(s[1..])
  {
    var tail := s[1..];
    forall i, j | 0 <= i < j < |tail| ensures NameLe(tail[i].name, tail[j].name) {
      assert tail[i] == s[i + 1] && tail[j] == s[j + 1];
    }
  }

  /** Every element of a sorted sequence comes no earlier than its head. */
  lemma HeadComesFirst(s: seq<Doctor>, x: Doctor)
    requires SortedByName(s) && s != [] && x in s
    ensures NameLe(s[0].name, x.name)
  {
    var k :| 0 <= k < |s| && s[k] == x;
    if k == 0 { NameLeTotal(x.name, x.name); }
  }

  lemma {:induction false} InsertByNameSorted(d: Doctor, s: seq<Doctor>)
    requires SortedByName(s)
    ensures SortedByName(InsertByName(d, s))
  {
    if s == [] {
    } else if NameLe(d.name, s[0].name) {
      var r := [d] + s;
      forall i, j | 0 <= i < j < |r| ensures NameLe(r[i].name, r[j].name) {
        if i == 0 && j > 1 { NameLeTransitive(d.name, s[0].name, s[j - 1].name); }
      }
    } else {
      var tail := s[1..];
      SortedTail(s);
      InsertByNameSorted(d, tail);
      InsertByNameAdds(d, tail);
      var rest := InsertByName(d, tail);
      NameLeTotal(d.name, s[0].name);
      forall x | x in rest ensures NameLe(s[0].name, x.name) {
        assert x in multiset(rest);
        if x != d {
          assert x in multiset(tail);
          HeadComesFirst(s, x);
        }
      }
      var r := [s[0]] + rest;
      forall i, j | 0 <= i < j < |r| ensures NameLe(r[i].name, r[j].name) {
        if i == 0 { assert r[j] in rest; } else { assert r[i] == rest[i - 1] && r[j] == rest[j - 1]; }
      }
    }
  }

  lemma {:induction false} SortByNameSorted(s: seq<Doctor>)
    ensures SortedByName(SortByName(s))
    ensures multiset(SortByName(s)) == multiset(s)
  {
    if s != [] {
      SortByNameSorted(s[1..]);
      InsertByNameSorted(s[0], SortByName(s[1..]));
      InsertByNameAdds(s[0], SortByName(s[1..]));
      assert s == [s[0]] + s[1..];
    }
  }

  /**
    `patient_waiting_room_view`: every doctor exactly once, ordered by name (which of
    two equal names comes first is left to the database).
   */
  function PatientWaitingRoomDoctors(db: Db): (r: seq<Doctor>)
    ensures SortedByName(r)
    ensures multiset(r) == multiset(db.doctors)
  {
    SortByNameSorted(db.doctors);
    SortByName(db.doctors)
  }

  // ----- Dashboard and history -----

  /** `doctor_dashboard_view`: the doctor of that key, or 404. */
  function DoctorDashboard(db: Db, doctorId: int): (r: Page<Doctor>)
    requires Consistent(db)
    ensures r.Found? <==> HasDoctor(db.doctors, doctorId)
    ensures r.Found? ==> r.value in db.doctors && r.value.id == doctorId
  {
    DoctorQueryByKey(db.doctors, doctorId);
    match Orm.Get(DoctorQuery(db.doctors, doctorId))
    case Found(d) => Found(d)
    case _ => NotFound
  }

  /** `filter(doctor=doctor, status__in=['Done', 'Cancelled'])`, in the default order. */
  function HistoryQuery(entries: seq<Entry>, doctorId: nat): seq<Entry> {
    Orm.Filter(entries, (e: Entry) => e.doctorId == doctorId && IsFinished(e.status))
  }

  /**
    `doctor_history_view`: 404 for an unknown doctor, otherwise exactly the doctor's
    entries whose status is "Done" or "Cancelled", newest first.
   */
  function DoctorHistory(db: Db, doctorId: nat): (r: Page<History>)
    requires Consistent(db)
    ensures r.Found? <==> HasDoctor(db.doctors, doctorId)
    ensures r.Found? ==> r.value.doctor in db.doctors && r.value.doctor.id == doctorId
    ensures r.Found? ==> forall e :: e in r.value.entries <==>
      e in db.entries && e.doctorId == doctorId && IsFinished(e.status)
    ensures r.Found? ==> ArrivalDescending(r.value.entries)
  {
    var q := HistoryQuery(db.entries, doctorId);
    Orm.FilterKeepsPairwise(db.entries, (e: Entry) => e.doctorId == doctorId && IsFinished(e.status),
      (a: Entry, b: Entry) => a.arrivedAt < b.arrivedAt);
    Orm.ReversedMembers(q);
    match DoctorDashboard(db, doctorId)
    case Found(d) => Found(History(d, Orm.Reversed(q)))
    case NotFound => NotFound
  }

  /**
    For an existing doctor, the history and the waiting list split the doctor's
    entries: each entry is on exactly one of the two.
   */
  lemma HistoryAndWaitingListPartition(db: Db, doctorId: nat)
    requires Consistent(db) && HasDoctor(db.doctors, doctorId)
    ensures forall e :: e in db.entries && e.doctorId == doctorId ==>
      (e in Consumers.WaitingList(db, doctorId) <==> e !in DoctorHistory(db, doctorId).value.entries)
    ensures forall e ::
      (e in Consumers.WaitingList(db, doctorId) || e in DoctorHistory(db, doctorId).value.entries) <==>
      (e in db.entries && e.doctorId == doctorId)
  {
  }
}
