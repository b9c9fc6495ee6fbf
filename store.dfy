/**
  The shared database the consumer and the two conferencing views act on, and the
  record of what was sent through the channel layer. The table operations are the
  mapper's `objects.create`, `save()` and `delete()`; `GroupSend` stands for
  `channel_layer.group_send`, kept only as an appended record of which group got a
  "waiting_list_update".
 */
module Store {
  import opened Wrappers
  import opened Models

  /** A `waiting_list_update` message sent to one channel-layer group. */
  datatype Signal = WaitingListUpdate(group: string)

  /** The decimal digits of `n`, as an f-string prints an integer. */
  function NatToString(n: nat): (s: string)
    ensures |s| >= 1
    ensures forall i :: 0 <= i < |s| ==> '0' <= s[i] <= '9'
    ensures n >= 10 <==> |s| >= 2
  {
    if n < 10 then [Digit(n)] else NatToString(n / 10) + [Digit(n % 10)]
  }

  function Digit(d: nat): (c: char)
    requires d < 10
    ensures '0' <= c <= '9'
  {
    "0123456789"[d]
  }

  /** Different numbers print differently. */
  lemma {:induction false} NatToStringInjective(m: nat, n: nat)
    requires NatToString(m) == NatToString(n)
    ensures m == n
  {
    var s := NatToString(m);
    if m >= 10 && n >= 10 {
      var a, b := NatToString(m / 10), NatToString(n / 10);
      assert a == s[..|s| - 1] && b == s[..|s| - 1];
      NatToStringInjective(m / 10, n / 10);
      assert Digit(m % 10) == s[|s| - 1] == Digit(n % 10);
    }
  }

  /** `f'waiting_room_{doctor_id}'`: the channel-layer group of one doctor's dashboards. */
  function GroupName(doctorId: nat): (g: string)
    ensures |g| > 13 && g[..13] == "waiting_room_"
  {
    "waiting_room_" + NatToString(doctorId)
  }

  /** Distinct doctors have distinct groups, so a refresh reaches only the dashboards of its doctor. */
  lemma GroupNameInjective(m: nat, n: nat)
    ensures GroupName(m) == GroupName(n) <==> m == n
  {
    if GroupName(m) == GroupName(n) {
      assert NatToString(m) == GroupName(m)[13..] == GroupName(n)[13..] == NatToString(n);
      NatToStringInjective(m, n);
    }
  }

  class Database {
    var doctors: seq<Doctor>
    var patients: seq<Patient>
    var entries: seq<Entry>
    var nextPatientId: nat
    var nextEntryId: nat
    var clock: nat
    /** Every `group_send` so far, oldest first. */
    var sent: seq<Signal>

    /** The tables as a value. */
    function Tables(): Db
      reads this
    {
      Db(doctors, patients, entries, nextPatientId, nextEntryId, clock)
    }

    ghost predicate Valid()
      reads this
    {
      Consistent(Tables())
    }

    /** A database whose doctors were created administratively and which holds no patient or entry yet. */
    constructor (doctors: seq<Doctor>)
      requires Consistent(Db(doctors, [], [], 0, 0, 0))
      ensures Valid()
      ensures Tables() == Db(doctors, [], [], 0, 0, 0) && sent == []
    {
      this.doctors := doctors;
      patients, entries := [], [];
      nextPatientId, nextEntryId, clock := 0, 0, 0;
      sent := [];
    }

    /**
      `Patient.objects.create(name=..., uuid=...)`: a name longer than its column is
      refused by the database and nothing is stored.
     */
    method CreatePatient(name: string, uuid: string) returns (p: Option<Patient>)
      requires Valid()
      modifies this
      ensures Valid()
      ensures p.Some? <==> |name| <= MAX_NAME_LENGTH
      ensures p.Some? ==> p.value == Patient(old(nextPatientId), name, uuid)
      ensures p.Some? ==> patients == old(patients) + [p.value] && nextPatientId == old(nextPatientId) + 1
      ensures p.None? ==> patients == old(patients) && nextPatientId == old(nextPatientId)
      ensures doctors == old(doctors) && entries == old(entries)
      ensures nextEntryId == old(nextEntryId) && clock == old(clock) && sent == old(sent)
    {
      if |name| > MAX_NAME_LENGTH {
        return None;
      }
      var created := Patient(nextPatientId, name, uuid);
      AppendPatientKeepsConsistent(Tables(), created);
      patients := patients + [created];
      nextPatientId := nextPatientId + 1;
      p := Some(created);
    }

    /**
      `WaitingRoomEntry.objects.create(doctor=..., patient=..., status=...)`: a new key,
      the status given or else the default, and the current time as `arrived_at`.
     */
    method CreateEntry(doctorId: nat, patientId: nat, status: Option<string>,
                       hostPin: string, guestPin: string) returns (e: Entry)
      requires Valid()
      requires HasDoctor(doctors, doctorId) && HasPatient(patients, patientId)
      requires status.Some? ==> |status.value| <= MAX_STATUS_LENGTH
      modifies this
      ensures Valid()
      ensures e == NewEntry(old(nextEntryId), doctorId, patientId, status, old(clock), hostPin, guestPin)
      ensures forall x :: x in old(entries) ==> x.arrivedAt < e.arrivedAt
      ensures entries == old(entries) + [e]
      ensures nextEntryId == old(nextEntryId) + 1 && clock == old(clock) + 1
      ensures doctors == old(doctors) && patients == old(patients)
      ensures nextPatientId == old(nextPatientId) && sent == old(sent)
    {
      e := NewEntry(nextEntryId, doctorId, patientId, status, clock, hostPin, guestPin);
      AppendEntryKeepsConsistent(Tables(), e);
      entries := entries + [e];
      nextEntryId := nextEntryId + 1;
      clock := clock + 1;
    }

    /**
      `entry.status = status; entry.save()` for the row with key `id`: a status longer
      than its column is refused and nothing changes.
     */
    method SaveStatus(id: nat, status: string) returns (ok: bool)
      requires Valid()
      modifies this
      ensures Valid()
      ensures ok <==> |status| <= MAX_STATUS_LENGTH
      ensures entries == if ok then WithStatusById(old(entries), id, status) else old(entries)
      ensures doctors == old(doctors) && patients == old(patients)
      ensures nextPatientId == old(nextPatientId) && nextEntryId == old(nextEntryId)
      ensures clock == old(clock) && sent == old(sent)
    {
      ok := |status| <= MAX_STATUS_LENGTH;
      if ok {
        SaveStatusKeepsConsistent(Tables(), id, status);
        entries := WithStatusById(entries, id, status);
      }
    }

    /** `entry.delete()` for the row with key `id`. */
    method DeleteEntry(id: nat)
      requires Valid()
      modifies this
      ensures Valid()
      ensures entries == WithoutEntry(old(entries), id)
      ensures doctors == old(doctors) && patients == old(patients)
      ensures nextPatientId == old(nextPatientId) && nextEntryId == old(nextEntryId)
      ensures clock == old(clock) && sent == old(sent)
    {
      DeleteKeepsConsistent(Tables(), id);
      entries := WithoutEntry(entries, id);
    }

    /** `group_send(group, {'type': 'waiting_list_update', ...})`. */
    method GroupSend(group: string)
      modifies this`sent
      ensures sent == old(sent) + [WaitingListUpdate(group)]
    {
      sent := sent + [WaitingListUpdate(group)];
    }
  }
}
