# Waiting room: a Dafny model of the queue store and its three entry points

A clinic's doctors each have a live waiting room. Dashboards and patient pages
hold a websocket connection, scoped to one doctor, that adds patients, changes
an entry's status or removes it. After each command, every connection of that
doctor gets a refresh. The conferencing provider calls back over HTTP twice:
- an event sink, which moves a patient's entry to "In Call" or "Left Call";
- a service policy, which admits a call only while the patient's entry is
  "In Progress" and hands back the entry's PINs.

Three pages read the store: the list of doctors, a doctor's dashboard and a
doctor's history.

The model is an in-memory database of three tables: doctors, patients and
waiting-room entries. Each table is kept in its default order. An entry's
arrival time is a creation counter that only increases. The database also
keeps a log of the refreshes sent to each doctor's channel group.

The files, one module each:
- `wrappers.dfy`: `Option`.
- `orm.dfy`: the query semantics the code relies on: `filter`, `get` with its
  `DoesNotExist` and `MultipleObjectsReturned` outcomes, `first` and reversal.
- `models.dfy`: the records, the `Consistent` invariant and the cascade deletes.
  `Consistent` covers unique keys, foreign keys, column widths and arrival order.
- `store.dfy`: class `Database`, whose methods create, save and delete rows.
  `GroupSend` appends to the log of channel-layer sends.
- `consumers.dfy`: class `WaitingRoomConsumer`, plus the waiting-list query and
  the effect of each command, stated as a relation between the database
  before and after.
- `events.dfy`: the event sink and its update-and-notify helper.
- `policy.dfy`: `uuid.UUID` parsing and the service-policy decision.
- `views.dfy`: the three page queries.

Points where the model follows the code rather than the prose description of
the system:
- The waiting list leaves out only "Done" and "Cancelled". "Left Call" entries
  stay on it.
- `add_patient` has no duplicate-join suppression. It reuses a patient of the
  same name, or creates one, and always appends a new "Waiting" entry.
- `update_status` writes any status unconditionally. There is no
  transition check and no test for an equal status.
- The event sink applies "Left Call" whatever the entry's current status. A
  `conference_ended` event therefore puts a "Done" entry back on the waiting
  list (`Events.ConferenceEndReopensFinished`).
- The event sink looks the entry up with `get(patient__uuid=...)`. A patient
  with two entries, say one finished and one waiting, makes that lookup
  raise. The exception is caught and nothing changes
  (`Events.NotifyTouchesOnlyTarget`).
- A policy request with no alias gets `continue`, although the code's own
  comment speaks of rejecting.
- No PINs are generated. An entry's host and guest PINs, like a new
  patient's uuid, are column defaults the code never sets. They come in as
  the `Fresh` parameter of `add_patient`.
- The `uuid` column is taken as text. The policy looks up `str(uuid.UUID(alias))`.
  The event sink looks up the raw alias.

## Model

| member | source | states |
|---|---|---|
| Orm.Filter | waitingroom/consumers.py:84-88 | `filter(...)` and `exclude(...)` keep exactly the rows that satisfy the condition, never more rows than the table holds |
| Orm.Reversed | waitingroom/views.py:39 | `order_by('-arrived_at')` of a query set in arrival order lists the same rows last to first |
| Orm.Get | waitingroom/consumers.py:118 | `get` finds a row exactly when one row matches, reports `DoesNotExist` exactly when none does, and otherwise `MultipleObjectsReturned` |
| Orm.First | pexip_policy/views.py:44-47 | `first()` is none exactly for an empty query, and otherwise the query's first row |
| Models.NewEntry | waitingroom/models.py:18-22 | a new entry has the status given or else "Waiting", and the creation time as its arrival |
| Models.DoctorOf | waitingroom/models.py:19 | every entry of a consistent database references one existing doctor |
| Models.PatientOf | waitingroom/models.py:20 | every entry of a consistent database references one existing patient |
| Models.WithStatusById | waitingroom/consumers.py:119-120 | `save()` of a status replaces the status of the rows with that key and leaves every other row as it was |
| Models.SaveStatusKeepsConsistent | waitingroom/models.py:21 | saving a status within 50 characters keeps keys, references, widths and arrival order intact |
| Models.SaveStatusKeepsArrivals | waitingroom/models.py:22 | saving never moves an arrival time: `arrived_at` is set once |
| Models.DeleteKeepsConsistent | waitingroom/consumers.py:146 | `delete()` removes exactly the rows with that key and keeps the database consistent |
| Models.AppendEntryKeepsConsistent | waitingroom/models.py:18-26 | a new entry with the next key, the current time and existing doctor and patient keeps the database consistent, arrival order included |
| Models.AppendPatientKeepsConsistent | waitingroom/models.py:11-12 | a new patient with the next key and a name within 100 characters keeps the database consistent |
| Models.DeleteDoctorCascades | waitingroom/models.py:19 | deleting a doctor removes exactly that doctor and that doctor's entries, keeps every other doctor, every other entry and all patients, and leaves no dangling reference |
| Models.DeletePatientCascades | waitingroom/models.py:20 | deleting a patient removes exactly that patient and that patient's entries, keeps every other patient, every other entry and all doctors, and leaves no dangling reference |
| Models.EntryLabel | waitingroom/models.py:28-29 | an entry prints as its patient's name, " for Dr. ", its doctor's name, " - " and its status |
| Models.EntryLabelShowsStatus | waitingroom/models.py:28-29 | two entries of the same patient and doctor print the same exactly when their statuses are equal |
| Store.NatToString | waitingroom/consumers.py:10 | an id prints as one or more decimal digits, with two or more exactly from 10 up |
| Store.GroupName | waitingroom/consumers.py:10 | a doctor's group name is "waiting_room_" followed by the id |
| Store.GroupNameInjective | pexip_events/views.py:36 | two doctors share a group exactly when they are the same doctor, so a refresh reaches only its doctor's connections |
| Store.Database.CreatePatient | waitingroom/consumers.py:133 | a patient is stored with the next key exactly when the name fits its column; otherwise nothing changes |
| Store.Database.CreateEntry | waitingroom/consumers.py:134 | the new entry is appended with the next key and the current time, after every earlier arrival; nothing else changes |
| Store.Database.SaveStatus | waitingroom/consumers.py:119-120 | the status is written exactly when it fits its column, and only to the row with that key |
| Store.Database.DeleteEntry | waitingroom/consumers.py:146 | only the row with that key is removed |
| Store.Database.GroupSend | waitingroom/consumers.py:43-49 | one `waiting_list_update` for the group is appended to the sent log |
| Consumers.WaitingList | waitingroom/consumers.py:82-101 | the list holds exactly the doctor's entries whose status is neither "Done" nor "Cancelled", and is empty for an unknown doctor |
| Consumers.WaitingListAscending | waitingroom/consumers.py:88 | the waiting list is in strictly ascending order of arrival |
| Consumers.RowOf | waitingroom/consumers.py:91-97 | a pushed row carries the entry's id, status, arrival and doctor, and the name of the entry's patient |
| Consumers.EntryQueryByKey | waitingroom/consumers.py:118 | `get(id=..., doctor_id=...)` never finds several rows; it finds one exactly when an entry of this doctor has that key |
| Consumers.UpdateStatusTouchesOnlyTarget | waitingroom/consumers.py:115-125 | `update_status` writes the given status to the entry with that key and this doctor, whatever its current status, and leaves every other entry, the other tables and all arrivals unchanged |
| Consumers.GetOrCreateResolves | waitingroom/consumers.py:133 | `get_or_create` of a storable name keeps the database consistent, yields a patient of that name, and creates one exactly when none existed |
| Consumers.NewEntryJoinsWaitingList | waitingroom/consumers.py:134 | a new unfinished entry of an existing doctor joins the end of that doctor's waiting list |
| Consumers.AddPatientAlwaysAppends | waitingroom/consumers.py:128-135 | with an existing doctor and a storable name, `add_patient` appends one new "Waiting" entry for a patient of that name at the end of the waiting list, even for a patient already queued |
| Consumers.AddPatientFailsQuietly | waitingroom/consumers.py:136-139 | an unknown doctor, a missing or overlong name, or several patients sharing the name store nothing |
| Consumers.RemoveDeletesOnlyTarget | waitingroom/consumers.py:142-151 | `remove_patient` deletes exactly the entry with that key and this doctor, if any, and nothing else |
| Consumers.WaitingRoomConsumer.Connect | waitingroom/consumers.py:8-10 | a connection keeps the route's doctor and that doctor's group name |
| Consumers.WaitingRoomConsumer.GetWaitingListData | waitingroom/consumers.py:77-104 | the loop builds one row per waiting-list entry in its order: all of this doctor, none finished, arrivals ascending, and none for an unknown doctor |
| Consumers.WaitingRoomConsumer.UpdateWaitingEntryStatus | waitingroom/consumers.py:115-125 | the database moves as `StatusUpdated` says and nothing is sent |
| Consumers.WaitingRoomConsumer.AddPatientToWaitingRoom | waitingroom/consumers.py:128-139 | the database moves as `PatientAdded` says and nothing is sent |
| Consumers.WaitingRoomConsumer.RemoveWaitingEntry | waitingroom/consumers.py:142-151 | the database moves as `EntryRemoved` says and nothing is sent |
| Consumers.WaitingRoomConsumer.Receive | waitingroom/consumers.py:34-69 | each command runs its handler and then sends exactly one refresh to this doctor's group, even when the handler changed nothing; any other type changes nothing and sends nothing |
| Events.TargetStatus | pexip_events/views.py:84-99 | a guest connecting targets "In Call"; a guest disconnecting, or a conference ending whatever the role, targets "Left Call"; nothing else has a target |
| Events.SinkResponse | pexip_events/views.py:63-109 | 400 exactly for a non-POST or non-JSON request; 500 exactly for a body or `data` that is not an object; 400 "error" for a missing alias; otherwise 200 "success" |
| Events.UpdateEntryStatusAndNotify | pexip_events/views.py:15-54 | the database and the sent log move as `StatusNotified` says |
| Events.PexipEventSinkView | pexip_events/views.py:58-109 | the answer is `SinkResponse`; only a 200 answer to an event with a target runs the helper, and every other request changes nothing and sends nothing |
| Events.NotifyTouchesOnlyTarget | pexip_events/views.py:21-54 | the helper only rewrites the status of the uuid's single entry and keeps the database consistent; it writes exactly when it sends, and then one refresh goes to that entry's doctor's group; no entry or several entries change nothing |
| Events.SavedEntryIsTarget | pexip_events/views.py:24-30 | saving the uuid's single entry with a different status changes that entry and no other |
| Events.SavedEntryStillFound | pexip_events/views.py:24-30 | after the save, the same lookup finds the same entry carrying the new status |
| Events.NotifyIdempotent | pexip_events/views.py:27-49 | delivering the same event twice has the effect of delivering it once: the second run neither writes nor sends |
| Events.ConferenceEndReopensFinished | pexip_events/views.py:96-99 | `conference_ended` for a patient whose single entry is "Done" or "Cancelled" brings that entry back onto the waiting list and refreshes its doctor |
| Policy.ParseUuid | pexip_policy/views.py:28 | `uuid.UUID` accepts the alias exactly when, after `urn:`, `uuid:`, braces and hyphens are removed, 32 hex digits are left; the result is canonical lower-case 8-4-4-4-12 |
| Policy.Canonical | pexip_policy/views.py:28 | `str(UUID)` has 36 characters: hyphens at positions 8, 13, 18 and 23, lower-case hex elsewhere |
| Policy.CanonicalRoundTrip | pexip_policy/views.py:28 | 32 hex digits in any case parse to their canonical form, and a canonical uuid parses to itself |
| Policy.FirstAdmittingIsEarliest | pexip_policy/views.py:44-47 | the first "In Progress" entry of the uuid in the default order arrived no later than any other |
| Policy.AdmittedEntry | pexip_policy/views.py:44-47 | none exactly when no entry of that patient is "In Progress"; otherwise such an entry, the earliest to arrive |
| Policy.RoomName | pexip_policy/views.py:57 | the room is named "Dr. ", the doctor's name, "'s Room (", the patient's name and ")" |
| Policy.ServiceFor | pexip_policy/views.py:56-66 | the service tag is the raw alias, `pin` is the host PIN and `guest_pin` the guest PIN, and the fixed conference settings are set |
| Policy.ServicePolicy | pexip_policy/views.py:15-83 | 400 exactly for a non-GET request; every JSON answer has status "success"; no alias continues with an empty result; an invalid uuid is rejected with a disconnect and cause INVALID_CONFERENCE_ALIAS; a service configuration is returned exactly when an entry of that patient is "In Progress", built from the earliest such entry; otherwise the answer is reject with an empty result |
| Views.NameLeTotal | waitingroom/views.py:13 | any two names are ordered one way or the other |
| Views.NameLeTransitive | waitingroom/views.py:13 | the name order is transitive |
| Views.InsertByNameAdds | waitingroom/views.py:13 | inserting adds exactly the one doctor |
| Views.InsertByNameSorted | waitingroom/views.py:13 | inserting into a list sorted by name keeps it sorted |
| Views.SortByNameSorted | waitingroom/views.py:13 | the sort returns a permutation of the doctors in name order |
| Views.PatientWaitingRoomDoctors | waitingroom/views.py:13 | the patient page lists every doctor exactly once, ordered by name |
| Views.DoctorDashboard | waitingroom/views.py:24 | the dashboard finds the doctor of that key, and is a 404 exactly for an unknown doctor |
| Views.DoctorHistory | waitingroom/views.py:35-39 | 404 for an unknown doctor; otherwise exactly the doctor's "Done" and "Cancelled" entries, newest first |
| Views.HistoryAndWaitingListPartition | waitingroom/views.py:36-38 | every entry of an existing doctor is on exactly one of the history and the waiting list, and the two together hold all of them |

## Left out

- Channel-layer transport is not modelled. That covers `group_add` and `group_discard` in connect and disconnect, delivery of a group send, and the push done by `waiting_list_update` and `send_waiting_list`. A send is only an entry appended to `Database.sent`, and the pushed frame is the row list of `GetWaitingListData`.
- Threading and interleaving are not modelled. Each handler runs as one atomic step on the database, so `sync_to_async`, `database_sync_to_async` and `async_to_sync` play no part.
- JSON is not parsed. Requests and frames arrive already decoded, as `Message`, `EventRequest` and `PolicyRequest`. A frame that fails to decode, or a field of an unexpected JSON type, is not represented. Examples are a numeric alias, or an `entry_id` given as a string that the database would coerce.
- `strftime` formatting of `arrived_at` is left out. The pushed row carries the arrival counter.
- Logging and `print` are left out. They have no effect on state or answers.
- The uuid and the PINs of a new row are column defaults, random or not shown. The caller supplies them as `Fresh`.
- The routing files (`waitingroom/routing.py` and every `urls.py`), `asgi.py`, `admin.py` and template rendering are not part of this model. The doctor id of a connection is taken as a number.
- `Policy.ParseUuid`: Python's `int(text, 16)` also accepts surrounding whitespace, underscores, a sign, a `0x` prefix or Unicode decimal digits other than ASCII (such as fullwidth `０`) among the 32 characters. The model rejects those rare forms.
- `Views.PatientWaitingRoomDoctors`: names are compared by code point, not by the database's collation. The order of two equal names is the database's.
- The exception text in the generic 500 answer of the event sink is not modelled. The answer is `ServerError`.
- Column widths (`max_length`) are assumed to be enforced by the database backend: a write of an overlong value fails, the handler's `except Exception` catches it, and nothing is stored. Django's `save()` does not check `max_length` itself and the database settings are not part of this model; PostgreSQL rejects such a write, while SQLite stores the overlong value. The members that rest on this assumption are `Store.Database.CreatePatient`, `Store.Database.SaveStatus`, `Consumers.StatusUpdated`, `Consumers.PatientAdded`, `Consumers.AddPatientFailsQuietly` (an overlong name stores nothing) and the width part of `Models.Consistent`. On SQLite these writes would succeed and store the value.
- Store failures other than a violated column width or NOT NULL constraint are not modelled. Examples are a lost connection or a failing group send.
- `Doctor.__str__` and `Patient.__str__` return the name field. The model uses `name` directly.
- `remote_display_name` is read by the policy view but never used, so it does not influence the model.
- Features described for the system but absent from this code are not modelled, because there is nothing to state about them: PIN generation, whiteboard, chat, drawing, `leave_queue`, history purge, and marking an entry "Left Call" on disconnect.
