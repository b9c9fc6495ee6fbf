/**
  The conferencing provider's external policy: asked for the service configuration of
  a conference alias, which is a patient's uuid, it admits the call only while that
  patient has an entry "In Progress", handing back the entry's PINs.
 */
module Policy {
  import opened Wrappers
  import opened Models
  import Orm

  const INVALID_CONFERENCE_ALIAS := "INVALID_CONFERENCE_ALIAS"
  const CONTINUE := "continue"
  const REJECT := "reject"
  const SUCCESS := "success"

  // ----- uuid.UUID(text) and str() of the result -----

  /** `text.replace(pat, '')`: every occurrence of `pat`, scanning from the left without overlap, removed. */
  function RemoveAll(s: string, pat: string): (r: string)
    requires |pat| > 0
    ensures |r| <= |s|
    decreases |s|
  {
    if |s| < |pat| then s
    else if s[..|pat|] == pat then RemoveAll(s[|pat|..], pat)
    else [s[0]] + RemoveAll(s[1..], pat)
  }

  predicate IsBrace(c: char) {
    c == '{' || c == '}'
  }

  /** `text.strip('{}')`: braces removed from both ends. */
  function StripBraces(s: string): (r: string)
    ensures |r| <= |s|
    ensures |r| > 0 ==> !IsBrace(r[0]) && !IsBrace(r[|r| - 1])
    decreases |s|
  {
    if |s| > 0 && IsBrace(s[0]) then StripBraces(s[1..])
    else if |s| > 0 && IsBrace(s[|s| - 1]) then StripBraces(s[..|s| - 1])
    else s
  }

  predicate IsHexDigit(c: char) {
    ('0' <= c <= '9') || ('a' <= c <= 'f') || ('A' <= c <= 'F')
  }

  predicate IsLowerHexDigit(c: char) {
    ('0' <= c <= '9') || ('a' <= c <= 'f')
  }

  function LowerDigit(c: char): (d: char)
    requires IsHexDigit(c)
    ensures IsLowerHexDigit(d)
    ensures IsLowerHexDigit(c) ==> d == c
    ensures 'A' <= c <= 'F' ==> d as int == c as int + 32
  {
    if 'A' <= c <= 'F' then (c as int + 32) as char else c
  }

  /** The hex digits in lower case, digit by digit. */
  function LowerHex(h: string): (r: string)
    requires forall i :: 0 <= i < |h| ==> IsHexDigit(h[i])
    ensures |r| == |h| && forall i :: 0 <= i < |h| ==> r[i] == LowerDigit(h[i])
  {
    if h == [] then [] else [LowerDigit(h[0])] + LowerHex(h[1..])
  }

  /** The 36-character form `str(UUID)` prints: lower-case hex in groups 8-4-4-4-12. */
  predicate IsCanonicalUuid(s: string) {
    && |s| == 36
    && (forall i :: 0 <= i < 36 ==> if i in {8, 13, 18, 23} then s[i] == '-' else IsLowerHexDigit(s[i]))
  }

  /** `str(uuid.UUID(hex=h))` for 32 hex digits `h`. */
  function Canonical(h: string): (r: string)
    requires |h| == 32 && forall i :: 0 <= i < |h| ==> IsHexDigit(h[i])
    ensures IsCanonicalUuid(r)
  {
    Grouped(LowerHex(h))
  }

  /** 32 characters in groups of 8-4-4-4-12, separated by hyphens. */
  function Grouped(l: string): (r: string)
    requires |l| == 32
    ensures |r| == 36
  {
    l[0..8] + "-" + l[8..12] + "-" + l[12..16] + "-" + l[16..20] + "-" + l[20..32]
  }

  /** `text.replace('-', '')`. */
  function WithoutHyphens(s: string): string {
    Orm.Filter(s, (c: char) => c != '-')
  }

  /** What `uuid.UUID` keeps of its argument before it checks for 32 hex digits. */
  function UuidDigits(s: string): string {
    WithoutHyphens(StripBraces(RemoveAll(RemoveAll(s, "urn:"), "uuid:")))
  }

  /**
    `str(uuid.UUID(s))`, or none where the constructor raises `ValueError`. A result is
    always in canonical form.
   */
  function ParseUuid(s: string): (r: Option<string>)
    ensures r.Some? ==> IsCanonicalUuid(r.value)
    ensures r.Some? <==> |UuidDigits(s)| == 32 && forall i :: 0 <= i < 32 ==> IsHexDigit(UuidDigits(s)[i])
  {
    var h := UuidDigits(s);
    if |h| == 32 && forall i :: 0 <= i < 32 ==> IsHexDigit(h[i]) then Some(Canonical(h)) else None
  }

  lemma RemoveAllKeeps(s: string, pat: string)
    requires |pat| > 0 && forall i :: 0 <= i < |s| ==> s[i] != pat[0]
    ensures RemoveAll(s, pat) == s
    decreases |s|
  {
    if |s| >= |pat| {
      assert s[..|pat|][0] == s[0];
      RemoveAllKeeps(s[1..], pat);
    }
  }

  lemma LowerHexIdempotent(h: string)
    requires forall i :: 0 <= i < |h| ==> IsHexDigit(h[i])
    ensures LowerHex(LowerHex(h)) == LowerHex(h)
  {
  }

  lemma HyphenDropped(x: string, y: string)
    ensures WithoutHyphens(x + "-" + y) == WithoutHyphens(x) + WithoutHyphens(y)
  {
    Orm.FilterConcat(x + "-", y, (c: char) => c != '-');
    Orm.FilterConcat(x, "-", (c: char) => c != '-');
  }

  lemma NoHyphenKept(x: string)
    requires forall i :: 0 <= i < |x| ==> x[i] != '-'
    ensures WithoutHyphens(x) == x
  {
    Orm.FilterKeepsAll(x, (c: char) => c != '-');
  }

  lemma NoHyphenSliceKept(x: string, i: int, j: int)
    requires forall k :: 0 <= k < |x| ==> x[k] != '-'
    requires 0 <= i <= j <= |x|
    ensures WithoutHyphens(x[i..j]) == x[i..j]
  {
    NoHyphenKept(x[i..j]);
  }

  /** Text made of hex digits and hyphens has nothing for the prefix and brace stages to remove. */
  lemma PlainTextKept(x: string)
    requires forall i :: 0 <= i < |x| ==> IsHexDigit(x[i]) || x[i] == '-'
    ensures UuidDigits(x) == WithoutHyphens(x)
  {
    RemoveAllKeeps(x, "urn:");
    RemoveAllKeeps(x, "uuid:");
  }

  /** The canonical form is hex digits and hyphens only. */
  lemma CanonicalIsPlain(c: string)
    requires IsCanonicalUuid(c)
    ensures forall i :: 0 <= i < |c| ==> IsHexDigit(c[i]) || c[i] == '-'
  {
    forall i | 0 <= i < |c| ensures IsHexDigit(c[i]) || c[i] == '-' {
      if i in {8, 13, 18, 23} {
      }
    }
  }

  lemma SliceSplit(x: string, i: int, j: int, k: int)
    requires 0 <= i <= j <= k <= |x|
    ensures x[i..k] == x[i..j] + x[j..k]
  {
  }

  /** One hyphen-joined step: a hyphen-free head followed by a hyphen and a tail. */
  lemma JoinStep(x: string, y: string, ry: string)
    requires (forall i :: 0 <= i < |x| ==> x[i] != '-') && WithoutHyphens(y) == ry
    ensures WithoutHyphens(x + "-" + y) == x + ry
  {
    HyphenDropped(x, y);
    NoHyphenKept(x);
  }

  /** Removing the four hyphens of the 8-4-4-4-12 grouping of 32 hyphen-free characters gives them back. */
  lemma GroupsJoin(l: string)
    requires |l| == 32 && forall i :: 0 <= i < |l| ==> l[i] != '-'
    ensures WithoutHyphens(Grouped(l)) == l
  {
    var g1, g2, g3, g4, g5 := l[0..8], l[8..12], l[12..16], l[16..20], l[20..32];
    NoHyphenSliceKept(l, 20, 32);
    JoinStep(g4, g5, g5);
    JoinStep(g3, g4 + "-" + g5, g4 + g5);
    JoinStep(g2, g3 + "-" + (g4 + "-" + g5), g3 + (g4 + g5));
    JoinStep(g1, g2 + "-" + (g3 + "-" + (g4 + "-" + g5)), g2 + (g3 + (g4 + g5)));
    assert Grouped(l) == g1 + "-" + (g2 + "-" + (g3 + "-" + (g4 + "-" + g5)));
    SliceSplit(l, 16, 20, 32);
    SliceSplit(l, 12, 16, 32);
    SliceSplit(l, 8, 12, 32);
    SliceSplit(l, 0, 8, 32);
    assert l[0..32] == l;
  }

  /** The canonical form drops back to its lower-case digits. */
  lemma CanonicalDigits(h: string)
    requires |h| == 32 && forall i :: 0 <= i < |h| ==> IsHexDigit(h[i])
    ensures UuidDigits(Canonical(h)) == LowerHex(h)
  {
    CanonicalIsPlain(Canonical(h));
    PlainTextKept(Canonical(h));
    GroupsJoin(LowerHex(h));
  }

  /**
    Any 32 hex digits parse to their canonical form whatever their case, and a
    canonical uuid parses to itself: the text the policy looks up is the one
    `str(UUID)` prints.
   */
  lemma CanonicalRoundTrip(h: string)
    requires |h| == 32 && forall i :: 0 <= i < |h| ==> IsHexDigit(h[i])
    ensures ParseUuid(h) == Some(Canonical(h))
    ensures ParseUuid(Canonical(h)) == Some(Canonical(h))
  {
    PlainTextKept(h);
    NoHyphenKept(h);
    CanonicalDigits(h);
    LowerHexIdempotent(h);
  }

  // ----- pexip_service_policy_view -----

  /** The query parameters the view reads, with the request's method. */
  datatype PolicyRequest = PolicyRequest(verb: string, localAlias: Option<string>, remoteDisplayName: Option<string>)

  /** The `result` member of a policy answer. */
  datatype PolicyResult =
    | NoResult
    | Rejection(disconnect: bool, disconnectCause: string, message: string)
    | Service(
        name: string,
        serviceTag: string,
        serviceType: string,
        allowGuests: bool,
        directMedia: string,
        enableOverlayText: bool,
        pin: string,
        guestPin: string,
        disconnectOnHostDisconnect: bool)

  /** `HttpResponseBadRequest(text)`, or a JSON body `{status, action, result}` with code 200. */
  datatype PolicyResponse =
    | BadRequest(text: string)
    | Reply(status: string, action: string, result: PolicyResult)

  /** Whether an entry admits a call for the canonical uuid: its patient carries it and it is "In Progress". */
  predicate Admits(db: Db, uuid: string, e: Entry) {
    PatientHasUuid(db.patients, e.patientId, uuid) && e.status == IN_PROGRESS
  }

  /** `WaitingRoomEntry.objects.filter(patient__uuid=..., status='In Progress')`, in arrival order. */
  function AdmittingEntries(db: Db, uuid: string): seq<Entry> {
    Orm.Filter(db.entries, (e: Entry) => Admits(db, uuid, e))
  }

  /** The first admitting entry in the default order arrived no later than any other. */
  lemma {:induction false} FirstAdmittingIsEarliest(db: Db, uuid: string)
    requires Consistent(db)
    ensures AdmittingEntries(db, uuid) == [] <==> !exists e :: e in db.entries && Admits(db, uuid, e)
    ensures AdmittingEntries(db, uuid) != [] ==> forall e :: e in db.entries && Admits(db, uuid, e) ==>
      AdmittingEntries(db, uuid)[0].arrivedAt <= e.arrivedAt
  {
    var q := AdmittingEntries(db, uuid);
    Orm.FilterKeepsPairwise(db.entries, (e: Entry) => Admits(db, uuid, e),
      (x: Entry, y: Entry) => x.arrivedAt < y.arrivedAt);
    if q != [] {
      assert q[0] in q;
      forall e | e in q ensures q[0].arrivedAt <= e.arrivedAt {
        var j :| 0 <= j < |q| && q[j] == e;
        if j > 0 { assert q[0].arrivedAt < q[j].arrivedAt; }
      }
    } else {
      Orm.NoMembersMeansEmpty(q);
    }
  }

  /**
    `...filter(patient__uuid=..., status='In Progress').first()`: none when no entry
    admits the call, otherwise the admitting entry that arrived first.
   */
  function AdmittedEntry(db: Db, uuid: string): (r: Option<Entry>)
    requires Consistent(db)
    ensures r.None? <==> !exists e :: e in db.entries && Admits(db, uuid, e)
    ensures r.Some? ==> r.value in db.entries && Admits(db, uuid, r.value)
    ensures r.Some? ==> forall e :: e in db.entries && Admits(db, uuid, e) ==> r.value.arrivedAt <= e.arrivedAt
  {
    FirstAdmittingIsEarliest(db, uuid);
    Orm.First(AdmittingEntries(db, uuid))
  }

  /** `f"Dr. {doctor_name}'s Room ({patient_name})"`. */
  function RoomName(doctorName: string, patientName: string): (s: string)
    ensures |s| == |doctorName| + |patientName| + 14
    ensures s[..4] == "Dr. " && s[4..4 + |doctorName|] == doctorName
    ensures s[4 + |doctorName|..13 + |doctorName|] == "'s Room ("
    ensures s[13 + |doctorName|..|s| - 1] == patientName && s[|s| - 1] == ')'
  {
    "Dr. " + doctorName + "'s Room (" + patientName + ")"
  }

  /**
    The service configuration handed back for an admitting entry: the room is named
    after the entry's doctor and patient, the raw alias is the service tag, the host
    PIN is `pin` and the guest PIN `guest_pin`.
   */
  function ServiceFor(db: Db, alias: string, e: Entry): (r: PolicyResult)
    requires Consistent(db) && e in db.entries
    ensures r.Service? && r.serviceTag == alias && r.pin == e.hostPin && r.guestPin == e.guestPin
    ensures r.name == RoomName(DoctorOf(db, e).name, PatientOf(db, e).name)
    ensures r.serviceType == "conference" && r.allowGuests && r.directMedia == "best_effort"
    ensures r.enableOverlayText && r.disconnectOnHostDisconnect
  {
    Service(RoomName(DoctorOf(db, e).name, PatientOf(db, e).name), alias, "conference", true,
            "best_effort", true, e.hostPin, e.guestPin, true)
  }

  /**
    `pexip_service_policy_view`. The answer is 400 exactly for a method other than GET;
    every JSON answer has status "success". A missing alias continues with an empty
    result; an alias that is no uuid is rejected with a disconnect and cause
    INVALID_CONFERENCE_ALIAS; otherwise the call continues with a service
    configuration exactly when an entry of that patient is "In Progress", and is
    rejected with an empty result when none is.
   */
  function ServicePolicy(db: Db, req: PolicyRequest): (r: PolicyResponse)
    requires Consistent(db)
    ensures r.BadRequest? <==> req.verb != "GET"
    ensures r.Reply? ==> r.status == SUCCESS
    ensures r.Reply? ==> (r.action == CONTINUE || r.action == REJECT)
    ensures req.verb == "GET" && !AliasPresent(req.localAlias) ==> r == Reply(SUCCESS, CONTINUE, NoResult)
    ensures req.verb == "GET" && AliasPresent(req.localAlias) && ParseUuid(req.localAlias.value).None? ==>
      r == Reply(SUCCESS, REJECT, Rejection(true, INVALID_CONFERENCE_ALIAS,
                                            "Invalid patient ID (UUID) provided as conference alias."))
    ensures r.Reply? && r.result.Service? <==>
      && req.verb == "GET" && AliasPresent(req.localAlias) && ParseUuid(req.localAlias.value).Some?
      && exists e :: e in db.entries && Admits(db, ParseUuid(req.localAlias.value).value, e)
    ensures r.Reply? && r.result.Service? ==>
      && r.action == CONTINUE && r.result.serviceTag == req.localAlias.value
      && exists e :: e in db.entries && Admits(db, ParseUuid(req.localAlias.value).value, e)
                     && r.result == ServiceFor(db, req.localAlias.value, e)
                     && forall x :: x in db.entries && Admits(db, ParseUuid(req.localAlias.value).value, x) ==>
                          e.arrivedAt <= x.arrivedAt
    ensures r.Reply? && r.action == CONTINUE ==> r.result.Service? || r.result.NoResult?
    ensures req.verb == "GET" && AliasPresent(req.localAlias) && ParseUuid(req.localAlias.value).Some?
            && !(exists e :: e in db.entries && Admits(db, ParseUuid(req.localAlias.value).value, e)) ==>
      r == Reply(SUCCESS, REJECT, NoResult)
  {
    if req.verb != "GET" then BadRequest("Only GET requests are allowed for Pexip policy.")
    else if !AliasPresent(req.localAlias) then Reply(SUCCESS, CONTINUE, NoResult)
    else match ParseUuid(req.localAlias.value)
      case None =>
        Reply(SUCCESS, REJECT, Rejection(true, INVALID_CONFERENCE_ALIAS,
                                         "Invalid patient ID (UUID) provided as conference alias."))
      case Some(uuid) =>
        match AdmittedEntry(db, uuid)
        case Some(e) => Reply(SUCCESS, CONTINUE, ServiceFor(db, req.localAlias.value, e))
        case None => Reply(SUCCESS, REJECT, NoResult)
  }
}
