/**
 * Team assignments read from tracker enrollments
 * (src/services/assessment/teamAssignment.service.js): the status mapping, the date
 * pick and the per-enrollment record. The network call that fetches the enrollments
 * and the clock read behind `new Date()` are left to the caller: enrollments and `now`
 * are parameters.
 */
module TeamAssignment {
  import opened Wrappers
  import opened Strings

  const StatusPrefix := "FAC_ASS_ASSIGN_"
  const Pending := "FAC_ASS_ASSIGN_PENDING"
  const Accepted := "FAC_ASS_ASSIGN_ACCEPTED"
  const Cancelled := "FAC_ASS_ASSIGN_CANCELLED"

  /** The data element that stores a status code: not configured (`null`). */
  const StatusDataElementUid: Option<string> := None

  /** A data value of an event; `value` is "" when absent. */
  datatype DataValue = DataValue(dataElement: string, value: string)

  /** An event; a missing `eventDate` is "" and a missing `dataValues` is the empty sequence. */
  datatype Event = Event(eventDate: string, dataValues: seq<DataValue>)

  /**
   * An org-unit value: absent, a string (an id), or an object `{ id }` whose `id` is ""
   * when missing. `item.orgUnit` takes any of the three forms.
   */
  datatype OrgUnitRef = NoOrgUnit | OrgUnitId(id: string) | OrgUnitObject(objectId: string)

  datatype Attribute = Attribute(attribute: string, value: string)

  /** An enrollment as the API returns it; missing strings are "". */
  datatype Enrollment = Enrollment(
    enrollment: string, trackedEntityInstance: string, status: string,
    events: Option<seq<Event>>, enrollmentDate: string, incidentDate: string,
    orgUnitName: string, orgUnitId: string, orgUnit: OrgUnitRef, facilityId: string,
    parentOrgUnitName: string, attributes: Option<seq<Attribute>>)

  /** `{ eventId, scheduleTeiId, statusCode, sortDate, orgUnitName, orgUnit, ... }`. */
  datatype Assignment = Assignment(
    eventId: string, scheduleTeiId: string, statusCode: string, sortDate: string,
    orgUnitName: string, orgUnit: OrgUnitRef, facilityId: string, parentOrgUnitName: string,
    enrollmentDate: string, attributes: seq<Attribute>)

  // ---------------------------------------------------------------- mapStatus

  /** A stored code is trusted when it carries the assignment prefix. */
  predicate TrustedCode(stored: Option<string>) {
    stored.Some? && StatusPrefix <= stored.value
  }

  /** mapStatus: a trusted stored code wins; otherwise the enrollment status decides. */
  function MapStatus(enrollmentStatus: string, stored: Option<string>): (r: string)
    ensures StatusPrefix <= r
    ensures TrustedCode(stored) ==> r == stored.value
    ensures !TrustedCode(stored) ==> (r == Accepted <==> enrollmentStatus == "COMPLETED")
    ensures !TrustedCode(stored) ==> (r == Cancelled <==> enrollmentStatus == "CANCELLED")
    ensures !TrustedCode(stored) ==>
              (r == Pending <==> enrollmentStatus != "COMPLETED" && enrollmentStatus != "CANCELLED")
  {
    if TrustedCode(stored) then stored.value
    else if enrollmentStatus == "ACTIVE" then Pending
    else if enrollmentStatus == "COMPLETED" then Accepted
    else if enrollmentStatus == "CANCELLED" then Cancelled
    else Pending
  }

  // ---------------------------------------------------------------- stored status code

  predicate HasValueFor(e: Event, uid: string) {
    exists j :: 0 <= j < |e.dataValues| && e.dataValues[j].dataElement == uid
  }

  /** `dataValues.find(d => d.dataElement === uid)`. */
  function FindValue(dvs: seq<DataValue>, uid: string): (r: Option<DataValue>)
    ensures r.Some? <==> exists j :: 0 <= j < |dvs| && dvs[j].dataElement == uid
    ensures r.Some? ==> r.value.dataElement == uid && r.value in dvs
  {
    if dvs == [] then None
    else if dvs[0].dataElement == uid then Some(dvs[0])
    else
      var rest := FindValue(dvs[1..], uid);
      assert forall j :: 1 <= j < |dvs| ==> dvs[j] == dvs[1..][j - 1];
      rest
  }

  /** The value found in the first event that has one for `uid`. */
  function FirstStored(events: seq<Event>, uid: string): (r: Option<string>)
    ensures r.None? <==> forall i :: 0 <= i < |events| ==> !HasValueFor(events[i], uid)
  {
    if events == [] then None
    else
      match FindValue(events[0].dataValues, uid)
      case Some(dv) => Some(dv.value)
      case None =>
        var rest := FirstStored(events[1..], uid);
        assert forall i :: 1 <= i < |events| ==> events[i] == events[1..][i - 1];
        rest
  }

  /**
   * The stored-status scan: with a configured element and events, the value of the first
   * event holding one; otherwise nothing.
   */
  method StoredStatusCode(uid: Option<string>, events: Option<seq<Event>>) returns (code: Option<string>)
    ensures uid.None? || events.None? ==> code.None?
    ensures uid.Some? && events.Some? ==> code == FirstStored(events.value, uid.value)
  {
    code := None;
    if uid.None? || events.None? {
      return;
    }
    var es := events.value;
    for i := 0 to |es|
      invariant FirstStored(es, uid.value) == FirstStored(es[i..], uid.value)
    {
      assert es[i..][1..] == es[i + 1..];
      var dv := FindValue(es[i].dataValues, uid.value);
      if dv.Some? {
        code := Some(dv.value.value);
        return;
      }
    }
    assert es[|es|..] == [];
  }

  // ---------------------------------------------------------------- extractDate

  /** `s.slice(0, 10)`. */
  function Take10(s: string): (r: string)
    ensures r <= s && |r| == if |s| < 10 then |s| else 10
  {
    if |s| <= 10 then s else s[..10]
  }

  predicate Dated(e: Event) {
    e.eventDate != ""
  }

  /**
   * The position a stable sort by date puts first among the dated events: the first
   * event whose date is least.
   */
  function Earliest(es: seq<Event>): (r: Option<nat>)
    ensures r.None? <==> forall k :: 0 <= k < |es| ==> !Dated(es[k])
    ensures r.Some? ==> r.value < |es| && Dated(es[r.value])
    ensures r.Some? ==> forall k :: 0 <= k < |es| && Dated(es[k]) ==> LexLessEq(es[r.value].eventDate, es[k].eventDate)
    ensures r.Some? ==> forall k :: 0 <= k < r.value && Dated(es[k]) ==> LexLess(es[r.value].eventDate, es[k].eventDate)
  {
    if es == [] then None
    else
      var init := es[..|es| - 1];
      var last := es[|es| - 1];
      var e := Earliest(init);
      assert forall k :: 0 <= k < |init| ==> es[k] == init[k];
      if !Dated(last) then e
      else if e.None? then Some(|es| - 1)
      else if LexLess(last.eventDate, es[e.value].eventDate) then
        EarliestMoves(es, e.value);
        Some(|es| - 1)
      else
        LexLessTotal(last.eventDate, es[e.value].eventDate);
        e
  }

  /** A new least date is below every earlier dated event. */
  lemma EarliestMoves(es: seq<Event>, i: nat)
    requires 0 < |es| && i < |es| - 1 && Dated(es[i])
    requires forall k :: 0 <= k < |es| - 1 && Dated(es[k]) ==> LexLessEq(es[i].eventDate, es[k].eventDate)
    requires LexLess(es[|es| - 1].eventDate, es[i].eventDate)
    ensures forall k :: 0 <= k < |es| - 1 && Dated(es[k]) ==> LexLess(es[|es| - 1].eventDate, es[k].eventDate)
  {
    forall k | 0 <= k < |es| - 1 && Dated(es[k])
      ensures LexLess(es[|es| - 1].eventDate, es[k].eventDate)
    {
      if es[i].eventDate != es[k].eventDate {
        LexLessTransitive(es[|es| - 1].eventDate, es[i].eventDate, es[k].eventDate);
      }
    }
  }

  /** The enrollment date, else the incident date, else the clock reading `now`. */
  function FallbackDate(item: Enrollment, now: string): string {
    if item.enrollmentDate != "" then item.enrollmentDate
    else if item.incidentDate != "" then item.incidentDate
    else now
  }

  predicate AllDated(es: seq<Event>) {
    forall k :: 0 <= k < |es| ==> Dated(es[k])
  }

  predicate AtMostOneDated(es: seq<Event>) {
    forall i, j :: 0 <= i < |es| && 0 <= j < |es| && Dated(es[i]) && Dated(es[j]) ==> i == j
  }

  /**
   * The position of `sorted[0]` after the sort by date. The comparator yields NaN, which
   * the sort reads as "equal", for every pair involving an undated event. With every
   * event dated the stable sort puts first the first event of least date; with at most
   * one dated event every comparison is "equal" and the first event stays first. In the
   * remaining case the comparator is inconsistent and the order is implementation-defined;
   * the earliest dated event is taken there.
   */
  function FirstAfterSort(es: seq<Event>): (i: nat)
    requires es != []
    ensures i < |es|
    ensures AllDated(es) ==>
              && (forall k :: 0 <= k < |es| ==> LexLessEq(es[i].eventDate, es[k].eventDate))
              && (forall k :: 0 <= k < i ==> LexLess(es[i].eventDate, es[k].eventDate))
    ensures AtMostOneDated(es) && !AllDated(es) ==> i == 0
  {
    if AtMostOneDated(es) && !AllDated(es) then 0
    else
      match Earliest(es)
      case Some(i) => i
      case None => 0
  }

  /**
   * extractDate: the first ten characters of the date of the event the sort puts first
   * when that event is dated, else of the fallback date.
   */
  function ExtractDate(item: Enrollment, now: string): (r: string)
    ensures item.events.Some? && item.events.value != [] && AllDated(item.events.value) ==>
              var es := item.events.value;
              exists i :: 0 <= i < |es| && r == Take10(es[i].eventDate)
                          && (forall k :: 0 <= k < |es| ==> LexLessEq(es[i].eventDate, es[k].eventDate))
                          && (forall k :: 0 <= k < i ==> LexLess(es[i].eventDate, es[k].eventDate))
    ensures item.events.Some? && item.events.value != [] && AtMostOneDated(item.events.value) ==>
              var first := item.events.value[0];
              r == if Dated(first) then Take10(first.eventDate) else Take10(FallbackDate(item, now))
    ensures item.events.None? || item.events.value == [] ==> r == Take10(FallbackDate(item, now))
    ensures |r| <= 10
  {
    if item.events.Some? && item.events.value != [] && Dated(item.events.value[FirstAfterSort(item.events.value)]) then
      Take10(item.events.value[FirstAfterSort(item.events.value)].eventDate)
    else
      Take10(FallbackDate(item, now))
  }

  // ---------------------------------------------------------------- per-enrollment record

  /** `item.orgUnitId || item.orgUnit?.id || item.orgUnit`. */
  function OrgUnitOf(item: Enrollment): (r: OrgUnitRef)
    ensures item.orgUnitId != "" ==> r == OrgUnitId(item.orgUnitId)
    ensures item.orgUnitId == "" && item.orgUnit.OrgUnitObject? && item.orgUnit.objectId != "" ==>
              r == OrgUnitId(item.orgUnit.objectId)
    ensures item.orgUnitId == "" && !(item.orgUnit.OrgUnitObject? && item.orgUnit.objectId != "") ==>
              r == item.orgUnit
    ensures r.OrgUnitObject? ==> r.objectId == ""
  {
    if item.orgUnitId != "" then OrgUnitId(item.orgUnitId)
    else if item.orgUnit.OrgUnitObject? && item.orgUnit.objectId != "" then OrgUnitId(item.orgUnit.objectId)
    else item.orgUnit
  }

  /** `a` is the record built for `item`, field by field. */
  predicate RecordOf(item: Enrollment, now: string, a: Assignment) {
    && a.eventId == (if item.enrollment != "" then item.enrollment else item.trackedEntityInstance)
    && a.scheduleTeiId == item.trackedEntityInstance
    && a.statusCode == MapStatus(item.status, None)
    && a.sortDate == ExtractDate(item, now)
    && a.orgUnitName == item.orgUnitName
    && a.orgUnit == OrgUnitOf(item)
    && a.facilityId == item.facilityId
    && a.parentOrgUnitName == item.parentOrgUnitName
    && a.enrollmentDate == item.enrollmentDate
    && a.attributes == item.attributes.GetOr([])
  }

  /** The record built for one enrollment (the body of the `enrollments.map` callback). */
  method ToAssignment(item: Enrollment, now: string) returns (a: Assignment)
    ensures RecordOf(item, now, a)
    ensures StatusPrefix <= a.statusCode
  {
    var storedStatusCode := StoredStatusCode(StatusDataElementUid, item.events);
    var eventId := if item.enrollment != "" then item.enrollment else item.trackedEntityInstance;
    a := Assignment(eventId, item.trackedEntityInstance, MapStatus(item.status, storedStatusCode),
                    ExtractDate(item, now), item.orgUnitName, OrgUnitOf(item), item.facilityId,
                    item.parentOrgUnitName, item.enrollmentDate, item.attributes.GetOr([]));
  }

  /** getUserAssignmentsDomain after the fetch: one record per enrollment, in order. */
  method GetUserAssignmentsDomain(enrollments: seq<Enrollment>, now: string) returns (out: seq<Assignment>)
    ensures |out| == |enrollments|
    ensures forall k :: 0 <= k < |out| ==> RecordOf(enrollments[k], now, out[k])
  {
    out := [];
    for k := 0 to |enrollments|
      invariant |out| == k
      invariant forall t :: 0 <= t < k ==> RecordOf(enrollments[t], now, out[t])
    {
      var a := ToAssignment(enrollments[k], now);
      out := out + [a];
    }
  }
}
