/**
 * The body of `fetchUserAssessments` in src/hooks/useUserAssessments.js: enrich the
 * user's assignments with their schedules, filter them, split them into upcoming,
 * past and pending, and count them. The assignment and schedule fetches are inputs,
 * and `today` (the date part of the clock reading) is a parameter.
 */
module UserAssessments {
  import opened Wrappers
  import opened Strings
  import opened Seqs
  import TeamAssignment

  type Assignment = TeamAssignment.Assignment

  const Pending := "FAC_ASS_ASSIGN_PENDING"
  const Accepted := "FAC_ASS_ASSIGN_ACCEPTED"
  const Declined := "FAC_ASS_ASSIGN_DECLINED"
  const Cancelled := "FAC_ASS_ASSIGN_CANCELLED"
  const Replaced := "FAC_ASS_ASSIGN_REPLACED"
  const Completed := "FAC_ASS_ASSIGN_COMPLETED"

  /** A schedule record; only its `id` matters here. */
  datatype Schedule = Schedule(id: string, details: string)

  /** The hook options that shape the result (`year` and `autoFetch` only steer fetching). */
  datatype Options = Options(includePast: bool, includeCompleted: bool, includeDeclined: bool)

  const DefaultOptions := Options(true, false, false)

  /** An assignment with its schedule (`None` for the `{}` fallback) and computed flags. */
  datatype Enriched = Enriched(
    assignment: Assignment, schedule: Option<Schedule>,
    requiresResponse: bool, isConfirmed: bool, isDeclined: bool, isCancelled: bool, isReplaced: bool)

  datatype Stats = Stats(total: nat, upcoming: nat, pending: nat, completed: nat, declined: nat)

  datatype Data = Data(
    assignments: seq<Enriched>, schedules: seq<Schedule>, upcoming: seq<Enriched>,
    past: seq<Enriched>, pending: seq<Enriched>, stats: Stats, enriched: seq<Enriched>)

  /** The hook's outcome: the "No user authenticated" error, or the data it stores. */
  datatype Outcome = NoUser | Loaded(data: Data)

  // ---------------------------------------------------------------- schedule ids and map

  /** `[...new Set(assignments.map(a => a.scheduleTeiId))]`. */
  function ScheduleIds(assignments: seq<Assignment>): (ids: seq<string>)
    ensures NoDup(ids)
    ensures forall id :: id in ids <==> exists k :: 0 <= k < |assignments| && assignments[k].scheduleTeiId == id
  {
    var all := seq(|assignments|, k requires 0 <= k < |assignments| => assignments[k].scheduleTeiId);
    assert forall id :: id in all <==> exists k :: 0 <= k < |assignments| && assignments[k].scheduleTeiId == id by {
      forall id | id in all ensures exists k :: 0 <= k < |assignments| && assignments[k].scheduleTeiId == id {
        var k :| 0 <= k < |all| && all[k] == id;
      }
      forall k | 0 <= k < |assignments| ensures assignments[k].scheduleTeiId in all {
        assert all[k] == assignments[k].scheduleTeiId;
      }
    }
    Dedup(all)
  }

  /** The schedule map after assigning the schedules in order. */
  function ScheduleMapOf(schedules: seq<Schedule>): map<string, Schedule> {
    if schedules == [] then map[]
    else
      var last := schedules[|schedules| - 1];
      ScheduleMapOf(schedules[..|schedules| - 1])[last.id := last]
  }

  /** The position of the last schedule with this id. */
  function LastIndex(schedules: seq<Schedule>, id: string): (r: Option<nat>)
    ensures r.None? ==> forall k :: 0 <= k < |schedules| ==> schedules[k].id != id
    ensures r.Some? ==> r.value < |schedules| && schedules[r.value].id == id
    ensures r.Some? ==> forall u :: r.value < u < |schedules| ==> schedules[u].id != id
  {
    if schedules == [] then None
    else if schedules[|schedules| - 1].id == id then Some(|schedules| - 1)
    else
      var r := LastIndex(schedules[..|schedules| - 1], id);
      assert forall k :: 0 <= k < |schedules| - 1 ==> schedules[k] == schedules[..|schedules| - 1][k];
      r
  }

  /** Exactly the schedule ids are keys, and a key maps to the last schedule carrying it. */
  lemma {:induction false} ScheduleMapLastWins(schedules: seq<Schedule>)
    ensures forall id :: id in ScheduleMapOf(schedules) <==> LastIndex(schedules, id).Some?
    ensures forall id :: id in ScheduleMapOf(schedules) ==>
              ScheduleMapOf(schedules)[id] == schedules[LastIndex(schedules, id).value]
  {
    if schedules != [] {
      var init := schedules[..|schedules| - 1];
      ScheduleMapLastWins(init);
      forall id
        ensures id in ScheduleMapOf(schedules) <==> LastIndex(schedules, id).Some?
        ensures id in ScheduleMapOf(schedules) ==>
                  ScheduleMapOf(schedules)[id] == schedules[LastIndex(schedules, id).value]
      {
        if schedules[|schedules| - 1].id != id {
          assert LastIndex(schedules, id) == LastIndex(init, id);
          if LastIndex(init, id).Some? {
            assert init[LastIndex(init, id).value] == schedules[LastIndex(init, id).value];
          }
        }
      }
    }
  }

  /** The `schedules.forEach` that fills `scheduleMap`. */
  method BuildScheduleMap(schedules: seq<Schedule>) returns (scheduleMap: map<string, Schedule>)
    ensures scheduleMap == ScheduleMapOf(schedules)
  {
    scheduleMap := map[];
    for i := 0 to |schedules|
      invariant scheduleMap == ScheduleMapOf(schedules[..i])
    {
      assert schedules[..i + 1][..i] == schedules[..i];
      scheduleMap := scheduleMap[schedules[i].id := schedules[i]];
    }
    assert schedules[..|schedules|] == schedules;
  }

  // ---------------------------------------------------------------- enrichment

  function Enrich(a: Assignment, scheduleMap: map<string, Schedule>): (e: Enriched)
    ensures e.assignment == a
    ensures e.schedule.Some? <==> a.scheduleTeiId in scheduleMap
    ensures e.schedule.Some? ==> e.schedule.value == scheduleMap[a.scheduleTeiId]
    ensures e.requiresResponse <==> a.statusCode == Pending
    ensures e.isConfirmed <==> a.statusCode == Accepted
    ensures e.isDeclined <==> a.statusCode == Declined
    ensures e.isCancelled <==> a.statusCode == Cancelled
    ensures e.isReplaced <==> a.statusCode == Replaced
  {
    Enriched(a,
      if a.scheduleTeiId in scheduleMap then Some(scheduleMap[a.scheduleTeiId]) else None,
      a.statusCode == Pending, a.statusCode == Accepted, a.statusCode == Declined,
      a.statusCode == Cancelled, a.statusCode == Replaced)
  }

  /** The flags name distinct status codes, so at most one of them holds. */
  lemma FlagsExclusive(a: Assignment, scheduleMap: map<string, Schedule>)
    ensures var e := Enrich(a, scheduleMap);
            var flags := [e.requiresResponse, e.isConfirmed, e.isDeclined, e.isCancelled, e.isReplaced];
            forall i, j :: 0 <= i < j < |flags| ==> !(flags[i] && flags[j])
  {
  }

  function EnrichAll(assignments: seq<Assignment>, scheduleMap: map<string, Schedule>): (es: seq<Enriched>)
    ensures |es| == |assignments|
    ensures forall k :: 0 <= k < |es| ==> es[k] == Enrich(assignments[k], scheduleMap)
  {
    seq(|assignments|, k requires 0 <= k < |assignments| => Enrich(assignments[k], scheduleMap))
  }

  // ---------------------------------------------------------------- filters and categories

  /** `sortDate < today`: ISO date strings compare as strings. */
  predicate Before(e: Enriched, today: string) {
    LexLess(e.assignment.sortDate, today)
  }

  /** The status and date filter of the hook. */
  predicate Keep(e: Enriched, opts: Options, today: string) {
    && !(!opts.includeCompleted && e.isConfirmed && Before(e, today))
    && !(!opts.includeDeclined && e.isDeclined)
    && !(!opts.includePast && Before(e, today))
  }

  predicate IsUpcoming(e: Enriched, today: string) {
    !Before(e, today) && (e.assignment.statusCode == Pending || e.assignment.statusCode == Accepted)
  }

  predicate IsPast(e: Enriched, today: string) {
    Before(e, today) || e.assignment.statusCode == Completed
  }

  /** Counted as completed: confirmed and dated before today. */
  predicate CompletedBefore(e: Enriched, today: string) {
    e.isConfirmed && Before(e, today)
  }

  predicate IsDeclinedEntry(e: Enriched) {
    e.isDeclined
  }

  predicate IsPending(e: Enriched) {
    e.assignment.statusCode == Pending
  }

  /** The filtered list: a subsequence of the enriched list holding exactly the kept entries. */
  function Filtered(es: seq<Enriched>, opts: Options, today: string): (r: seq<Enriched>)
    ensures Subseq(r, es)
    ensures forall e :: e in r <==> e in es && Keep(e, opts, today)
  {
    SelectSpec(es, e => Keep(e, opts, today));
    Select(es, e => Keep(e, opts, today))
  }

  /** Without `includeDeclined` no declined assignment survives. */
  lemma DeclinedDropped(es: seq<Enriched>, opts: Options, today: string)
    requires !opts.includeDeclined
    ensures forall e :: e in Filtered(es, opts, today) ==> !e.isDeclined
  {
  }

  /** Without `includePast` every surviving assignment is dated today or later. */
  lemma PastDropped(es: seq<Enriched>, opts: Options, today: string)
    requires !opts.includePast
    ensures forall e :: e in Filtered(es, opts, today) ==> !LexLess(e.assignment.sortDate, today)
  {
  }

  /** Without `includeCompleted` no confirmed assignment dated before today survives. */
  lemma CompletedDropped(es: seq<Enriched>, opts: Options, today: string)
    requires !opts.includeCompleted
    ensures forall e :: e in Filtered(es, opts, today) ==> !(e.isConfirmed && Before(e, today))
  {
  }

  /** The three categories: each a subsequence of the filtered list with exactly its members. */
  function Upcoming(filtered: seq<Enriched>, today: string): (r: seq<Enriched>)
    ensures Subseq(r, filtered)
    ensures forall e :: e in r <==> e in filtered && IsUpcoming(e, today)
  {
    SelectSpec(filtered, e => IsUpcoming(e, today));
    Select(filtered, e => IsUpcoming(e, today))
  }

  function Past(filtered: seq<Enriched>, today: string): (r: seq<Enriched>)
    ensures Subseq(r, filtered)
    ensures forall e :: e in r <==> e in filtered && IsPast(e, today)
  {
    SelectSpec(filtered, e => IsPast(e, today));
    Select(filtered, e => IsPast(e, today))
  }

  function PendingOf(filtered: seq<Enriched>): (r: seq<Enriched>)
    ensures Subseq(r, filtered)
    ensures forall e :: e in r <==> e in filtered && IsPending(e)
  {
    SelectSpec(filtered, IsPending);
    Select(filtered, IsPending)
  }

  /** No assignment is both upcoming and past. */
  lemma UpcomingPastDisjoint(filtered: seq<Enriched>, today: string)
    ensures forall e :: e in Upcoming(filtered, today) ==> e !in Past(filtered, today)
  {
  }

  /** Every pending assignment dated today or later is upcoming. */
  lemma PendingNotPastIsUpcoming(filtered: seq<Enriched>, today: string)
    ensures forall e :: e in PendingOf(filtered) && !Before(e, today) ==> e in Upcoming(filtered, today)
  {
  }

  // ---------------------------------------------------------------- the whole fetch

  /**
   * fetchUserAssessments after the fetches: `userId` "" stands for no authenticated user;
   * `fetchedSchedules` is what the schedule service returns for the id list (consulted
   * only when that list is non-empty).
   */
  method FetchUserAssessments(userId: string, opts: Options, assignments: seq<Assignment>,
                              fetchedSchedules: seq<Schedule>, today: string) returns (out: Outcome)
    ensures userId == "" <==> out == NoUser
    ensures out.Loaded? ==>
              var d := out.data;
              && d.schedules == (if ScheduleIds(assignments) == [] then [] else fetchedSchedules)
              && d.enriched == EnrichAll(assignments, ScheduleMapOf(d.schedules))
              && d.assignments == Filtered(d.enriched, opts, today)
              && d.upcoming == Upcoming(d.assignments, today)
              && d.past == Past(d.assignments, today)
              && d.pending == PendingOf(d.assignments)
    ensures out.Loaded? ==>
              var d := out.data;
              && d.stats.total == |d.assignments| && d.stats.upcoming == |d.upcoming|
              && d.stats.pending == |d.pending|
              && d.stats.completed == |Select(d.assignments, e => CompletedBefore(e, today))|
              && d.stats.declined == |Select(d.assignments, IsDeclinedEntry)|
  {
    if userId == "" {
      return NoUser;
    }
    var scheduleIds := ScheduleIds(assignments);
    var schedules := if |scheduleIds| > 0 then fetchedSchedules else [];
    var scheduleMap := BuildScheduleMap(schedules);
    var enriched := EnrichAll(assignments, scheduleMap);
    var filtered := Filtered(enriched, opts, today);
    var upcoming := Upcoming(filtered, today);
    var past := Past(filtered, today);
    var pending := PendingOf(filtered);
    var stats := Stats(|filtered|, |upcoming|, |pending|,
                       |Select(filtered, e => CompletedBefore(e, today))|,
                       |Select(filtered, IsDeclinedEntry)|);
    return Loaded(Data(filtered, schedules, upcoming, past, pending, stats, enriched));
  }

  // ---------------------------------------------------------------- details lookup

  /** The position of the first record with this event id. */
  function FirstWithEvent(es: seq<Enriched>, eventId: string): (r: Option<nat>)
    ensures r.None? <==> forall k :: 0 <= k < |es| ==> es[k].assignment.eventId != eventId
    ensures r.Some? ==> r.value < |es| && es[r.value].assignment.eventId == eventId
    ensures r.Some? ==> forall k :: 0 <= k < r.value ==> es[k].assignment.eventId != eventId
  {
    if es == [] then None
    else if es[0].assignment.eventId == eventId then Some(0)
    else
      var r := FirstWithEvent(es[1..], eventId);
      assert forall k :: 1 <= k < |es| ==> es[k] == es[1..][k - 1];
      if r.Some? then Some(r.value + 1) else None
  }

  /** getAssignmentDetails: `data.assignments.find(a => a.eventId === assignmentId)`. */
  function GetAssignmentDetails(d: Data, assignmentId: string): (r: Option<Enriched>)
    ensures r.None? <==> forall k :: 0 <= k < |d.assignments| ==> d.assignments[k].assignment.eventId != assignmentId
    ensures r.Some? ==> exists i :: 0 <= i < |d.assignments| && r.value == d.assignments[i]
                          && r.value.assignment.eventId == assignmentId
                          && forall k :: 0 <= k < i ==> d.assignments[k].assignment.eventId != assignmentId
  {
    var i := FirstWithEvent(d.assignments, assignmentId);
    if i.Some? then Some(d.assignments[i.value]) else None
  }
}
