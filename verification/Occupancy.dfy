/**
 What it means that a specialist's time is taken, instant by instant, and that the range operator of the overlap
 check says exactly that (docs/handoff/sql/booknow_mcp_service_phase6_drafts.sql:97-106).
 */
module Occupancy {
  import opened Base
  import opened Tables
  import opened DraftProtocol

  /** The instant lies in [start, ends); without an end, from start on. */
  predicate Within(start: int, ends: Option<int>, x: int) { start <= x && (ends.Some? ==> x < ends.value) }

  /** At instant x an active appointment has the specialist; one without ends_at never ends. */
  ghost predicate TakenAt(a: Appointment, tenant: string, specialist: string, x: int) {
    && a.tenant == tenant && a.specialist == Some(specialist) && a.status in [Pending, Confirmed, InProgress]
    && Within(a.start, a.ends, x)
  }

  /** Some instant of [from, until) is taken by an appointment of the table. */
  ghost predicate TakenWithin(table: seq<Appointment>, tenant: string, specialist: string, from: int, until: int) {
    exists k, x :: 0 <= k < |table| && Within(from, Some(until), x) && TakenAt(table[k], tenant, specialist, x)
  }

  /** The specialist of the draft, if it names one, is taken at some instant of the draft. */
  ghost predicate DraftTaken(table: seq<Appointment>, row: Draft) {
    && row.request.specialist.Some?
    && TakenWithin(table, row.tenant, row.request.specialist.value, row.request.start, row.ends)
  }

  /** Two ranges overlap if and only if they share an instant. */
  lemma OverlapIsSharedInstant(a: int, b: Option<int>, c: int, d: int)
    ensures RangesOverlap(a, b, c, d) <==> exists x :: Within(a, b, x) && Within(c, Some(d), x)
  {
    if RangesOverlap(a, b, c, d) {
      var x := if a <= c then c else a;
      assert Within(a, b, x) && Within(c, Some(d), x);
    }
  }

  lemma OverlapsIsTaken(a: Appointment, row: Draft)
    requires row.request.specialist.Some?
    ensures Overlaps(a, row) <==> exists x :: && Within(row.request.start, Some(row.ends), x)
                                              && TakenAt(a, row.tenant, row.request.specialist.value, x)
  {
    OverlapIsSharedInstant(a.start, a.ends, row.request.start, row.ends);
    if Overlaps(a, row) {
      var x :| Within(a.start, a.ends, x) && Within(row.request.start, Some(row.ends), x);
      assert TakenAt(a, row.tenant, row.request.specialist.value, x);
    }
  }

  /** The overlap check finds the specialist taken if and only if some instant of the draft is. */
  lemma TakenIsSharedInstant(table: seq<Appointment>, row: Draft)
    requires row.request.specialist.Some?
    ensures Taken(table, row) <==> DraftTaken(table, row)
  {
    forall k | 0 <= k < |table| {
      OverlapsIsTaken(table[k], row);
    }
  }
}
