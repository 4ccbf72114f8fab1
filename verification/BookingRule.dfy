/**
 When a branch can take a booking, said of the stored rows and of instants alone: no window, no query and no grid
 of the slot engine occurs here (internal/application/business/slots.go:45-243,
 internal/repository/postgres/business.go:291-381). BookingRuleTheorems proves that the two calls follow this rule.
 */
module BookingRule {
  import opened Base
  import opened Schedule
  import opened Tables

  // A booking of the tenant at the branch on a local day: need is the service duration, extra minutes and buffer in
  // nanoseconds, now what the service's clock says.
  datatype Wish = Wish(tenant: string, branch: string, date: int, need: int, now: int)

  /** The instant of local midnight of the day. */
  function DayStart(cat: Catalog, w: Wish): int
    requires w.branch in cat.branches
  {
    w.date * 86_400 * SECOND - cat.branches[w.branch].offset
  }

  /** Sunday is 0, and day 0 a Thursday. */
  function DayOfWeek(w: Wish): int { (w.date + 4) % 7 }

  // ---- Exceptions ----

  /** The exception has hours, and they are in order. */
  predicate Timed(ex: Exception) {
    && ex.start.Some? && ex.start.value.Some? && ex.end.Some? && ex.end.value.Some?
    && ex.start.value.value < ex.end.value.value
  }

  predicate Absence(ex: Exception) { ex.kind == "vacation" || ex.kind == "sick" || ex.kind == "holiday" }

  /** The row is about the branch itself (who is None) or about this specialist there or anywhere, on that day. */
  predicate Regards(row: ExceptionRow, w: Wish, who: Option<string>) {
    && row.date == w.date && row.entry.specialist == who
    && (row.branch == Some(w.branch) || (row.branch == None && who != None))
  }

  predicate ClosesFor(row: ExceptionRow, w: Wish, who: Option<string>) {
    Regards(row, w, who) && (row.entry.dayOff || (Absence(row.entry) && !Timed(row.entry)))
  }

  ghost predicate TakesDayOff(rows: seq<ExceptionRow>, w: Wish, who: Option<string>) {
    exists k :: 0 <= k < |rows| && ClosesFor(rows[k], w, who)
  }

  predicate GivesHours(row: ExceptionRow, w: Wish, who: Option<string>) {
    Regards(row, w, who) && !row.entry.dayOff && row.entry.kind == "special_hours" && Timed(row.entry)
  }

  /** Row k is the last one with special hours. */
  ghost predicate LastHours(rows: seq<ExceptionRow>, w: Wish, who: Option<string>, k: int) {
    && 0 <= k < |rows| && GivesHours(rows[k], w, who)
    && forall j :: k < j < |rows| ==> !GivesHours(rows[j], w, who)
  }

  /** The booking, t after midnight, lies in the hours of the exception. */
  predicate InHours(ex: Exception, t: int, need: int) {
    Timed(ex) && ex.start.value.value <= t && t + need <= ex.end.value.value
  }

  /** The row is an absence with hours that meets the booking. */
  predicate Away(row: ExceptionRow, w: Wish, who: Option<string>, t: int) {
    && Regards(row, w, who) && !row.entry.dayOff && Absence(row.entry) && Timed(row.entry)
    && t < row.entry.end.value.value && row.entry.start.value.value < t + w.need
  }

  ghost predicate NotAbsent(rows: seq<ExceptionRow>, w: Wish, who: Option<string>, t: int) {
    forall k :: 0 <= k < |rows| ==> !Away(rows[k], w, who, t)
  }

  // ---- Branch ----

  /** The regular opening hours of the day of the week; a day without an entry is open all day. */
  ghost predicate InOpeningHours(b: Branch, w: Wish, t: int) {
    DayOfWeek(w) < |b.hours| ==>
      var h := b.hours[DayOfWeek(w)];
      h.restricted ==> !h.closed && h.open <= t && t + w.need <= h.close
  }

  ghost predicate BranchTakes(cat: Catalog, w: Wish, t: int)
    requires w.branch in cat.branches
  {
    && !TakesDayOff(cat.exceptions, w, None) && NotAbsent(cat.exceptions, w, None, t)
    && if exists k :: LastHours(cat.exceptions, w, None, k)
       then exists k :: LastHours(cat.exceptions, w, None, k) && InHours(cat.exceptions[k].entry, t, w.need)
       else InOpeningHours(cat.branches[w.branch], w, t)
  }

  // ---- Specialists ----

  /** An active row of the schedule: the specialist works at the branch on that day of the week. */
  predicate Works(row: ScheduleRow, w: Wish, id: string) {
    && row.tenant == w.tenant && row.branch == w.branch && row.specialist == id && row.weekday == DayOfWeek(w)
    && row.active
  }

  /** The booking lies in the shift and misses its break, if that is in order. */
  predicate InShift(sh: Shift, t: int, need: int) {
    && sh.start.Some? && sh.end.Some? && sh.start.value <= t && t + need <= sh.end.value
    && (sh.breakStart.Some? && sh.breakStart.value.Some? && sh.breakEnd.Some? && sh.breakEnd.value.Some?
        && sh.breakStart.value.value < sh.breakEnd.value.value ==>
          sh.breakEnd.value.value <= t || t + need <= sh.breakStart.value.value)
  }

  predicate Employed(cat: Catalog, tenant: string, id: string) {
    && id in cat.profiles && cat.profiles[id].tenant == tenant && cat.profiles[id].isSpecialist
    && cat.profiles[id].active
  }

  ghost predicate SpecialistTakes(cat: Catalog, w: Wish, id: string, t: int) {
    && Employed(cat, w.tenant, id)
    && (exists k :: 0 <= k < |cat.schedules| && Works(cat.schedules[k], w, id))
    && !TakesDayOff(cat.exceptions, w, Some(id)) && NotAbsent(cat.exceptions, w, Some(id), t)
    && if exists k :: LastHours(cat.exceptions, w, Some(id), k)
       then exists k :: LastHours(cat.exceptions, w, Some(id), k) && InHours(cat.exceptions[k].entry, t, w.need)
       else exists k :: && 0 <= k < |cat.schedules| && Works(cat.schedules[k], w, id)
                        && InShift(cat.schedules[k].shift, t, w.need)
  }

  /** The appointment is an active one of the specialist and meets the booking; without ends_at it has its duration. */
  predicate Meets(a: Appointment, w: Wish, id: string, at: int) {
    && a.tenant == w.tenant && a.specialist == Some(id) && a.status in [Pending, Confirmed, InProgress]
    && a.start < at + w.need && at < if a.ends.Some? then a.ends.value else a.start + a.minutes * 60 * SECOND
  }

  /** No appointment, of whatever day, meets the booking. */
  ghost predicate Unbooked(table: seq<Appointment>, w: Wish, id: string, at: int) {
    forall k :: 0 <= k < |table| ==> !Meets(table[k], w, id, at)
  }

  // ---- The rule ----

  /** A half hour of the local day that has not gone by. */
  predicate OnTheHalfHour(cat: Catalog, w: Wish, at: int)
    requires w.branch in cat.branches
  {
    w.now <= at && (at - DayStart(cat, w)) % (1_800 * SECOND) == 0
  }

  /** The specialist can take a booking that starts at this instant. */
  ghost predicate CanTake(cat: Catalog, table: seq<Appointment>, w: Wish, id: string, at: int)
    requires w.branch in cat.branches
  {
    && OnTheHalfHour(cat, w, at)
    && BranchTakes(cat, w, at - DayStart(cat, w)) && SpecialistTakes(cat, w, id, at - DayStart(cat, w))
    && Unbooked(table, w, id, at)
  }

  /** The branch can take a booking of a service without specialist, which stays within the day. */
  ghost predicate BranchCanTake(cat: Catalog, w: Wish, at: int)
    requires w.branch in cat.branches
  {
    && OnTheHalfHour(cat, w, at) && BranchTakes(cat, w, at - DayStart(cat, w))
    && 0 <= at - DayStart(cat, w) && at - DayStart(cat, w) + w.need <= 86_400 * SECOND
  }
}
