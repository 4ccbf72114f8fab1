/**
 Reading one local day from the store and answering list_available_slots and the slot check of a draft
 (internal/application/business/service.go:223-375, internal/repository/postgres/business.go:291-412).
 */
module Availability {
  import opened Base
  import opened Schedule
  import opened Sorting
  import opened SlotEngine
  import opened Tables
  import opened Grouping

  datatype SlotError = InvalidArgument | NotFound

  const MAX_DAYS_AHEAD := 90

  // ---- The three queries ----

  // specialist is "" when any will do; date is the day number, dayStart its midnight.
  datatype Query = Query(tenant: string, branch: string, specialist: string, weekday: int, date: int, dayStart: int)

  predicate ActiveSpecialist(cat: Catalog, tenant: string, id: string) {
    id in cat.profiles && cat.profiles[id].tenant == tenant && cat.profiles[id].isSpecialist && cat.profiles[id].active
  }

  predicate Scheduled(cat: Catalog, q: Query, row: ScheduleRow) {
    && row.tenant == q.tenant && row.branch == q.branch && row.weekday == q.weekday && row.active
    && ActiveSpecialist(cat, q.tenant, row.specialist)
    && (q.specialist == "" || row.specialist == q.specialist)
  }

  function ScheduleQuery(cat: Catalog, q: Query, table: seq<ScheduleRow>): seq<Row> {
    if table == [] then []
    else
      var rest, row := ScheduleQuery(cat, q, table[..|table| - 1]), table[|table| - 1];
      if Scheduled(cat, q, row) then rest + [Row(row.specialist, cat.profiles[row.specialist].name, row.shift)]
      else rest
  }

  function Ids(sps: seq<Specialist>): set<string> { set sp | sp in sps :: sp.id }

  predicate Concerns(row: ExceptionRow, q: Query, ids: set<string>) {
    && row.date == q.date
    && (row.branch.None? || row.branch == Some(q.branch))
    && (|| (row.entry.specialist.None? && row.branch == Some(q.branch))
        || (row.entry.specialist.Some? && row.entry.specialist.value in ids))
  }

  function ExceptionQuery(table: seq<ExceptionRow>, q: Query, ids: set<string>): seq<Exception> {
    if table == [] then []
    else
      var rest, row := ExceptionQuery(table[..|table| - 1], q, ids), table[|table| - 1];
      if Concerns(row, q, ids) then rest + [row.entry] else rest
  }

  /** An appointment that keeps one of the specialists of the tenant busy. */
  predicate Occupies(a: Appointment, tenant: string, ids: set<string>) {
    a.tenant == tenant && a.specialist.Some? && a.specialist.value in ids && Active(a.status)
  }

  /** Busy rows of the specialists that meet the day [dayStart, dayStart + 24 h). */
  function BusyQuery(table: seq<Appointment>, tenant: string, ids: set<string>, dayStart: int): seq<Busy> {
    if table == [] then []
    else
      var rest, a := BusyQuery(table[..|table| - 1], tenant, ids, dayStart), table[|table| - 1];
      if Occupies(a, tenant, ids) && a.start < dayStart + DAY && EndOf(a) > dayStart
      then rest + [Busy(a.specialist.value, a.start, EndOf(a))] else rest
  }

  /** Busy rows of the specialists on all days. */
  function AllBusy(table: seq<Appointment>, tenant: string, ids: set<string>): seq<Busy> {
    if table == [] then []
    else
      var rest, a := AllBusy(table[..|table| - 1], tenant, ids), table[|table| - 1];
      if Occupies(a, tenant, ids) then rest + [Busy(a.specialist.value, a.start, EndOf(a))] else rest
  }

  // ---- Local days ----

  /** Number of the local day of an instant, in a zone with a fixed offset. */
  function DayNumber(at: int, offset: int): int { (at + offset) / DAY }

  function Midnight(date: int, offset: int): int { date * DAY - offset }

  /** Sunday is 0; day 0 is 1 January 1970, a Thursday. */
  function Weekday(date: int): int { (date + 4) % 7 }

  // ---- Requests ----

  // date is None when the text does not parse.
  datatype ListRequest = ListRequest(tenant: string, service: string, branch: string, date: Option<int>,
                                     specialist: string)

  datatype CheckRequest = CheckRequest(tenant: string, service: string, branch: string, specialist: string, start: int,
                                       extraMinutes: int)

  datatype Check = Check(service: Service, durationMinutes: int, available: bool, specialists: seq<Ref>)

  datatype Store = Store(catalog: Catalog, appointments: seq<Appointment>)

  datatype Place = Place(service: Service, branch: Branch)

  /** The service and the branch of the request, both of the tenant and active. */
  function Resolve(cat: Catalog, tenant: string, service: string, branch: string): Result<Place, SlotError> {
    if service !in cat.services || cat.services[service].tenant != tenant || !cat.services[service].active
    then Err(NotFound)
    else if branch !in cat.branches || cat.branches[branch].tenant != tenant || !cat.branches[branch].active
    then Err(NotFound)
    else Ok(Place(cat.services[service], cat.branches[branch]))
  }

  /** A day that may be listed: from today to 90 days ahead. */
  function SlotDay(date: Option<int>, offset: int, now: int): Result<int, SlotError> {
    if date.None? then Err(InvalidArgument)
    else
      var today := DayNumber(now, offset);
      if date.value < today || date.value > today + MAX_DAYS_AHEAD then Err(InvalidArgument) else Ok(date.value)
  }

  function HoursOn(b: Branch, weekday: int): DayHours {
    if 0 <= weekday < |b.hours| then b.hours[weekday] else DayHours(false, false, 0, 0)
  }

  function DayQuery(tenant: string, branch: string, b: Branch, specialist: string, date: int): Query {
    Query(tenant, branch, specialist, Weekday(date), date, Midnight(date, b.offset))
  }

  /** What the slot engine is asked for one day. */
  function DayInput(st: Store, q: Query, place: Place, extraMinutes: int, now: int): SlotInput {
    var sps := Grouped(ScheduleQuery(st.catalog, q, st.catalog.schedules));
    SlotInput(q.dayStart, now, place.service.durationMinutes + extraMinutes, place.service.bufferMinutes,
              place.service.requiresSpecialist, HoursOn(place.branch, q.weekday), sps,
              ExceptionQuery(st.catalog.exceptions, q, Ids(sps)),
              BusyQuery(st.appointments, q.tenant, Ids(sps), q.dayStart))
  }

  method RunQueries(st: Store, q: Query, place: Place, extraMinutes: int, now: int) returns (input: SlotInput)
    ensures input == DayInput(st, q, place, extraMinutes, now)
  {
    var rows := [];
    for i := 0 to |st.catalog.schedules|
      invariant rows == ScheduleQuery(st.catalog, q, st.catalog.schedules[..i])
    {
      assert st.catalog.schedules[..i + 1][..i] == st.catalog.schedules[..i];
      var row := st.catalog.schedules[i];
      if Scheduled(st.catalog, q, row) {
        rows := rows + [Row(row.specialist, st.catalog.profiles[row.specialist].name, row.shift)];
      }
    }
    assert st.catalog.schedules[..|st.catalog.schedules|] == st.catalog.schedules;
    var sps := Schedules(rows);
    input := SlotInput(q.dayStart, now, place.service.durationMinutes + extraMinutes, place.service.bufferMinutes,
                       place.service.requiresSpecialist, HoursOn(place.branch, q.weekday), sps,
                       ExceptionQuery(st.catalog.exceptions, q, Ids(sps)),
                       BusyQuery(st.appointments, q.tenant, Ids(sps), q.dayStart));
  }

  predicate KnownSpecialist(cat: Catalog, q: Query) {
    q.specialist == "" || ActiveSpecialist(cat, q.tenant, q.specialist)
  }

  method DaySlots(st: Store, q: Query, place: Place, extraMinutes: int, now: int)
    returns (r: Result<seq<Slot>, SlotError>)
    ensures !KnownSpecialist(st.catalog, q) ==> r == Err(NotFound)
    ensures KnownSpecialist(st.catalog, q) ==> r.Ok? && Canonical(DayInput(st, q, place, extraMinutes, now), r.value)
  {
    if q.specialist != "" && !ActiveSpecialist(st.catalog, q.tenant, q.specialist) {
      return Err(NotFound);
    }
    var input := RunQueries(st, q, place, extraMinutes, now);
    var slots := ComputeSlots(input);
    return Ok(slots);
  }

  /** The answer to list_available_slots. */
  ghost predicate ListAnswer(st: Store, req: ListRequest, now: int, r: Result<seq<Slot>, SlotError>) {
    match Resolve(st.catalog, req.tenant, req.service, req.branch)
    case Err(e) => r == Err(e)
    case Ok(place) =>
      match SlotDay(req.date, place.branch.offset, now)
      case Err(e) => r == Err(e)
      case Ok(date) =>
        var q := DayQuery(req.tenant, req.branch, place.branch, req.specialist, date);
        if KnownSpecialist(st.catalog, q) then r.Ok? && Canonical(DayInput(st, q, place, 0, now), r.value)
        else r == Err(NotFound)
  }

  method AvailableSlots(st: Store, req: ListRequest, now: int) returns (r: Result<seq<Slot>, SlotError>)
    ensures ListAnswer(st, req, now, r)
  {
    var place := Resolve(st.catalog, req.tenant, req.service, req.branch);
    if place.Err? {
      return Err(place.error);
    }
    var day := SlotDay(req.date, place.value.branch.offset, now);
    if day.Err? {
      return Err(day.error);
    }
    var q := DayQuery(req.tenant, req.branch, place.value.branch, req.specialist, day.value);
    r := DaySlots(st, q, place.value, 0, now);
  }

  /** What the engine is asked when a draft wants to start at req.start. */
  function CheckQuery(req: CheckRequest, place: Place): Query {
    DayQuery(req.tenant, req.branch, place.branch, req.specialist, DayNumber(req.start, place.branch.offset))
  }

  /** The answer of a slot check that passes all validation. */
  ghost predicate CheckDetails(st: Store, req: CheckRequest, place: Place, now: int, c: Check) {
    var input := DayInput(st, CheckQuery(req, place), place, req.extraMinutes, now);
    var t := req.start - input.day;
    && c.service == place.service && c.durationMinutes == place.service.durationMinutes + req.extraMinutes
    && (c.available <==> Offers(input, t))
    && (c.available ==> SortedRefs(c.specialists) && forall r :: multiset(c.specialists)[r] == RefsAt(input, t, r))
    && (!c.available ==> c.specialists == [])
  }

  ghost predicate CheckAnswer(st: Store, req: CheckRequest, now: int, r: Result<Check, SlotError>) {
    match Resolve(st.catalog, req.tenant, req.service, req.branch)
    case Err(e) => r == Err(e)
    case Ok(place) =>
      if place.service.durationMinutes + req.extraMinutes <= 0 || req.start < now then r == Err(InvalidArgument)
      else
        match SlotDay(Some(DayNumber(req.start, place.branch.offset)), place.branch.offset, now)
        case Err(e) => r == Err(e)
        case Ok(_) =>
          if !KnownSpecialist(st.catalog, CheckQuery(req, place)) then r == Err(NotFound)
          else r.Ok? && CheckDetails(st, req, place, now, r.value)
  }

  method FindStart(slots: seq<Slot>, start: int) returns (available: bool, specialists: seq<Ref>, ghost found: nat)
    ensures available <==> StartsAt(slots, start)
    ensures available ==> found < |slots| && slots[found].start == start && specialists == slots[found].specialists
    ensures !available ==> specialists == []
  {
    available, specialists, found := false, [], 0;
    for i := 0 to |slots|
      invariant available <==> exists k :: 0 <= k < i && slots[k].start == start
      invariant available ==> found < i && slots[found].start == start && specialists == slots[found].specialists
      invariant !available ==> specialists == []
    {
      if slots[i].start == start {
        available, specialists, found := true, slots[i].specialists, i;
      }
    }
  }

  lemma FoundSlot(input: SlotInput, slots: seq<Slot>, found: nat)
    requires Canonical(input, slots) && found < |slots|
    ensures Described(input, slots[found])
  {
    assert Described(input, slots[found]);
  }

  method CheckSlot(st: Store, req: CheckRequest, now: int) returns (r: Result<Check, SlotError>)
    ensures CheckAnswer(st, req, now, r)
  {
    var place := Resolve(st.catalog, req.tenant, req.service, req.branch);
    if place.Err? {
      return Err(place.error);
    }
    var duration := place.value.service.durationMinutes + req.extraMinutes;
    if duration <= 0 || req.start < now {
      return Err(InvalidArgument);
    }
    var offset := place.value.branch.offset;
    var day := SlotDay(Some(DayNumber(req.start, offset)), offset, now);
    if day.Err? {
      return Err(day.error);
    }
    var q := CheckQuery(req, place.value);
    var slots := DaySlots(st, q, place.value, req.extraMinutes, now);
    if slots.Err? {
      return Err(slots.error);
    }
    ghost var input := DayInput(st, q, place.value, req.extraMinutes, now);
    var available, specialists, found := FindStart(slots.value, req.start);
    StartsIffOffers(input, slots.value, req.start);
    if available {
      FoundSlot(input, slots.value, found);
    }
    return Ok(Check(place.value.service, duration, available, specialists));
  }
}
