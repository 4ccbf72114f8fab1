/** What the answers of the slot queries have to do with each other and with the appointments of the store. */
module AvailabilityTheorems {
  import opened Base
  import opened Intervals
  import opened Schedule
  import opened Sorting
  import opened SlotEngine
  import opened SlotTheorems
  import opened Tables
  import opened Grouping
  import opened Availability

  // ---- The one-day fetch ----

  lemma FetchOneMore(ws: seq<Interval>, fetched: seq<Busy>, all: seq<Busy>, b: Busy, id: string, day: int)
    requires Within(ws, 0, DAY) && WithoutBusy(ws, fetched, id, day) == WithoutBusy(ws, all, id, day)
    ensures WithoutBusy(ws, if b.start < day + DAY && b.end > day then fetched + [b] else fetched, id, day)
            == WithoutBusy(ws, all + [b], id, day)
  {
    WithoutOneMore(ws, fetched, b, id, day);
    WithoutOneMore(ws, all, b, id, day);
    WithoutBusyWithin(ws, all, id, day, 0, DAY);
    if b.start >= day + DAY || b.end <= day {
      SubtractedOutside(WithoutBusy(ws, all, id, day), CutOf(b, day), 0, DAY);
    }
  }

  /** Appointments outside the day cannot touch a window inside it. */
  lemma {:induction false} FetchLosesNothing(ws: seq<Interval>, table: seq<Appointment>, tenant: string,
                                             ids: set<string>, id: string, day: int)
    requires Within(ws, 0, DAY)
    ensures WithoutBusy(ws, BusyQuery(table, tenant, ids, day), id, day)
            == WithoutBusy(ws, AllBusy(table, tenant, ids), id, day)
  {
    if table != [] {
      var n, a := |table| - 1, table[|table| - 1];
      FetchLosesNothing(ws, table[..n], tenant, ids, id, day);
      if Occupies(a, tenant, ids) {
        FetchOneMore(ws, BusyQuery(table[..n], tenant, ids, day), AllBusy(table[..n], tenant, ids),
                     Busy(a.specialist.value, a.start, EndOf(a)), id, day);
      }
    }
  }

  lemma RoomBeforeBusyWithinDay(input: SlotInput, sp: Specialist)
    requires BranchConstraints(input).Open?
    ensures Within(BranchRoom(SpecialistRoom(input.exceptions, sp), BranchConstraints(input)), 0, DAY)
  {
    SpecialistWithinDay(input.exceptions, sp);
    BranchWithinDay(SpecialistRoom(input.exceptions, sp), BranchConstraints(input));
  }

  /** The busy rows of the input are those the store returns for its specialists and its day. */
  ghost predicate Fetched(input: SlotInput, table: seq<Appointment>, tenant: string) {
    input.busy == BusyQuery(table, tenant, Ids(input.specialists), input.day)
  }

  /** The same input with the appointments of all days. */
  function WithAllBusy(input: SlotInput, table: seq<Appointment>, tenant: string): SlotInput {
    input.(busy := AllBusy(table, tenant, Ids(input.specialists)))
  }

  lemma SameRoom(input: SlotInput, table: seq<Appointment>, tenant: string, sp: Specialist)
    requires Fetched(input, table, tenant)
    ensures Room(input, sp) == Room(WithAllBusy(input, table, tenant), sp)
  {
    var branch := BranchConstraints(input);
    assert BranchConstraints(WithAllBusy(input, table, tenant)) == branch;
    if branch.Open? {
      RoomBeforeBusyWithinDay(input, sp);
      FetchLosesNothing(BranchRoom(SpecialistRoom(input.exceptions, sp), branch), table, tenant, Ids(input.specialists),
                        sp.id, input.day);
    }
  }

  /** The slots of a day computed from the appointments that meet the day are those computed from all appointments. */
  lemma OneDayFetchSuffices(st: Store, q: Query, place: Place, extra: int, now: int, slots: seq<Slot>)
    requires Canonical(DayInput(st, q, place, extra, now), slots)
    ensures Canonical(WithAllBusy(DayInput(st, q, place, extra, now), st.appointments, q.tenant), slots)
  {
    var input := DayInput(st, q, place, extra, now);
    forall sp {
      SameRoom(input, st.appointments, q.tenant, sp);
    }
    SameRoomsSameList(input, WithAllBusy(input, st.appointments, q.tenant), slots);
  }

  // ---- A listed specialist is free ----

  /** No active appointment of the specialist, on any day, meets [at, at + need). */
  ghost predicate Free(table: seq<Appointment>, tenant: string, id: string, at: int, need: int) {
    forall k :: 0 <= k < |table| && Occupies(table[k], tenant, {id}) ==>
                  EndOf(table[k]) <= at || at + need <= table[k].start
  }

  lemma {:induction false} AllBusyMembers(table: seq<Appointment>, tenant: string, ids: set<string>, k: nat)
    requires k < |table| && Occupies(table[k], tenant, ids)
    ensures Busy(table[k].specialist.value, table[k].start, EndOf(table[k])) in AllBusy(table, tenant, ids)
  {
    var n := |table| - 1;
    if k < n {
      AllBusyMembers(table[..n], tenant, ids, k);
    }
  }

  lemma RoomIsFree(input: SlotInput, table: seq<Appointment>, tenant: string, ids: set<string>, sp: Specialist,
                   t: int, at: int)
    requires input.busy == AllBusy(table, tenant, ids) && sp.id in ids && input.Need() > 0 && at == input.day + t
    requires FitCount(Room(input, sp), t, input.Need()) > 0
    ensures Free(table, tenant, sp.id, at, input.Need())
  {
    var need := input.Need();
    RoomMeaning(input, sp, t);
    forall k | 0 <= k < |table| && Occupies(table[k], tenant, {sp.id})
      ensures EndOf(table[k]) <= at || at + need <= table[k].start
    {
      AllBusyMembers(table, tenant, ids, k);
    }
  }

  lemma ListedSpecialistIsFree(input: SlotInput, table: seq<Appointment>, tenant: string, sp: Specialist, t: int,
                               at: int)
    requires Fetched(input, table, tenant) && input.Need() > 0 && at == input.day + t
    requires sp.id in Ids(input.specialists) && FitCount(Room(input, sp), t, input.Need()) > 0
    ensures Free(table, tenant, sp.id, at, input.Need())
  {
    var all := WithAllBusy(input, table, tenant);
    SameRoom(input, table, tenant, sp);
    assert all.Need() == input.Need();
    RoomIsFree(all, table, tenant, Ids(input.specialists), sp, t, at);
  }

  lemma ListedIsFree(input: SlotInput, table: seq<Appointment>, tenant: string, id: string, t: int, at: int)
    requires Fetched(input, table, tenant) && input.Need() > 0 && ListedFor(input, t, id) && at == input.day + t
    ensures Free(table, tenant, id, at, input.Need())
  {
    var sp :| sp in input.specialists && sp.id == id && ListCount(input, sp, t) > 0;
    ListedSpecialistIsFree(input, table, tenant, sp, t, at);
  }

  function NeedOf(service: Service, extra: int): int {
    (service.durationMinutes + extra + service.bufferMinutes) * MINUTE
  }

  lemma DayNeed(st: Store, q: Query, place: Place, extra: int, now: int)
    ensures DayInput(st, q, place, extra, now).Need() == NeedOf(place.service, extra)
    ensures Fetched(DayInput(st, q, place, extra, now), st.appointments, q.tenant)
  {
  }

  lemma ListedOnDayIsFree(st: Store, q: Query, place: Place, extra: int, now: int, id: string, t: int, at: int)
    requires ListedFor(DayInput(st, q, place, extra, now), t, id) && at == q.dayStart + t
    requires NeedOf(place.service, extra) > 0
    ensures Free(st.appointments, q.tenant, id, at, NeedOf(place.service, extra))
  {
    var input := DayInput(st, q, place, extra, now);
    DayNeed(st, q, place, extra, now);
    ListedIsFree(input, st.appointments, q.tenant, id, t, at);
  }

  /** The query behind an answer of list_available_slots. */
  function ListQuery(cat: Catalog, req: ListRequest): Query
    requires req.date.Some? && req.branch in cat.branches
  {
    DayQuery(req.tenant, req.branch, cat.branches[req.branch], req.specialist, req.date.value)
  }

  function PlaceOf(cat: Catalog, service: string, branch: string): Place
    requires service in cat.services && branch in cat.branches
  {
    Place(cat.services[service], cat.branches[branch])
  }

  /** list_available_slots never offers a specialist over one of the specialist's active appointments. */
  lemma ListNeverOverlaps(st: Store, req: ListRequest, now: int, slots: seq<Slot>, at: int, id: string)
    requires ListAnswer(st, req, now, Ok(slots)) && OffersSpecialist(slots, at, id)
    requires NeedOf(st.catalog.services[req.service], 0) > 0
    ensures Free(st.appointments, req.tenant, id, at, NeedOf(st.catalog.services[req.service], 0))
  {
    var q, place := ListQuery(st.catalog, req), PlaceOf(st.catalog, req.service, req.branch);
    var input := DayInput(st, q, place, 0, now);
    OffersIffListed(input, slots, at, id);
    assert input.day == q.dayStart;
    ListedOnDayIsFree(st, q, place, 0, now, id, at - input.day, at);
  }

  lemma {:induction false} OnlyRequested(cat: Catalog, q: Query, table: seq<ScheduleRow>)
    requires q.specialist != ""
    ensures forall i :: 0 <= i < |ScheduleQuery(cat, q, table)| ==> ScheduleQuery(cat, q, table)[i].id == q.specialist
  {
    if table != [] {
      OnlyRequested(cat, q, table[..|table| - 1]);
    }
  }

  lemma GroupedOnlyRequested(rows: seq<Row>, id: string, sp: Specialist)
    requires sp in Grouped(rows) && forall i :: 0 <= i < |rows| ==> rows[i].id == id
    ensures sp.id == id
  {
    var k :| 0 <= k < |Grouped(rows)| && Grouped(rows)[k] == sp;
    GroupedIds(rows, sp.id);
    assert Grouped(rows)[k].id == sp.id;
  }

  lemma OfferedIsListed(st: Store, q: Query, place: Place, extra: int, now: int, t: int)
    requires q.specialist != "" && place.service.requiresSpecialist && Offers(DayInput(st, q, place, extra, now), t)
    ensures ListedFor(DayInput(st, q, place, extra, now), t, q.specialist)
  {
    var input := DayInput(st, q, place, extra, now);
    var sp :| sp in input.specialists && ListCount(input, sp, t) > 0;
    OnlyRequested(st.catalog, q, st.catalog.schedules);
    GroupedOnlyRequested(ScheduleQuery(st.catalog, q, st.catalog.schedules), q.specialist, sp);
  }

  /** An answered check is about the service asked for and available exactly where the engine offers the start. */
  lemma AvailableIffOffered(st: Store, req: CheckRequest, now: int, c: Check)
    requires CheckAnswer(st, req, now, Ok(c))
    ensures req.branch in st.catalog.branches && req.service in st.catalog.services
    ensures c.service == st.catalog.services[req.service]
    ensures var place := PlaceOf(st.catalog, req.service, req.branch);
            var q := CheckQuery(req, place);
            c.available <==> Offers(DayInput(st, q, place, req.extraMinutes, now), req.start - q.dayStart)
  {
  }

  /** A slot check for a requested specialist succeeds only where that specialist is free. */
  lemma AvailableIsFree(st: Store, req: CheckRequest, now: int, c: Check)
    requires CheckAnswer(st, req, now, Ok(c)) && c.available && c.service.requiresSpecialist && req.specialist != ""
    requires NeedOf(c.service, req.extraMinutes) > 0
    ensures Free(st.appointments, req.tenant, req.specialist, req.start, NeedOf(c.service, req.extraMinutes))
  {
    AvailableIffOffered(st, req, now, c);
    var place := PlaceOf(st.catalog, req.service, req.branch);
    var q := CheckQuery(req, place);
    OfferedIsListed(st, q, place, req.extraMinutes, now, req.start - q.dayStart);
    ListedOnDayIsFree(st, q, place, req.extraMinutes, now, req.specialist, req.start - q.dayStart, req.start);
  }

  lemma NamedOnInput(input: SlotInput, refs: seq<Ref>, t: int, r: Ref)
    requires r in refs && forall one :: multiset(refs)[one] == RefsAt(input, t, one)
    ensures ListedFor(input, t, r.id)
  {
    assert multiset(refs)[r] == RefsAt(input, t, r);
    RefCountPositive(input, input.specialists, t, r);
  }

  lemma NamedIsListed(st: Store, req: CheckRequest, place: Place, now: int, c: Check, r: Ref)
    requires CheckDetails(st, req, place, now, c) && r in c.specialists
    ensures var q := CheckQuery(req, place);
            ListedFor(DayInput(st, q, place, req.extraMinutes, now), req.start - q.dayStart, r.id)
  {
    var q := CheckQuery(req, place);
    var input := DayInput(st, q, place, req.extraMinutes, now);
    assert input.day == q.dayStart;
    NamedOnInput(input, c.specialists, req.start - q.dayStart, r);
  }

  /** Whoever a slot check names, asked for or not, is free then on all days. */
  lemma NamedIsFree(st: Store, req: CheckRequest, now: int, c: Check, r: Ref)
    requires CheckAnswer(st, req, now, Ok(c)) && r in c.specialists && NeedOf(c.service, req.extraMinutes) > 0
    ensures Free(st.appointments, req.tenant, r.id, req.start, NeedOf(c.service, req.extraMinutes))
  {
    var place := PlaceOf(st.catalog, req.service, req.branch);
    var q := CheckQuery(req, place);
    NamedIsListed(st, req, place, now, c, r);
    ListedOnDayIsFree(st, q, place, req.extraMinutes, now, r.id, req.start - q.dayStart, req.start);
  }

  lemma OfferedIsNamed(st: Store, req: CheckRequest, place: Place, now: int, c: Check)
    requires CheckDetails(st, req, place, now, c) && c.available && place.service.requiresSpecialist
    ensures c.specialists != []
  {
    var input := DayInput(st, CheckQuery(req, place), place, req.extraMinutes, now);
    var t := req.start - input.day;
    var sp :| sp in input.specialists && ListCount(input, sp, t) > 0;
    RefCountPositive(input, input.specialists, t, RefOf(sp));
    assert multiset(c.specialists)[RefOf(sp)] == RefsAt(input, t, RefOf(sp));
  }

  lemma NamedIsRequested(st: Store, req: CheckRequest, place: Place, now: int, c: Check, r: Ref)
    requires CheckDetails(st, req, place, now, c) && r in c.specialists && req.specialist != ""
    ensures r.id == req.specialist
  {
    NamedIsListed(st, req, place, now, c, r);
    var q := CheckQuery(req, place);
    var sp :| sp in DayInput(st, q, place, req.extraMinutes, now).specialists && sp.id == r.id;
    OnlyRequested(st.catalog, q, st.catalog.schedules);
    GroupedOnlyRequested(ScheduleQuery(st.catalog, q, st.catalog.schedules), q.specialist, sp);
  }

  /** An available check of a service with specialists names someone, and no one but the specialist asked for. */
  lemma AvailableNamesSomeone(st: Store, req: CheckRequest, now: int, c: Check)
    requires CheckAnswer(st, req, now, Ok(c)) && c.available && c.service.requiresSpecialist
    ensures c.specialists != []
    ensures req.specialist != "" ==> forall r :: r in c.specialists ==> r.id == req.specialist
  {
    var place := PlaceOf(st.catalog, req.service, req.branch);
    OfferedIsNamed(st, req, place, now, c);
    if req.specialist != "" {
      forall r | r in c.specialists ensures r.id == req.specialist {
        NamedIsRequested(st, req, place, now, c, r);
      }
    }
  }

  // ---- The slot check and the slot list agree ----

  /**
   At the same instant and on the same store, a start is available exactly if the list of its local day holds
   it and the service has a positive duration (a duration the check insists on and the list does not).
   */
  lemma CheckAgreesWithList(st: Store, req: CheckRequest, now: int, c: Result<Check, SlotError>,
                            l: Result<seq<Slot>, SlotError>)
    requires req.extraMinutes == 0 && req.branch in st.catalog.branches && req.service in st.catalog.services
    requires CheckAnswer(st, req, now, c)
    requires var date := DayNumber(req.start, st.catalog.branches[req.branch].offset);
             ListAnswer(st, ListRequest(req.tenant, req.service, req.branch, Some(date), req.specialist), now, l)
    ensures c.Ok? && c.value.available
            <==> l.Ok? && StartsAt(l.value, req.start) && st.catalog.services[req.service].durationMinutes > 0
  {
    var resolved := Resolve(st.catalog, req.tenant, req.service, req.branch);
    if resolved.Ok? && l.Ok? {
      var q := CheckQuery(req, resolved.value);
      var input := DayInput(st, q, resolved.value, 0, now);
      assert Canonical(input, l.value);
      StartsIffOffers(input, l.value, req.start);
      if Offers(input, req.start - input.day) {
        OfferedWithinDay(input, req.start - input.day);
      }
    }
  }

  lemma LongerOffersLess(input: SlotInput, extra: nat, t: int)
    requires StartBookable(input.(durationMinutes := input.durationMinutes + extra), t)
    ensures StartBookable(input, t)
  {
    var long := input.(durationMinutes := input.durationMinutes + extra);
    if input.requiresSpecialist {
      var sp :| sp in long.specialists && Bookable(long, sp, t);
      LongerIsHarder(input, extra, sp, t);
    } else {
      assert input.Need() <= long.Need();
      assert BranchAllows(input, t);
    }
  }

  lemma LongerDayOffersLess(st: Store, q: Query, place: Place, extra: int, more: nat, now: int, t: int)
    requires NeedOf(place.service, extra) > 0
    requires Offers(DayInput(st, q, place, extra + more, now), t)
    ensures Offers(DayInput(st, q, place, extra, now), t)
  {
    var short, long := DayInput(st, q, place, extra, now), DayInput(st, q, place, extra + more, now);
    assert long == short.(durationMinutes := short.durationMinutes + more);
    OffersIffBookable(long, t);
    LongerOffersLess(short, more, t);
    OffersIffBookable(short, t);
  }

  lemma BothAvailable(st: Store, req: CheckRequest, more: nat, now: int, c: Check, d: Check)
    requires CheckAnswer(st, req.(extraMinutes := req.extraMinutes + more), now, Ok(c)) && c.available
    requires CheckAnswer(st, req, now, Ok(d))
    requires NeedOf(st.catalog.services[req.service], req.extraMinutes) > 0
    ensures d.available
  {
    var longer := req.(extraMinutes := req.extraMinutes + more);
    AvailableIffOffered(st, longer, now, c);
    AvailableIffOffered(st, req, now, d);
    var place := PlaceOf(st.catalog, req.service, req.branch);
    var q := CheckQuery(req, place);
    assert CheckQuery(longer, place) == q && longer.start == req.start;
    LongerDayOffersLess(st, q, place, req.extraMinutes, more, now, req.start - q.dayStart);
  }

  /**
   More extra minutes never make a start available that fewer do not, unless fewer leave no positive duration,
   which the check refuses. Buffers are not negative.
   */
  lemma ExtraMinutesNeverHelp(st: Store, req: CheckRequest, more: nat, now: int, c: Check, r: Result<Check, SlotError>)
    requires CheckAnswer(st, req.(extraMinutes := req.extraMinutes + more), now, Ok(c)) && c.available
    requires CheckAnswer(st, req, now, r) && c.service.bufferMinutes >= 0
    ensures r.Ok? && r.value.available <==> c.service.durationMinutes + req.extraMinutes > 0
  {
    if c.service.durationMinutes + req.extraMinutes > 0 {
      BothAvailable(st, req, more, now, c, r.value);
    }
  }

  // ---- Asking for one specialist ----

  lemma {:induction false} FilteredRows(cat: Catalog, q: Query, table: seq<ScheduleRow>, id: string)
    requires q.specialist == "" && id != ""
    ensures ScheduleQuery(cat, q.(specialist := id), table) == OnlyRows(ScheduleQuery(cat, q, table), id)
  {
    if table != [] {
      FilteredRows(cat, q, table[..|table| - 1], id);
      var rest := ScheduleQuery(cat, q, table[..|table| - 1]);
      var row := table[|table| - 1];
      if Scheduled(cat, q, row) {
        var added := rest + [Row(row.specialist, cat.profiles[row.specialist].name, row.shift)];
        assert added[..|added| - 1] == rest;
      }
    }
  }

  lemma {:induction false} QueryNames(cat: Catalog, q: Query, table: seq<ScheduleRow>)
    ensures forall i :: 0 <= i < |ScheduleQuery(cat, q, table)| ==>
                          var row := ScheduleQuery(cat, q, table)[i];
                          ActiveSpecialist(cat, q.tenant, row.id) && row.name == cat.profiles[row.id].name
  {
    if table != [] {
      QueryNames(cat, q, table[..|table| - 1]);
    }
  }

  lemma EffectsOneMore(exs: seq<Exception>, ex: Exception, who: Option<string>)
    ensures Effects(exs + [ex], who)
            == if ex.specialist == who then Extended(Effects(exs, who), ex) else Effects(exs, who)
  {
    assert (exs + [ex])[..|exs|] == exs;
  }

  lemma {:induction false} SameEffects(table: seq<ExceptionRow>, a: Query, b: Query, x: set<string>, y: set<string>,
                                       who: Option<string>)
    requires a.branch == b.branch && a.date == b.date
    requires who.None? || (who.value in x && who.value in y)
    ensures Effects(ExceptionQuery(table, a, x), who) == Effects(ExceptionQuery(table, b, y), who)
  {
    if table != [] {
      var n, row := |table| - 1, table[|table| - 1];
      SameEffects(table[..n], a, b, x, y, who);
      EffectsOneMore(ExceptionQuery(table[..n], a, x), row.entry, who);
      EffectsOneMore(ExceptionQuery(table[..n], b, y), row.entry, who);
    }
  }

  lemma {:induction false} SameBusy(ws: seq<Interval>, table: seq<Appointment>, tenant: string, x: set<string>,
                                    y: set<string>, id: string, day: int)
    requires id in x && id in y
    ensures WithoutBusy(ws, BusyQuery(table, tenant, x, day), id, day)
            == WithoutBusy(ws, BusyQuery(table, tenant, y, day), id, day)
  {
    if table != [] {
      var n, a := |table| - 1, table[|table| - 1];
      SameBusy(ws, table[..n], tenant, x, y, id, day);
      if a.specialist.Some? {
        var b := Busy(a.specialist.value, a.start, EndOf(a));
        WithoutOneMore(ws, BusyQuery(table[..n], tenant, x, day), b, id, day);
        WithoutOneMore(ws, BusyQuery(table[..n], tenant, y, day), b, id, day);
      }
    }
  }

  lemma SameRoomFiltered(a: SlotInput, b: SlotInput, table: seq<Appointment>, tenant: string, sp: Specialist)
    requires Fetched(a, table, tenant) && Fetched(b, table, tenant) && a.day == b.day && a.branchHours == b.branchHours
    requires Effects(a.exceptions, None) == Effects(b.exceptions, None)
    requires Effects(a.exceptions, Some(sp.id)) == Effects(b.exceptions, Some(sp.id))
    requires sp.id in Ids(a.specialists) && sp.id in Ids(b.specialists)
    ensures Room(a, sp) == Room(b, sp)
  {
    var branch := BranchConstraints(a);
    if branch.Open? {
      var ws := BranchRoom(SpecialistRoom(a.exceptions, sp), branch);
      SameBusy(ws, table, tenant, Ids(a.specialists), Ids(b.specialists), sp.id, a.day);
    }
  }

  lemma SameCountOnDay(st: Store, q: Query, place: Place, now: int, sp: Specialist, t: int)
    requires q.specialist == "" && sp.id != ""
    requires sp.id in Ids(DayInput(st, q, place, 0, now).specialists)
    requires sp.id in Ids(DayInput(st, q.(specialist := sp.id), place, 0, now).specialists)
    ensures ListCount(DayInput(st, q, place, 0, now), sp, t)
            == ListCount(DayInput(st, q.(specialist := sp.id), place, 0, now), sp, t)
  {
    var one := q.(specialist := sp.id);
    var a, b := DayInput(st, q, place, 0, now), DayInput(st, one, place, 0, now);
    SameEffects(st.catalog.exceptions, q, one, Ids(a.specialists), Ids(b.specialists), None);
    SameEffects(st.catalog.exceptions, q, one, Ids(a.specialists), Ids(b.specialists), Some(sp.id));
    SameRoomFiltered(a, b, st.appointments, q.tenant, sp);
  }

  /** With each specialist's rows together, the filtered query has the specialists of the full one with that id. */
  lemma FilteredSpecialists(cat: Catalog, q: Query, id: string)
    requires q.specialist == "" && id != "" && Contiguous(ScheduleQuery(cat, q, cat.schedules))
    ensures forall sp :: sp in Grouped(ScheduleQuery(cat, q.(specialist := id), cat.schedules))
                         <==> sp in Grouped(ScheduleQuery(cat, q, cat.schedules)) && sp.id == id
  {
    var rows := ScheduleQuery(cat, q, cat.schedules);
    FilteredRows(cat, q, cat.schedules, id);
    GroupThenFilter(rows, id);
    OnlySpecialistsMembers(Grouped(rows), id);
  }

  lemma ListedForIffFilteredOffers(st: Store, q: Query, place: Place, now: int, id: string, t: int)
    requires q.specialist == "" && id != "" && place.service.requiresSpecialist
    requires Contiguous(ScheduleQuery(st.catalog, q, st.catalog.schedules))
    ensures ListedFor(DayInput(st, q, place, 0, now), t, id)
            <==> Offers(DayInput(st, q.(specialist := id), place, 0, now), t)
  {
    var a, b := DayInput(st, q, place, 0, now), DayInput(st, q.(specialist := id), place, 0, now);
    FilteredSpecialists(st.catalog, q, id);
    forall sp | sp in b.specialists ensures ListCount(a, sp, t) == ListCount(b, sp, t) {
      SameCountOnDay(st, q, place, now, sp, t);
    }
  }

  lemma ListedIsActive(st: Store, q: Query, place: Place, now: int, id: string, t: int)
    requires ListedFor(DayInput(st, q, place, 0, now), t, id)
    ensures ActiveSpecialist(st.catalog, q.tenant, id)
  {
    var rows := ScheduleQuery(st.catalog, q, st.catalog.schedules);
    QueryNames(st.catalog, q, st.catalog.schedules);
    var sp :| sp in Grouped(rows) && sp.id == id;
    var k :| 0 <= k < |Grouped(rows)| && Grouped(rows)[k] == sp;
    assert Grouped(rows)[k].id == id;
    GroupedIds(rows, id);
  }

  /** Whom the list of a day names is active, and listed exactly where the filtered list has a start. */
  lemma FilterAgreesOnDay(st: Store, q: Query, place: Place, now: int, id: string, all: seq<Slot>, at: int)
    requires q.specialist == "" && id != "" && place.service.requiresSpecialist
    requires Contiguous(ScheduleQuery(st.catalog, q, st.catalog.schedules))
    requires Canonical(DayInput(st, q, place, 0, now), all)
    ensures OffersSpecialist(all, at, id) ==> ActiveSpecialist(st.catalog, q.tenant, id)
    ensures forall one :: Canonical(DayInput(st, q.(specialist := id), place, 0, now), one) ==>
                            (OffersSpecialist(all, at, id) <==> StartsAt(one, at))
  {
    var a, b := DayInput(st, q, place, 0, now), DayInput(st, q.(specialist := id), place, 0, now);
    assert a.day == b.day;
    OffersIffListed(a, all, at, id);
    ListedForIffFilteredOffers(st, q, place, now, id, at - a.day);
    if ListedFor(a, at - a.day, id) {
      ListedIsActive(st, q, place, now, id, at - a.day);
    }
    forall one | Canonical(b, one) ensures StartsAt(one, at) <==> Offers(b, at - b.day) {
      StartsIffOffers(b, one, at);
    }
  }

  /** The filtered list answers exactly for an active specialist, with the slots of the filtered query. */
  lemma FilteredAnswer(st: Store, req: ListRequest, id: string, now: int, all: seq<Slot>,
                       one: Result<seq<Slot>, SlotError>)
    requires req.specialist == "" && id != ""
    requires ListAnswer(st, req, now, Ok(all)) && ListAnswer(st, req.(specialist := id), now, one)
    ensures req.date.Some? && req.branch in st.catalog.branches && req.service in st.catalog.services
    ensures Resolve(st.catalog, req.tenant, req.service, req.branch)
            == Ok(PlaceOf(st.catalog, req.service, req.branch))
    ensures var q, place := ListQuery(st.catalog, req), PlaceOf(st.catalog, req.service, req.branch);
            && Canonical(DayInput(st, q, place, 0, now), all)
            && (one.Ok? <==> ActiveSpecialist(st.catalog, req.tenant, id))
            && (one.Ok? ==> Canonical(DayInput(st, q.(specialist := id), place, 0, now), one.value))
  {
  }

  /** Filtering the list by a specialist yields exactly the starts at which the full list names that specialist. */
  lemma FilterAgrees(st: Store, req: ListRequest, id: string, now: int, all: seq<Slot>,
                     one: Result<seq<Slot>, SlotError>, at: int)
    requires req.specialist == "" && id != ""
    requires ListAnswer(st, req, now, Ok(all)) && ListAnswer(st, req.(specialist := id), now, one)
    requires st.catalog.services[req.service].requiresSpecialist
    requires Contiguous(ScheduleQuery(st.catalog, ListQuery(st.catalog, req), st.catalog.schedules))
    ensures OffersSpecialist(all, at, id) <==> one.Ok? && StartsAt(one.value, at)
  {
    FilteredAnswer(st, req, id, now, all, one);
    var q, place := ListQuery(st.catalog, req), PlaceOf(st.catalog, req.service, req.branch);
    FilterAgreesOnDay(st, q, place, now, id, all, at);
  }
}
