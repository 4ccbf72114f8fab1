/** Concrete stores on which calls that look alike disagree. */
module Disagreements {
  import opened Base
  import opened Schedule
  import opened Sorting
  import opened SlotEngine
  import opened Tables
  import opened Grouping
  import opened Availability
  import opened AvailabilityTheorems
  import opened DraftProtocol
  import opened DraftLiveness
  import opened DraftCalls
  import opened DraftTheorems
  import opened Occupancy

  // ---- One specialist who works from midnight on ----

  function Works(end: Offset): Shift { Shift(Some(0), Some(end), None, None) }

  function Ana(end: Offset): Specialist { Specialist("s", "Ana", [Works(end)]) }

  /** One service, one branch that is always open, and Ana, who works on Thursdays until end. */
  function OneShift(duration: int, buffer: int, end: Offset): Catalog {
    Catalog(map["v" := Service("t", duration, buffer, true, true)], map["b" := Branch("t", 0, [], true)],
            map["s" := Profile("t", "Ana", true, true)], [ScheduleRow("t", "b", "s", 4, Works(end), true)], [])
  }

  /** What the engine is asked for the first Thursday, at its midnight. */
  function Thursday(duration: int, buffer: int, end: Offset, busy: seq<Busy>): SlotInput {
    SlotInput(0, 0, duration, buffer, true, DayHours(false, false, 0, 0), [Ana(end)], [], busy)
  }

  lemma ThursdayIsAsked(st: Store, duration: int, buffer: int, end: Offset, extra: int)
    requires st.catalog == OneShift(duration, buffer, end)
    ensures var place := PlaceOf(st.catalog, "v", "b");
            DayInput(st, DayQuery("t", "b", place.branch, "s", 0), place, extra, 0)
            == Thursday(duration + extra, buffer, end, BusyQuery(st.appointments, "t", {"s"}, 0))
  {
    var place := PlaceOf(st.catalog, "v", "b");
    var q := DayQuery("t", "b", place.branch, "s", 0);
    var table := st.catalog.schedules;
    assert table[..0] == [];
    assert ScheduleQuery(st.catalog, q, table) == [Row("s", "Ana", Works(end))];
    GroupedOneMore([], Row("s", "Ana", Works(end)));
    assert Grouped([]) == [] && [] + [Row("s", "Ana", Works(end))] == [Row("s", "Ana", Works(end))];
    assert Grouped([Row("s", "Ana", Works(end))]) == [Ana(end)];
    assert Ids([Ana(end)]) == {"s"};
  }

  /** Ana is listed once at each grid point of the shift that her appointments leave room for. */
  lemma ThursdayLists(input: SlotInput, duration: int, buffer: int, end: Offset, busy: seq<Busy>, t: int)
    requires input == Thursday(duration, buffer, end, busy) && end > 0 && input.Need() > 0 && OrderedBusy(busy)
    ensures ListCount(input, Ana(end), t)
            == if OnGrid(t) && 0 <= t && t + input.Need() <= end && MissesBusy(busy, "s", 0, t, input.Need())
               then 1 else 0
  {
    var need := input.Need();
    RoomMeaning(input, Ana(end), t);
    BaseMeaning([], Ana(end), t, need);
    assert Works(end) == Ana(end).shifts[0];
    assert Ana(end).shifts[..0] == [];
    assert Effects([], Some("s")) == Effect(None, false, []);
    assert ShiftCount(Ana(end).shifts, t, need) == if ShiftHolds(Works(end), t, need) then 1 else 0;
  }

  lemma ThursdayRefs(input: SlotInput, end: Offset, t: int, r: Ref)
    requires input.requiresSpecialist && input.specialists == [Ana(end)]
    ensures RefsAt(input, t, r) == if r == Ref("s", "Ana") then ListCount(input, Ana(end), t) else 0
    ensures Offers(input, t) <==> ListCount(input, Ana(end), t) > 0
  {
    assert [Ana(end)][..0] == [];
    assert RefCount(input, [], t, r) == 0;
    assert [Ana(end)][0] in [Ana(end)];
  }

  // ---- Checks on that Thursday ----

  function Asks(start: int, extra: int): CheckRequest { CheckRequest("t", "v", "b", "s", start, extra) }

  function Passed(duration: int, buffer: int, extra: int): Check {
    Check(Service("t", duration, buffer, true, true), duration + extra, true, [Ref("s", "Ana")])
  }

  lemma AnaIsNamed(input: SlotInput, duration: int, buffer: int, end: Offset, busy: seq<Busy>, t: int)
    requires input == Thursday(duration, buffer, end, busy) && end > 0 && input.Need() > 0 && OrderedBusy(busy)
    requires OnGrid(t) && 0 <= t && t + input.Need() <= end && MissesBusy(busy, "s", 0, t, input.Need())
    ensures Offers(input, t) && SortedRefs([Ref("s", "Ana")])
    ensures forall r :: multiset([Ref("s", "Ana")])[r] == RefsAt(input, t, r)
  {
    ThursdayLists(input, duration, buffer, end, busy, t);
    forall r ensures multiset([Ref("s", "Ana")])[r] == RefsAt(input, t, r) {
      ThursdayRefs(input, end, t, r);
    }
    ThursdayRefs(input, end, t, Ref("s", "Ana"));
  }

  ghost predicate AnaHasRoom(st: Store, duration: int, buffer: int, end: Offset, start: int) {
    && 0 < duration <= duration + buffer && OnGrid(start) && 0 <= start && start + (duration + buffer) * MINUTE <= end
    && var busy := BusyQuery(st.appointments, "t", {"s"}, 0);
    && OrderedBusy(busy) && MissesBusy(busy, "s", 0, start, (duration + buffer) * MINUTE)
  }

  lemma StartsOnThursday(st: Store, duration: int, buffer: int, end: Offset, start: int)
    requires AnaHasRoom(st, duration, buffer, end, start)
    ensures 0 <= start && duration > 0 && DayNumber(start, 0) == 0
    ensures SlotDay(Some(DayNumber(start, 0)), 0, 0) == Ok(0)
  {
    assert DayNumber(start, 0) == 0;
  }

  lemma CheckIsThursday(st: Store, duration: int, buffer: int, end: Offset, start: int, extra: int)
    requires st.catalog == OneShift(duration, buffer, end) && DayNumber(start, 0) == 0
    ensures var place, req := PlaceOf(st.catalog, "v", "b"), Asks(start, extra);
            DayInput(st, CheckQuery(req, place), place, extra, 0)
            == Thursday(duration + extra, buffer, end, BusyQuery(st.appointments, "t", {"s"}, 0))
  {
    var place := PlaceOf(st.catalog, "v", "b");
    assert CheckQuery(Asks(start, extra), place) == DayQuery("t", "b", place.branch, "s", 0);
    ThursdayIsAsked(st, duration, buffer, end, extra);
  }

  /** Where Ana has room, the check passes and names her. */
  lemma CheckPasses(st: Store, duration: int, buffer: int, end: Offset, start: int, extra: int)
    requires st.catalog == OneShift(duration, buffer, end) && AnaHasRoom(st, duration + extra, buffer, end, start)
    ensures CheckAnswer(st, Asks(start, extra), 0, Ok(Passed(duration, buffer, extra)))
  {
    StartsOnThursday(st, duration + extra, buffer, end, start);
    CheckIsThursday(st, duration, buffer, end, start, extra);
    var busy := BusyQuery(st.appointments, "t", {"s"}, 0);
    AnaIsNamed(Thursday(duration + extra, buffer, end, busy), duration + extra, buffer, end, busy, start);
  }

  // ---- A variant that leaves nothing ----

  /**
   A service of half an hour: the check passes without extra minutes and refuses a variant that takes the half
   hour away.
   */
  lemma FewerMinutesRefused()
    ensures var st := Store(OneShift(30, 0, 30 * MINUTE), []);
            && CheckAnswer(st, Asks(0, 0), 0, Ok(Passed(30, 0, 0)))
            && CheckAnswer(st, Asks(0, -30), 0, Err(InvalidArgument))
  {
    var st := Store(OneShift(30, 0, 30 * MINUTE), []);
    assert BusyQuery(st.appointments, "t", {"s"}, 0) == [];
    CheckPasses(st, 30, 0, 30 * MINUTE, 0, 0);
  }

  // ---- A service that takes no time but a buffer ----

  lemma OneStartListed(input: SlotInput, end: Offset, t: int)
    requires end == 30 * MINUTE && input == Thursday(0, 30, end, [])
    ensures Offers(input, t) <==> t == 0
  {
    ThursdayRefs(input, end, t, Ref("s", "Ana"));
    ThursdayLists(input, 0, 30, end, [], t);
  }

  lemma MidnightListed(input: SlotInput, end: Offset)
    requires end == 30 * MINUTE && input == Thursday(0, 30, end, [])
    ensures Canonical(input, [Slot(0, 0, [Ref("s", "Ana")])])
  {
    var slots := [Slot(0, 0, [Ref("s", "Ana")])];
    forall t ensures Offers(input, t) <==> t == 0 {
      OneStartListed(input, end, t);
    }
    ThursdayLists(input, 0, 30, end, [], 0);
    forall r ensures multiset([Ref("s", "Ana")])[r] == RefsAt(input, 0, r) {
      ThursdayRefs(input, end, 0, r);
    }
    assert Described(input, slots[0]);
  }

  /**
   A service without duration but with half an hour of buffer: the list of the day offers midnight, and the check
   of midnight refuses it.
   */
  lemma NoDurationListedAndRefused()
    ensures var st := Store(OneShift(0, 30, 30 * MINUTE), []);
            && ListAnswer(st, ListRequest("t", "v", "b", Some(0), "s"), 0, Ok([Slot(0, 0, [Ref("s", "Ana")])]))
            && CheckAnswer(st, Asks(0, 0), 0, Err(InvalidArgument))
  {
    var st := Store(OneShift(0, 30, 30 * MINUTE), []);
    ThursdayIsAsked(st, 0, 30, 30 * MINUTE, 0);
    assert BusyQuery(st.appointments, "t", {"s"}, 0) == [];
    MidnightListed(Thursday(0, 30, 30 * MINUTE, []), 30 * MINUTE);
  }

  // ---- An appointment that never ends ----

  /** An hour from midnight without ends_at. */
  function OpenEndedHour(): Appointment { Appointment("t", Some("s"), 0, None, 60, Pending, "web") }

  /** A store in which it is the only appointment, and no draft. */
  function HourTaken(): State {
    State(0, 60 * MINUTE, OneShift(60, 0, 120 * MINUTE), map["a" := Customer("t", true)], map[], {("t", "u")}, [],
          [OpenEndedHour()], [0], 1, [], [])
  }

  /** Somebody books the hour after it. */
  function HourAfter(): Request { Request("a", "v", "b", None, Some("s"), None, 60 * MINUTE, "key-0001") }

  lemma HourAfterPasses()
    ensures ChecksNow(HourTaken(), Creation(Actor("t", "c"), HourAfter(), Asked), Ok(Passed(60, 0, 0)), 0)
  {
    var s := HourTaken();
    var st := Store(s.catalog, s.appointments);
    assert s.appointments[..0] == [];
    var busy := Busy("s", 0, 60 * MINUTE);
    assert BusyQuery(s.appointments, "t", {"s"}, 0) == [busy];
    assert OrderedBusy([busy]) && MissesBusy([busy], "s", 0, 60 * MINUTE, 60 * MINUTE);
    CheckPasses(st, 60, 0, 120 * MINUTE, 60 * MINUTE, 0);
  }

  lemma {:induction false} LeadsOn(s: State, es: seq<Event>, m: State, more: seq<Event>, t: State)
    requires Leads(s, es, m) && Leads(m, more, t)
    ensures Leads(s, es + more, t)
    decreases |es|
  {
    if es == [] {
      assert es + more == more;
    } else {
      assert (es + more)[1..] == es[1..] + more;
      LeadsOn(Next(s, es[0]), es[1..], m, more, t);
    }
  }

  lemma HourAfterDrafted(check: Result<Check, SlotError>)
    requires check == Ok(Passed(60, 0, 0))
    ensures var s := HourTaken();
            var t := CreateAlone(s, Actor("t", "c"), HourAfter(), check, 0);
            && |t.creations| == 1 && t.creations[0].progress == Created(0, false, 1, true)
            && t == s.(creations := t.creations, drafts := t.drafts)
            && t.drafts == [Draft("t", "c", HourAfter(), 120 * MINUTE, 60, 60 * MINUTE, Waiting, None)]
  {
    CreateDecides(HourTaken(), Actor("t", "c"), HourAfter(), check, 0);
  }

  /** From the request to the draft. */
  lemma HourAfterCreated() returns (es: seq<Event>, t: State)
    ensures Leads(HourTaken(), es, t)
    ensures |t.creations| == 1 && t.creations[0].progress == Created(0, false, 1, true)
    ensures t == HourTaken().(creations := t.creations, drafts := t.drafts)
    ensures t.drafts == [Draft("t", "c", HourAfter(), 120 * MINUTE, 60, 60 * MINUTE, Waiting, None)]
  {
    var s, actor, check := HourTaken(), Actor("t", "c"), Ok(Passed(60, 0, 0));
    HourAfterPasses();
    var begun := s.(creations := s.creations + [Creation(actor, HourAfter(), Asked)]);
    assert Next(s, BeginCreate(actor, HourAfter())) == begun;
    assert ChecksNow(begun, begun.creations[0], check, 0);
    var rest := CreateAloneIsRun(begun, 0, check, 0);
    es, t := [BeginCreate(actor, HourAfter())] + rest, CreateAlone(s, actor, HourAfter(), check, 0);
    assert es[1..] == rest;
    HourAfterDrafted(check);
  }

  lemma {:induction false} FinishedAlone(s: State, i: nat)
    requires i < |s.confirmations|
    ensures var t := RunConfirm(s, i);
            && |t.confirmations| == |s.confirmations| && t.confirmations[i].draft == s.confirmations[i].draft
            && Finished(t.confirmations[i].progress)
    decreases Remaining(s.confirmations[i].progress)
  {
    if !Finished(s.confirmations[i].progress) {
      FinishedAlone(Advance(s, i), i);
    }
  }

  /** From the draft to the refusal. */
  lemma HourAfterRefused(t: State) returns (es: seq<Event>, u: State)
    requires t.confirmations == [] && t.appointments == [OpenEndedHour()] && t.managers == {("t", "u")} && t.clock == 0
    requires t.drafts == [Draft("t", "c", HourAfter(), 120 * MINUTE, 60, 60 * MINUTE, Waiting, None)]
    ensures Leads(t, es, u) && u == t.(confirmations := u.confirmations) && |u.confirmations| == 1
    ensures u.confirmations[0].draft == 0 && u.confirmations[0].progress == Failed(SpecialistUnavailable)
  {
    var begun := t.(confirmations := [Confirmation(0, "u", t.clock, Begun)]);
    assert t.confirmations + [Confirmation(0, "u", t.clock, Begun)] == [Confirmation(0, "u", t.clock, Begun)];
    assert Next(t, BeginConfirm(0, "u")) == begun;
    var rest := ConfirmAloneIsRun(begun, 0);
    es, u := [BeginConfirm(0, "u")] + rest, ConfirmAlone(t, 0, "u");
    assert es[1..] == rest;
    assert Within(60 * MINUTE, Some(120 * MINUTE), 60 * MINUTE) && TakenAt(t.appointments[0], "t", "s", 60 * MINUTE);
    ConfirmDecides(t, 0, "u");
    FinishedAlone(begun, 0);
  }

  /**
   A run from that store: the slot check of a create call passes and the draft is made; its confirmation finds the
   specialist taken, although nothing was added to the appointments or changed in them.
   */
  lemma CheckAndConfirmDisagree() returns (es: seq<Event>, u: State)
    ensures Initial(HourTaken()) && Leads(HourTaken(), es, u)
    ensures |u.creations| == 1 && u.creations[0].progress == Created(0, false, 1, true)
    ensures |u.confirmations| == 1 && u.confirmations[0].draft == 0
    ensures u.confirmations[0].progress == Failed(SpecialistUnavailable)
    ensures u.appointments == HourTaken().appointments && |u.drafts| == 1
    ensures !NewerOverlap(u.appointments, u.stamps, u.drafts[0], u.creations[0].progress.seen)
  {
    var created, t := HourAfterCreated();
    var confirmed: seq<Event>;
    confirmed, u := HourAfterRefused(t);
    LeadsOn(HourTaken(), created, t, confirmed, u);
    es := created + confirmed;
  }
}
