/**
 list_available_slots and the slot check follow the booking rule, in both directions: what they answer is exactly
 what the stored rows allow (internal/application/business/service.go:224-375,
 internal/repository/postgres/business.go:291-381).
 */
module BookingRuleTheorems {
  import opened Base
  import opened Intervals
  import opened Schedule
  import opened Sorting
  import opened SlotEngine
  import opened Tables
  import opened Grouping
  import opened Availability
  import opened AvailabilityTheorems
  import opened QueryTheorems
  import opened BookingRule

  // ---- Exceptions ----

  /** The query is for the day and the branch of the wish. */
  predicate Fetches(q: Query, w: Wish) {
    && q.tenant == w.tenant && q.branch == w.branch && q.date == w.date && q.weekday == DayOfWeek(w)
  }

  predicate Among(who: Option<string>, ids: set<string>) { who.None? || who.value in ids }

  lemma HoursIfTimed(ex: Exception)
    ensures Timed(ex) <==> Hours(ex).Some?
    ensures Timed(ex) ==> Hours(ex).value == Interval(ex.start.value.value, ex.end.value.value)
  {
  }

  lemma ConcernsIfRegards(row: ExceptionRow, q: Query, w: Wish, ids: set<string>, who: Option<string>)
    requires Fetches(q, w) && Among(who, ids)
    ensures Concerns(row, q, ids) && row.entry.specialist == who <==> Regards(row, w, who)
  {
  }

  /** One more exception row matters to who exactly if it regards who. */
  lemma EffectOfRow(before: seq<ExceptionRow>, row: ExceptionRow, q: Query, w: Wish, ids: set<string>,
                    who: Option<string>)
    requires Fetches(q, w) && Among(who, ids)
    ensures var effect := Effects(ExceptionQuery(before, q, ids), who);
            Effects(ExceptionQuery(before + [row], q, ids), who)
            == if Regards(row, w, who) then Extended(effect, row.entry) else effect
  {
    var rows := before + [row];
    assert rows[..|rows| - 1] == before;
    ConcernsIfRegards(row, q, w, ids, who);
    EffectsOneMore(ExceptionQuery(before, q, ids), row.entry, who);
  }

  lemma DayOffOneMore(before: seq<ExceptionRow>, row: ExceptionRow, w: Wish, who: Option<string>)
    ensures TakesDayOff(before + [row], w, who) <==> TakesDayOff(before, w, who) || ClosesFor(row, w, who)
  {
    var rows := before + [row];
    assert rows[|before|] == row && forall k :: 0 <= k < |before| ==> rows[k] == before[k];
  }

  lemma LastHoursOneMore(before: seq<ExceptionRow>, row: ExceptionRow, w: Wish, who: Option<string>, k: int)
    ensures LastHours(before + [row], w, who, k)
            <==> if GivesHours(row, w, who) then k == |before| else LastHours(before, w, who, k)
  {
    var rows := before + [row];
    assert rows[|before|] == row && forall i :: 0 <= i < |before| ==> rows[i] == before[i];
  }

  lemma NotAbsentOneMore(before: seq<ExceptionRow>, row: ExceptionRow, w: Wish, who: Option<string>, t: int)
    ensures NotAbsent(before + [row], w, who, t) <==> NotAbsent(before, w, who, t) && !Away(row, w, who, t)
  {
    var rows := before + [row];
    assert rows[|before|] == row && forall k :: 0 <= k < |before| ==> rows[k] == before[k];
  }

  lemma MissesOneMoreCut(cuts: seq<Interval>, cut: Interval, t: int, need: int)
    ensures MissesAll(cuts + [cut], t, need) <==> MissesAll(cuts, t, need) && Misses(cut, t, need)
  {
    assert (cuts + [cut])[..|cuts|] == cuts;
    MissesAllButLast(cuts + [cut], t, need);
  }

  /** The special hours are those of the last row that gives some. */
  ghost predicate HoursRight(special: Option<Interval>, rows: seq<ExceptionRow>, w: Wish, who: Option<string>) {
    && (special.Some? <==> exists k :: LastHours(rows, w, who, k))
    && forall k :: LastHours(rows, w, who, k) ==> special == Hours(rows[k].entry)
  }

  /** The effect is what the stored rows say of who. */
  ghost predicate EffectRight(effect: Effect, rows: seq<ExceptionRow>, w: Wish, who: Option<string>, t: int) {
    && (effect.dayOff <==> TakesDayOff(rows, w, who)) && HoursRight(effect.special, rows, w, who)
    && (MissesAll(effect.blocks, t, w.need) <==> NotAbsent(rows, w, who, t))
  }

  lemma HoursStep(special: Option<Interval>, before: seq<ExceptionRow>, row: ExceptionRow, w: Wish, who: Option<string>)
    requires HoursRight(special, before, w, who)
    ensures HoursRight(if GivesHours(row, w, who) then Hours(row.entry) else special, before + [row], w, who)
  {
    HoursIfTimed(row.entry);
    assert (before + [row])[|before|] == row;
    forall k ensures LastHours(before + [row], w, who, k)
                     <==> if GivesHours(row, w, who) then k == |before| else LastHours(before, w, who, k) {
      LastHoursOneMore(before, row, w, who, k);
    }
    assert GivesHours(row, w, who) ==> LastHours(before + [row], w, who, |before|);
    assert !GivesHours(row, w, who) ==>
        forall k :: LastHours(before, w, who, k) ==> LastHours(before + [row], w, who, k);
  }

  lemma EffectStep(effect: Effect, before: seq<ExceptionRow>, row: ExceptionRow, w: Wish, who: Option<string>, t: int)
    requires EffectRight(effect, before, w, who, t)
    ensures EffectRight(if Regards(row, w, who) then Extended(effect, row.entry) else effect, before + [row], w, who, t)
  {
    DayOffOneMore(before, row, w, who);
    HoursStep(effect.special, before, row, w, who);
    NotAbsentOneMore(before, row, w, who, t);
    HoursIfTimed(row.entry);
    if Timed(row.entry) {
      MissesOneMoreCut(effect.blocks, Hours(row.entry).value, t, w.need);
    }
  }

  /** What the engine makes of the exceptions that the query returns is what the stored rows say. */
  lemma {:induction false} ExceptionsRight(rows: seq<ExceptionRow>, q: Query, w: Wish, ids: set<string>,
                                           who: Option<string>, t: int)
    requires Fetches(q, w) && Among(who, ids)
    ensures EffectRight(Effects(ExceptionQuery(rows, q, ids), who), rows, w, who, t)
  {
    if rows != [] {
      var before, row := rows[..|rows| - 1], rows[|rows| - 1];
      ExceptionsRight(before, q, w, ids, who, t);
      EffectStep(Effects(ExceptionQuery(before, q, ids), who), before, row, w, who, t);
      EffectOfRow(before, row, q, w, ids, who);
      assert rows == before + [row];
    }
  }

  /** The engine's own reading of its exceptions, by the effect it computes from them. */
  lemma EngineReads(exs: seq<Exception>, who: Option<string>, t: int, need: int)
    ensures var effect := Effects(exs, who);
            && (DayOff(exs, who) <==> effect.dayOff)
            && (MissesBlocks(exs, who, t, need) <==> MissesAll(effect.blocks, t, need))
            && ((exists k :: LastSpecial(exs, who, k)) <==> effect.special.Some?)
            && ((exists k :: LastSpecial(exs, who, k) && Fits(Hours(exs[k]).value, t, need))
                <==> effect.special.Some? && Fits(effect.special.value, t, need))
  {
    DayOffMeaning(exs, who);
    BlocksMeaning(exs, who, t, need);
    SpecialMeaning(exs, who);
  }

  /** The special hours have room for the booking if and only if the last row that gives some does. */
  lemma SpecialRoom(special: Option<Interval>, rows: seq<ExceptionRow>, w: Wish, who: Option<string>, t: int)
    requires HoursRight(special, rows, w, who)
    ensures special.Some? && Fits(special.value, t, w.need)
            <==> exists k :: LastHours(rows, w, who, k) && InHours(rows[k].entry, t, w.need)
  {
    forall k | LastHours(rows, w, who, k) {
      HoursIfTimed(rows[k].entry);
    }
  }

  // ---- The branch ----

  /** The input of the engine is that of the day, the branch and the instant of the wish. */
  ghost predicate InputFor(input: SlotInput, cat: Catalog, q: Query, w: Wish) {
    && Fetches(q, w) && w.branch in cat.branches && input.Need() == w.need && input.now == w.now
    && input.day == DayStart(cat, w) && input.branchHours == HoursOn(cat.branches[w.branch], q.weekday)
    && input.specialists == Grouped(ScheduleQuery(cat, q, cat.schedules))
    && input.exceptions == ExceptionQuery(cat.exceptions, q, Ids(input.specialists))
  }

  lemma BranchRule(input: SlotInput, cat: Catalog, q: Query, w: Wish, t: int)
    requires InputFor(input, cat, q, w)
    ensures BranchAllows(input, t) <==> BranchTakes(cat, w, t)
  {
    var effect := Effects(input.exceptions, None);
    ExceptionsRight(cat.exceptions, q, w, Ids(input.specialists), None, t);
    EngineReads(input.exceptions, None, t, w.need);
    SpecialRoom(effect.special, cat.exceptions, w, None, t);
  }

  /** The specialist is not absent, and the special hours of the specialist, if any, have room. */
  lemma PersonRule(input: SlotInput, cat: Catalog, q: Query, w: Wish, sp: Specialist, t: int)
    requires InputFor(input, cat, q, w) && sp in input.specialists
    ensures PersonallyFree(input.exceptions, sp, t, w.need)
            <==> !TakesDayOff(cat.exceptions, w, Some(sp.id)) && NotAbsent(cat.exceptions, w, Some(sp.id), t)
    ensures InsideBase(input.exceptions, sp, t, w.need)
            <==> if exists k :: LastHours(cat.exceptions, w, Some(sp.id), k)
                 then exists k :: && LastHours(cat.exceptions, w, Some(sp.id), k)
                                  && InHours(cat.exceptions[k].entry, t, w.need)
                 else exists i :: 0 <= i < |sp.shifts| && ShiftHolds(sp.shifts[i], t, w.need)
  {
    var who := Some(sp.id);
    ExceptionsRight(cat.exceptions, q, w, Ids(input.specialists), who, t);
    EngineReads(input.exceptions, who, t, w.need);
    SpecialRoom(Effects(input.exceptions, who).special, cat.exceptions, w, who, t);
  }

  // ---- Schedule rows ----

  /** The call asks for any specialist, or for this one. */
  predicate Asked(specialist: string, id: string) { specialist == "" || specialist == id }

  /** Some stored row gives the specialist this shift on that day at that branch. */
  ghost predicate HasShift(table: seq<ScheduleRow>, w: Wish, id: string, shift: Shift) {
    exists k :: 0 <= k < |table| && Works(table[k], w, id) && table[k].shift == shift
  }

  lemma ShiftOneMore(before: seq<ScheduleRow>, row: ScheduleRow, w: Wish, id: string, shift: Shift)
    ensures HasShift(before + [row], w, id, shift)
            <==> HasShift(before, w, id, shift) || (Works(row, w, id) && row.shift == shift)
  {
    var rows := before + [row];
    assert rows[|before|] == row && forall k :: 0 <= k < |before| ==> rows[k] == before[k];
  }

  lemma RowOneMore(rows: seq<Row>, row: Row, id: string, shift: Shift)
    ensures ShiftOf(rows + [row], id, shift) <==> ShiftOf(rows, id, shift) || (row.id == id && row.shift == shift)
  {
    var more := rows + [row];
    assert more[|rows|] == row && forall k :: 0 <= k < |rows| ==> more[k] == rows[k];
  }

  /** The rows hold the shift of the specialist exactly if the stored table does, for whom the call asks. */
  ghost predicate RowsRight(rows: seq<Row>, cat: Catalog, table: seq<ScheduleRow>, q: Query, w: Wish, id: string,
                            shift: Shift) {
    ShiftOf(rows, id, shift)
    <==> Employed(cat, w.tenant, id) && Asked(q.specialist, id) && HasShift(table, w, id, shift)
  }

  lemma RowsStep(rows: seq<Row>, cat: Catalog, before: seq<ScheduleRow>, row: ScheduleRow, q: Query, w: Wish,
                 id: string, shift: Shift)
    requires Fetches(q, w) && RowsRight(rows, cat, before, q, w, id, shift)
    ensures RowsRight(if Scheduled(cat, q, row)
                      then rows + [Row(row.specialist, cat.profiles[row.specialist].name, row.shift)] else rows,
                      cat, before + [row], q, w, id, shift)
  {
    ShiftOneMore(before, row, w, id, shift);
    if Scheduled(cat, q, row) {
      RowOneMore(rows, Row(row.specialist, cat.profiles[row.specialist].name, row.shift), id, shift);
    }
  }

  /** The query returns a shift of a specialist if and only if a stored row gives it. */
  lemma {:induction false} QueryRight(cat: Catalog, table: seq<ScheduleRow>, q: Query, w: Wish, id: string,
                                      shift: Shift)
    requires Fetches(q, w)
    ensures RowsRight(ScheduleQuery(cat, q, table), cat, table, q, w, id, shift)
  {
    if table != [] {
      var before, row := table[..|table| - 1], table[|table| - 1];
      QueryRight(cat, before, q, w, id, shift);
      RowsStep(ScheduleQuery(cat, q, before), cat, before, row, q, w, id, shift);
      assert table == before + [row];
    }
  }

  // ---- Specialists of the engine ----

  /** Some specialist of the engine with this id has the shift. */
  ghost predicate GroupHas(sps: seq<Specialist>, id: string, shift: Shift) {
    exists sp :: sp in sps && sp.id == id && shift in sp.shifts
  }

  /** Joining a row adds its shift to those of its specialist, and no other. */
  lemma JoinedHas(done: seq<Specialist>, row: Row, id: string, shift: Shift)
    ensures GroupHas(Joined(done, row), id, shift)
            <==> GroupHas(done, id, shift) || (row.id == id && row.shift == shift)
  {
    var n, now := |done|, Joined(done, row);
    if n > 0 && done[n - 1].id == row.id {
      var last, grown := done[n - 1], now[n - 1];
      assert done == done[..n - 1] + [last] && now == done[..n - 1] + [grown];
      assert grown in now && last in done;
      assert forall sp :: sp in done[..n - 1] ==> sp in now && sp in done;
    } else {
      assert now == done + [Specialist(row.id, row.name, [row.shift])];
      assert Specialist(row.id, row.name, [row.shift]) in now;
    }
  }

  lemma GroupedStep(done: seq<Specialist>, before: seq<Row>, row: Row, id: string, shift: Shift)
    requires GroupHas(done, id, shift) <==> ShiftOf(before, id, shift)
    ensures GroupHas(Joined(done, row), id, shift) <==> ShiftOf(before + [row], id, shift)
  {
    JoinedHas(done, row, id, shift);
    RowOneMore(before, row, id, shift);
  }

  lemma {:induction false} GroupedHas(rows: seq<Row>, id: string, shift: Shift)
    ensures GroupHas(Grouped(rows), id, shift) <==> ShiftOf(rows, id, shift)
  {
    if rows != [] {
      var before, row := rows[..|rows| - 1], rows[|rows| - 1];
      GroupedHas(before, id, shift);
      GroupedStep(Grouped(before), before, row, id, shift);
      assert rows == before + [row];
    }
  }

  /** Every specialist of the engine has a shift. */
  lemma {:induction false} GroupedHaveShifts(rows: seq<Row>)
    ensures forall sp :: sp in Grouped(rows) ==> sp.shifts != []
  {
    if rows != [] {
      GroupedHaveShifts(rows[..|rows| - 1]);
    }
  }

  lemma ShiftIsInShift(sh: Shift, t: int, need: int)
    requires need > 0
    ensures ShiftHolds(sh, t, need) <==> InShift(sh, t, need)
  {
  }

  /** The engine has a specialist with this shift if and only if the call asks for whom a stored row gives it. */
  lemma EngineHas(input: SlotInput, cat: Catalog, q: Query, w: Wish, id: string, shift: Shift)
    requires InputFor(input, cat, q, w)
    ensures GroupHas(input.specialists, id, shift)
            <==> Employed(cat, w.tenant, id) && Asked(q.specialist, id) && HasShift(cat.schedules, w, id, shift)
  {
    QueryRight(cat, cat.schedules, q, w, id, shift);
    GroupedHas(ScheduleQuery(cat, q, cat.schedules), id, shift);
  }

  /** The specialist of the engine is there and has room, as far as the own schedule goes. */
  ghost predicate OwnRoom(input: SlotInput, sp: Specialist, t: int, need: int) {
    PersonallyFree(input.exceptions, sp, t, need) && InsideBase(input.exceptions, sp, t, need)
  }

  lemma TakesSound(input: SlotInput, cat: Catalog, q: Query, w: Wish, sp: Specialist, t: int)
    requires InputFor(input, cat, q, w) && w.need > 0 && sp in input.specialists && OwnRoom(input, sp, t, w.need)
    ensures Asked(q.specialist, sp.id) && SpecialistTakes(cat, w, sp.id, t)
  {
    PersonRule(input, cat, q, w, sp, t);
    GroupedHaveShifts(ScheduleQuery(cat, q, cat.schedules));
    EngineHas(input, cat, q, w, sp.id, sp.shifts[0]);
    if !(exists k :: LastHours(cat.exceptions, w, Some(sp.id), k)) {
      var i :| 0 <= i < |sp.shifts| && ShiftHolds(sp.shifts[i], t, w.need);
      EngineHas(input, cat, q, w, sp.id, sp.shifts[i]);
      ShiftIsInShift(sp.shifts[i], t, w.need);
    }
  }

  lemma TakesComplete(input: SlotInput, cat: Catalog, q: Query, w: Wish, id: string, t: int) returns (sp: Specialist)
    requires InputFor(input, cat, q, w) && w.need > 0 && Asked(q.specialist, id) && SpecialistTakes(cat, w, id, t)
    ensures sp in input.specialists && sp.id == id && OwnRoom(input, sp, t, w.need)
  {
    var k :| && 0 <= k < |cat.schedules| && Works(cat.schedules[k], w, id)
             && ((exists j :: LastHours(cat.exceptions, w, Some(id), j)) || InShift(cat.schedules[k].shift, t, w.need));
    var shift := cat.schedules[k].shift;
    assert HasShift(cat.schedules, w, id, shift);
    EngineHas(input, cat, q, w, id, shift);
    sp :| sp in input.specialists && sp.id == id && shift in sp.shifts;
    PersonRule(input, cat, q, w, sp, t);
    ShiftIsInShift(shift, t, w.need);
    var i :| 0 <= i < |sp.shifts| && sp.shifts[i] == shift;
    assert ShiftHolds(shift, t, w.need) ==> ShiftHolds(sp.shifts[i], t, w.need);
  }

  // ---- Appointments ----

  lemma UnbookedOneMore(before: seq<Appointment>, a: Appointment, w: Wish, id: string, at: int)
    ensures Unbooked(before + [a], w, id, at) <==> Unbooked(before, w, id, at) && !Meets(a, w, id, at)
  {
    var table := before + [a];
    assert table[|before|] == a && forall k :: 0 <= k < |before| ==> table[k] == before[k];
  }

  lemma BusyStep(busy: seq<Busy>, before: seq<Appointment>, a: Appointment, w: Wish, ids: set<string>, id: string,
                 day: int, t: int)
    requires id in ids && (MissesBusy(busy, id, day, t, w.need) <==> Unbooked(before, w, id, day + t))
    ensures var more := if Occupies(a, w.tenant, ids) then busy + [Busy(a.specialist.value, a.start, EndOf(a))]
                        else busy;
            MissesBusy(more, id, day, t, w.need) <==> Unbooked(before + [a], w, id, day + t)
  {
    UnbookedOneMore(before, a, w, id, day + t);
    if Occupies(a, w.tenant, ids) {
      MissesOneMore(busy, Busy(a.specialist.value, a.start, EndOf(a)), id, day, t, w.need);
    }
  }

  lemma {:induction false} BusyRule(table: seq<Appointment>, w: Wish, ids: set<string>, id: string, day: int, t: int)
    requires id in ids
    ensures MissesBusy(AllBusy(table, w.tenant, ids), id, day, t, w.need) <==> Unbooked(table, w, id, day + t)
  {
    if table != [] {
      var before, a := table[..|table| - 1], table[|table| - 1];
      BusyRule(before, w, ids, id, day, t);
      BusyStep(AllBusy(before, w.tenant, ids), before, a, w, ids, id, day, t);
      assert table == before + [a];
    }
  }

  // ---- The engine follows the rule ----

  lemma SameBookable(input: SlotInput, table: seq<Appointment>, tenant: string, sp: Specialist, t: int)
    requires Fetched(input, table, tenant) && input.Need() > 0
    ensures Bookable(input, sp, t) <==> Bookable(WithAllBusy(input, table, tenant), sp, t)
  {
    var all := WithAllBusy(input, table, tenant);
    assert all.Need() == input.Need();
    SameRoom(input, table, tenant, sp);
    ListedIffBookable(input, sp, t);
    ListedIffBookable(all, sp, t);
  }

  /** A specialist can be booked at t exactly if the parts of the rule hold. */
  lemma BookableParts(input: SlotInput, cat: Catalog, table: seq<Appointment>, q: Query, w: Wish, sp: Specialist,
                      t: int)
    requires InputFor(input, cat, q, w) && Fetched(input, table, w.tenant) && w.need > 0 && sp in input.specialists
    ensures Bookable(input, sp, t)
            <==> && OnTheHalfHour(cat, w, input.day + t) && BranchTakes(cat, w, t)
                 && OwnRoom(input, sp, t, w.need) && Unbooked(table, w, sp.id, input.day + t)
  {
    var all := WithAllBusy(input, table, w.tenant);
    SameBookable(input, table, w.tenant, sp, t);
    BranchRule(input, cat, q, w, t);
    assert BranchAllows(all, t) <==> BranchAllows(input, t);
    BusyRule(table, w, Ids(input.specialists), sp.id, input.day, t);
  }

  lemma CanTakeParts(cat: Catalog, table: seq<Appointment>, w: Wish, id: string, at: int, t: int)
    requires w.branch in cat.branches && at == DayStart(cat, w) + t
    ensures CanTake(cat, table, w, id, at)
            <==> OnTheHalfHour(cat, w, at) && BranchTakes(cat, w, t) && SpecialistTakes(cat, w, id, t)
                 && Unbooked(table, w, id, at)
    ensures BranchCanTake(cat, w, at)
            <==> OnTheHalfHour(cat, w, at) && BranchTakes(cat, w, t) && 0 <= t && t + w.need <= 86_400 * SECOND
  {
    assert at - DayStart(cat, w) == t;
  }

  lemma BookableSound(input: SlotInput, cat: Catalog, table: seq<Appointment>, q: Query, w: Wish, sp: Specialist,
                      t: int, at: int)
    requires InputFor(input, cat, q, w) && Fetched(input, table, w.tenant) && w.need > 0 && at == input.day + t
    requires sp in input.specialists && Bookable(input, sp, t)
    ensures Asked(q.specialist, sp.id) && CanTake(cat, table, w, sp.id, at)
  {
    BookableParts(input, cat, table, q, w, sp, t);
    TakesSound(input, cat, q, w, sp, t);
    assert OnTheHalfHour(cat, w, at) && BranchTakes(cat, w, t) && Unbooked(table, w, sp.id, at);
    CanTakeParts(cat, table, w, sp.id, at, t);
  }

  lemma BookableComplete(input: SlotInput, cat: Catalog, table: seq<Appointment>, q: Query, w: Wish, id: string,
                         t: int, at: int)
    requires InputFor(input, cat, q, w) && Fetched(input, table, w.tenant) && w.need > 0 && at == input.day + t
    requires Asked(q.specialist, id) && CanTake(cat, table, w, id, at)
    ensures BookableFor(input, t, id)
  {
    CanTakeParts(cat, table, w, id, at, t);
    var sp := TakesComplete(input, cat, q, w, id, t);
    BookableParts(input, cat, table, q, w, sp, t);
  }

  /** The engine books a specialist exactly where the rule lets the specialist take the booking. */
  lemma BookableRule(input: SlotInput, cat: Catalog, table: seq<Appointment>, q: Query, w: Wish, id: string, t: int,
                     at: int)
    requires InputFor(input, cat, q, w) && Fetched(input, table, w.tenant) && w.need > 0 && at == input.day + t
    ensures BookableFor(input, t, id) <==> Asked(q.specialist, id) && CanTake(cat, table, w, id, at)
  {
    if sp :| sp in input.specialists && sp.id == id && Bookable(input, sp, t) {
      BookableSound(input, cat, table, q, w, sp, t, at);
    } else if Asked(q.specialist, id) && CanTake(cat, table, w, id, at) {
      BookableComplete(input, cat, table, q, w, id, t, at);
    }
  }

  lemma WideRule(input: SlotInput, cat: Catalog, q: Query, w: Wish, t: int, at: int)
    requires InputFor(input, cat, q, w) && w.need > 0 && at == input.day + t
    ensures BranchBookable(input, t) <==> BranchCanTake(cat, w, at)
  {
    BranchRule(input, cat, q, w, t);
    CanTakeParts(cat, [], w, "", at, t);
  }

  lemma SlotsFollowRule(input: SlotInput, cat: Catalog, table: seq<Appointment>, q: Query, w: Wish, slots: seq<Slot>,
                        t: int, at: int, id: string)
    requires InputFor(input, cat, q, w) && Fetched(input, table, w.tenant) && w.need > 0 && at == input.day + t
    requires Canonical(input, slots)
    ensures if input.requiresSpecialist
            then OffersSpecialist(slots, at, id) <==> Asked(q.specialist, id) && CanTake(cat, table, w, id, at)
            else StartsAt(slots, at) <==> BranchCanTake(cat, w, at)
  {
    if input.requiresSpecialist {
      OffersExactly(input, slots, at, id);
      BookableRule(input, cat, table, q, w, id, t, at);
    } else {
      StartsExactly(input, slots, at);
      WideRule(input, cat, q, w, t, at);
    }
  }

  /** These are the references of the slot at t, if there is one. */
  ghost predicate RefsOfStart(input: SlotInput, t: int, refs: seq<Ref>) {
    if Offers(input, t) then forall r :: multiset(refs)[r] == RefsAt(input, t, r) else refs == []
  }

  lemma NamedIffListed(input: SlotInput, t: int, refs: seq<Ref>, id: string)
    requires input.requiresSpecialist && RefsOfStart(input, t, refs)
    ensures (exists r :: r in refs && r.id == id) <==> ListedFor(input, t, id)
  {
    if r :| r in refs && r.id == id {
      NamedOnInput(input, refs, t, r);
    }
    if sp :| sp in input.specialists && sp.id == id && ListCount(input, sp, t) > 0 {
      RefCountPositive(input, input.specialists, t, RefOf(sp));
      assert multiset(refs)[RefOf(sp)] == RefsAt(input, t, RefOf(sp));
    }
  }

  lemma NamesFollowRule(input: SlotInput, cat: Catalog, table: seq<Appointment>, q: Query, w: Wish, refs: seq<Ref>,
                        t: int, at: int, id: string)
    requires InputFor(input, cat, q, w) && Fetched(input, table, w.tenant) && w.need > 0 && at == input.day + t
    requires RefsOfStart(input, t, refs) && input.requiresSpecialist
    ensures (exists r :: r in refs && r.id == id) <==> Asked(q.specialist, id) && CanTake(cat, table, w, id, at)
  {
    NamedIffListed(input, t, refs, id);
    ListedForIffBookable(input, t, id);
    BookableRule(input, cat, table, q, w, id, t, at);
  }

  lemma StartFollowsRule(input: SlotInput, cat: Catalog, q: Query, w: Wish, t: int, at: int)
    requires InputFor(input, cat, q, w) && w.need > 0 && at == input.day + t && !input.requiresSpecialist
    ensures Offers(input, t) <==> BranchCanTake(cat, w, at)
  {
    OffersIffBookable(input, t);
    WideRule(input, cat, q, w, t, at);
  }

  // ---- The two calls ----

  lemma DayIsFor(st: Store, q: Query, place: Place, extra: int, now: int, w: Wish)
    requires w.branch in st.catalog.branches && place.branch == st.catalog.branches[w.branch]
    requires q == DayQuery(w.tenant, w.branch, place.branch, q.specialist, w.date)
    requires w.need == NeedOf(place.service, extra) && w.now == now
    ensures var input := DayInput(st, q, place, extra, now);
            && InputFor(input, st.catalog, q, w) && Fetched(input, st.appointments, w.tenant)
            && input.requiresSpecialist == place.service.requiresSpecialist
  {
  }

  /** What a list of slots is about. */
  function ListWish(cat: Catalog, req: ListRequest, now: int): Wish
    requires req.date.Some? && req.service in cat.services
  {
    var service := cat.services[req.service];
    Wish(req.tenant, req.branch, req.date.value, (service.durationMinutes + service.bufferMinutes) * 60 * SECOND, now)
  }

  /**
   list_available_slots names a specialist for a start exactly if the call asks for whom the rule lets take a
   booking then; for a service without specialist it lists a start exactly if the branch can take one.
   */
  lemma ListFollowsRule(st: Store, req: ListRequest, now: int, slots: seq<Slot>, at: int, id: string)
    requires ListAnswer(st, req, now, Ok(slots))
    requires req.service in st.catalog.services && req.date.Some? && ListWish(st.catalog, req, now).need > 0
    ensures req.branch in st.catalog.branches
    ensures var w := ListWish(st.catalog, req, now);
            if st.catalog.services[req.service].requiresSpecialist
            then OffersSpecialist(slots, at, id)
                 <==> (req.specialist in ["", id]) && CanTake(st.catalog, st.appointments, w, id, at)
            else StartsAt(slots, at) <==> BranchCanTake(st.catalog, w, at)
  {
    var q, place, w := ListQuery(st.catalog, req), PlaceOf(st.catalog, req.service, req.branch),
                       ListWish(st.catalog, req, now);
    DayIsFor(st, q, place, 0, now, w);
    var input := DayInput(st, q, place, 0, now);
    SlotsFollowRule(input, st.catalog, st.appointments, q, w, slots, at - input.day, at, id);
  }

  /** What a slot check is about. */
  function CheckWish(cat: Catalog, req: CheckRequest, now: int): Wish
    requires req.branch in cat.branches && req.service in cat.services
  {
    var service := cat.services[req.service];
    Wish(req.tenant, req.branch, (req.start + cat.branches[req.branch].offset) / (86_400 * SECOND),
         (service.durationMinutes + req.extraMinutes + service.bufferMinutes) * 60 * SECOND, now)
  }

  lemma CheckHasDetails(st: Store, req: CheckRequest, now: int, c: Check)
    requires CheckAnswer(st, req, now, Ok(c))
    ensures req.branch in st.catalog.branches && req.service in st.catalog.services
    ensures CheckDetails(st, req, PlaceOf(st.catalog, req.service, req.branch), now, c)
  {
  }

  /** What the details of a check say of the engine's input. */
  lemma DetailsOfInput(st: Store, req: CheckRequest, place: Place, now: int, c: Check, input: SlotInput)
    requires CheckDetails(st, req, place, now, c)
    requires input == DayInput(st, CheckQuery(req, place), place, req.extraMinutes, now)
    ensures c.service == place.service && (c.available <==> Offers(input, req.start - input.day))
    ensures RefsOfStart(input, req.start - input.day, c.specialists)
  {
  }

  /** The rule for what a check names and whether it passes. */
  ghost predicate ChecksByRule(st: Store, req: CheckRequest, now: int, c: Check, id: string)
    requires req.branch in st.catalog.branches && req.service in st.catalog.services
  {
    var w := CheckWish(st.catalog, req, now);
    && c.service == st.catalog.services[req.service]
    && if c.service.requiresSpecialist
       then (exists r :: r in c.specialists && r.id == id)
            <==> (req.specialist in ["", id]) && CanTake(st.catalog, st.appointments, w, id, req.start)
       else c.available <==> BranchCanTake(st.catalog, w, req.start)
  }

  lemma InputFollowsRule(st: Store, req: CheckRequest, now: int, c: Check, id: string, input: SlotInput, q: Query)
    requires req.branch in st.catalog.branches && req.service in st.catalog.services
    requires CheckWish(st.catalog, req, now).need > 0 && q.specialist == req.specialist
    requires InputFor(input, st.catalog, q, CheckWish(st.catalog, req, now))
    requires Fetched(input, st.appointments, req.tenant) && input.requiresSpecialist == c.service.requiresSpecialist
    requires c.service == st.catalog.services[req.service] && (c.available <==> Offers(input, req.start - input.day))
    requires RefsOfStart(input, req.start - input.day, c.specialists)
    ensures ChecksByRule(st, req, now, c, id)
  {
    var w, t := CheckWish(st.catalog, req, now), req.start - input.day;
    if c.service.requiresSpecialist {
      NamesFollowRule(input, st.catalog, st.appointments, q, w, c.specialists, t, req.start, id);
    } else {
      StartFollowsRule(input, st.catalog, q, w, t, req.start);
    }
  }

  lemma DetailsFollowRule(st: Store, req: CheckRequest, now: int, c: Check, id: string)
    requires req.branch in st.catalog.branches && req.service in st.catalog.services
    requires CheckDetails(st, req, PlaceOf(st.catalog, req.service, req.branch), now, c)
    requires CheckWish(st.catalog, req, now).need > 0
    ensures ChecksByRule(st, req, now, c, id)
  {
    var place, w := PlaceOf(st.catalog, req.service, req.branch), CheckWish(st.catalog, req, now);
    var q := CheckQuery(req, place);
    var input := DayInput(st, q, place, req.extraMinutes, now);
    DayIsFor(st, q, place, req.extraMinutes, now, w);
    DetailsOfInput(st, req, place, now, c, input);
    InputFollowsRule(st, req, now, c, id, input, q);
  }

  /**
   A slot check names exactly those whom it asks for and the rule lets take the booking, and passes exactly if it
   names someone; for a service without specialist it passes exactly if the branch can take the booking.
   */
  lemma CheckFollowsRule(st: Store, req: CheckRequest, now: int, c: Check, id: string)
    requires CheckAnswer(st, req, now, Ok(c)) && req.branch in st.catalog.branches && req.service in st.catalog.services
    requires CheckWish(st.catalog, req, now).need > 0
    ensures ChecksByRule(st, req, now, c, id)
    ensures c.service.requiresSpecialist ==> (c.available <==> c.specialists != [])
    ensures c.durationMinutes == st.catalog.services[req.service].durationMinutes + req.extraMinutes
  {
    CheckHasDetails(st, req, now, c);
    DetailsFollowRule(st, req, now, c, id);
    if c.available && c.service.requiresSpecialist {
      AvailableNamesSomeone(st, req, now, c);
    }
  }

  // ---- What is refused ----

  /** An active service and an active branch of the tenant. */
  predicate KnownPlace(cat: Catalog, tenant: string, service: string, branch: string) {
    && service in cat.services && cat.services[service].tenant == tenant && cat.services[service].active
    && branch in cat.branches && cat.branches[branch].tenant == tenant && cat.branches[branch].active
  }

  /** The day is today at the branch, or one of the ninety days after it. */
  predicate DayInReach(cat: Catalog, branch: string, date: int, now: int)
    requires branch in cat.branches
  {
    var today := (now + cat.branches[branch].offset) / (86_400 * SECOND);
    today <= date <= today + 90
  }

  /** A list is refused exactly for an unknown place, a day out of reach, or an unknown specialist, in this order. */
  lemma ListErrors(st: Store, req: ListRequest, now: int, r: Result<seq<Slot>, SlotError>)
    requires ListAnswer(st, req, now, r)
    ensures if !KnownPlace(st.catalog, req.tenant, req.service, req.branch) then r == Err(NotFound)
            else if req.date.None? || !DayInReach(st.catalog, req.branch, req.date.value, now)
            then r == Err(InvalidArgument)
            else if req.specialist != "" && !Employed(st.catalog, req.tenant, req.specialist) then r == Err(NotFound)
            else r.Ok?
  {
  }

  /** A slot check also insists on a positive duration and a start that has not gone by. */
  lemma CheckErrors(st: Store, req: CheckRequest, now: int, r: Result<Check, SlotError>)
    requires CheckAnswer(st, req, now, r)
    ensures if !KnownPlace(st.catalog, req.tenant, req.service, req.branch) then r == Err(NotFound)
            else
              var date := (req.start + st.catalog.branches[req.branch].offset) / (86_400 * SECOND);
              if st.catalog.services[req.service].durationMinutes + req.extraMinutes <= 0 || req.start < now
                 || !DayInReach(st.catalog, req.branch, date, now)
              then r == Err(InvalidArgument)
              else if req.specialist != "" && !Employed(st.catalog, req.tenant, req.specialist) then r == Err(NotFound)
              else r.Ok?
  {
  }

  // ---- What a slot says ----

  lemma {:induction false} GroupedNames(cat: Catalog, rows: seq<Row>)
    requires forall i :: 0 <= i < |rows| ==> rows[i].id in cat.profiles && rows[i].name == cat.profiles[rows[i].id].name
    ensures forall sp :: sp in Grouped(rows) ==> sp.id in cat.profiles && sp.name == cat.profiles[sp.id].name
  {
    if rows != [] {
      GroupedNames(cat, rows[..|rows| - 1]);
    }
  }

  lemma SlotOfInput(input: SlotInput, slots: seq<Slot>, k: nat, r: Ref)
    requires Canonical(input, slots) && k < |slots|
    ensures slots[k].end == slots[k].start + input.durationMinutes * 60 * SECOND
    ensures r in slots[k].specialists ==> exists sp :: sp in input.specialists && RefOf(sp) == r
    ensures input.requiresSpecialist ==> slots[k].specialists != []
    ensures SortedRefs(slots[k].specialists) && forall j :: 0 <= j < k ==> slots[j].start < slots[k].start
  {
    var slot, t := slots[k], slots[k].start - input.day;
    assert Described(input, slot) && Offers(input, t);
    assert multiset(slot.specialists)[r] == RefsAt(input, t, r);
    RefCountPositive(input, input.specialists, t, r);
    if input.requiresSpecialist {
      var sp :| sp in input.specialists && ListCount(input, sp, t) > 0;
      ListedSomewhere(input, sp, slot, t);
    }
  }

  /**
   A slot comes after those that start earlier, lasts as long as the service, and names specialists as their profiles
   do, in the order of names and then of ids, and someone if one is needed.
   */
  lemma SlotDetails(st: Store, req: ListRequest, now: int, slots: seq<Slot>, k: nat, r: Ref)
    requires ListAnswer(st, req, now, Ok(slots)) && k < |slots| && req.service in st.catalog.services
    ensures slots[k].end == slots[k].start + st.catalog.services[req.service].durationMinutes * 60 * SECOND
    ensures r in slots[k].specialists ==> r.id in st.catalog.profiles && r.name == st.catalog.profiles[r.id].name
    ensures st.catalog.services[req.service].requiresSpecialist ==> slots[k].specialists != []
    ensures forall j :: 0 <= j < k ==> slots[j].start < slots[k].start
    ensures var refs := slots[k].specialists;
            forall i, j :: 0 <= i < j < |refs| ==>
                             || (refs[i].name == refs[j].name && StringLeq(refs[i].id, refs[j].id))
                             || (refs[i].name != refs[j].name && StringLeq(refs[i].name, refs[j].name))
  {
    var q, place := ListQuery(st.catalog, req), PlaceOf(st.catalog, req.service, req.branch);
    QueryNames(st.catalog, q, st.catalog.schedules);
    GroupedNames(st.catalog, ScheduleQuery(st.catalog, q, st.catalog.schedules));
    SlotOfInput(DayInput(st, q, place, 0, now), slots, k, r);
  }
}
