/**
 The scheduling data of one branch and one local day, and the room it leaves: shifts and breaks, branch
 hours, schedule exceptions and busy appointments (internal/application/business/slots.go:48-243).

 Each stage comes as a function that says which windows it produces, a method with the program's own
 loops that produces them, and a lemma that says what those windows mean.
 */
module Schedule {
  import opened Base
  import opened Intervals

  // An offset from local midnight; "24:00" is a legal clock.
  type Offset = x: int | 0 <= x <= DAY

  // A parsed clock text; None is a text that does not parse.
  type Clock = Option<Offset>

  const SPECIAL_HOURS := "special_hours"

  datatype DayHours = DayHours(restricted: bool, closed: bool, open: int, close: int)

  datatype Shift = Shift(start: Clock, end: Clock, breakStart: Option<Clock>, breakEnd: Option<Clock>)

  datatype Specialist = Specialist(id: string, name: string, shifts: seq<Shift>)

  // specialist is None for an exception of the whole branch; start and end are None when not stored.
  datatype Exception = Exception(specialist: Option<string>, kind: string, start: Option<Clock>, end: Option<Clock>,
                                 dayOff: bool)

  // An existing appointment of a specialist, as instants.
  datatype Busy = Busy(specialist: string, start: int, end: int)

  // day is the instant of local midnight.
  datatype SlotInput = SlotInput(day: int, now: int, durationMinutes: int, bufferMinutes: int, requiresSpecialist: bool,
                                 branchHours: DayHours, specialists: seq<Specialist>, exceptions: seq<Exception>,
                                 busy: seq<Busy>)
  {
    /** Length of the room a booking takes: service duration and buffer. */
    function Need(): int { (durationMinutes + bufferMinutes) * MINUTE }
  }

  // ---- Exceptions ----

  predicate Blocking(kind: string) { kind in ["vacation", "sick", "holiday"] }

  function Hours(ex: Exception): Option<Interval> {
    match (ex.start, ex.end)
    case (Some(Some(start)), Some(Some(end))) => if end <= start then None else Some(Interval(start, end))
    case _ => None
  }

  // special replaces the regular hours when set.
  datatype Effect = Effect(special: Option<Interval>, dayOff: bool, blocks: seq<Interval>)

  function Extended(e: Effect, ex: Exception): Effect {
    var hours := Hours(ex);
    if ex.kind == SPECIAL_HOURS && hours.Some? && !ex.dayOff then e.(special := hours)
    else if ex.dayOff || (Blocking(ex.kind) && hours.None?) then e.(dayOff := true)
    else if Blocking(ex.kind) then e.(blocks := e.blocks + [hours.value])
    else e
  }

  /** The effect of the exceptions of a specialist, or of the branch for None, in their order. */
  function Effects(exs: seq<Exception>, who: Option<string>): Effect {
    if exs == [] then Effect(None, false, [])
    else
      var e := Effects(exs[..|exs| - 1], who);
      if exs[|exs| - 1].specialist == who then Extended(e, exs[|exs| - 1]) else e
  }

  method EffectOf(exs: seq<Exception>, who: Option<string>) returns (effect: Effect)
    ensures effect == Effects(exs, who)
  {
    effect := Effect(None, false, []);
    for i := 0 to |exs|
      invariant effect == Effects(exs[..i], who)
    {
      assert exs[..i + 1][..i] == exs[..i];
      var ex := exs[i];
      if ex.specialist != who {
        continue;
      }
      var hours := Hours(ex);
      if ex.kind == SPECIAL_HOURS && hours.Some? && !ex.dayOff {
        effect := effect.(special := hours);
      } else if ex.dayOff || (Blocking(ex.kind) && hours.None?) {
        effect := effect.(dayOff := true);
      } else if Blocking(ex.kind) {
        effect := effect.(blocks := effect.blocks + [hours.value]);
      }
    }
    assert exs[..|exs|] == exs;
  }

  predicate ClosesDay(ex: Exception) { ex.dayOff || (Blocking(ex.kind) && Hours(ex).None?) }

  predicate ReplacesHours(ex: Exception) { !ex.dayOff && ex.kind == SPECIAL_HOURS && Hours(ex).Some? }

  predicate BlocksHours(ex: Exception) { !ex.dayOff && Blocking(ex.kind) && Hours(ex).Some? }

  /** Some exception of who takes the whole day. */
  ghost predicate DayOff(exs: seq<Exception>, who: Option<string>) {
    exists i :: 0 <= i < |exs| && exs[i].specialist == who && ClosesDay(exs[i])
  }

  /** Entry k is the last special-hours entry of who. */
  ghost predicate LastSpecial(exs: seq<Exception>, who: Option<string>, k: int) {
    && 0 <= k < |exs| && exs[k].specialist == who && ReplacesHours(exs[k])
    && forall j :: k < j < |exs| && exs[j].specialist == who ==> !ReplacesHours(exs[j])
  }

  /** No timed absence of who meets [t, t + need). */
  ghost predicate MissesBlocks(exs: seq<Exception>, who: Option<string>, t: int, need: int) {
    forall i :: 0 <= i < |exs| && exs[i].specialist == who && BlocksHours(exs[i]) ==>
                  Misses(Hours(exs[i]).value, t, need)
  }

  lemma {:induction false} DayOffMeaning(exs: seq<Exception>, who: Option<string>)
    ensures Effects(exs, who).dayOff <==> DayOff(exs, who)
  {
    if exs != [] {
      var n := |exs| - 1;
      DayOffMeaning(exs[..n], who);
      if DayOff(exs[..n], who) {
        var i :| 0 <= i < n && exs[..n][i].specialist == who && ClosesDay(exs[..n][i]);
        assert exs[i].specialist == who && ClosesDay(exs[i]);
      } else {
        assert forall i :: 0 <= i < n ==> exs[..n][i] == exs[i];
        assert forall i :: 0 <= i < n && exs[..n][i].specialist == who ==> !ClosesDay(exs[..n][i]);
      }
    }
  }

  /** The last special entry wins. */
  lemma {:induction false} SpecialMeaning(exs: seq<Exception>, who: Option<string>)
    ensures Effects(exs, who).special.Some? ==>
              exists k :: LastSpecial(exs, who, k) && Effects(exs, who).special == Hours(exs[k])
    ensures forall k :: LastSpecial(exs, who, k) ==> Effects(exs, who).special == Hours(exs[k])
  {
    if exs != [] {
      var n := |exs| - 1;
      SpecialMeaning(exs[..n], who);
      assert forall i :: 0 <= i < n ==> exs[..n][i] == exs[i];
      if exs[n].specialist == who && ReplacesHours(exs[n]) {
        assert LastSpecial(exs, who, n);
        assert forall k :: LastSpecial(exs, who, k) ==> k == n;
      } else {
        assert forall k :: LastSpecial(exs, who, k) ==> LastSpecial(exs[..n], who, k);
        if Effects(exs, who).special.Some? {
          var k :| LastSpecial(exs[..n], who, k) && Effects(exs[..n], who).special == Hours(exs[..n][k]);
          assert LastSpecial(exs, who, k);
        }
      }
    }
  }

  lemma {:induction false} BlocksMeaning(exs: seq<Exception>, who: Option<string>, t: int, need: int)
    ensures MissesAll(Effects(exs, who).blocks, t, need) <==> MissesBlocks(exs, who, t, need)
    ensures Ordered(Effects(exs, who).blocks)
  {
    if exs != [] {
      var n := |exs| - 1;
      BlocksMeaning(exs[..n], who, t, need);
      assert forall i :: 0 <= i < n ==> exs[..n][i] == exs[i];
      assert MissesBlocks(exs, who, t, need) ==> MissesBlocks(exs[..n], who, t, need);
      if exs[n].specialist == who && BlocksHours(exs[n]) {
        var blocks := Effects(exs, who).blocks;
        assert blocks == Effects(exs[..n], who).blocks + [Hours(exs[n]).value];
        assert blocks[..|blocks| - 1] == Effects(exs[..n], who).blocks;
        MissesAllButLast(blocks, t, need);
        if MissesAll(blocks, t, need) {
          forall i | 0 <= i < |exs| && exs[i].specialist == who && BlocksHours(exs[i])
            ensures Misses(Hours(exs[i]).value, t, need)
          {
            assert i < n ==> exs[..n][i] == exs[i];
          }
        }
      } else if MissesBlocks(exs[..n], who, t, need) {
        forall i | 0 <= i < |exs| && exs[i].specialist == who && BlocksHours(exs[i])
          ensures Misses(Hours(exs[i]).value, t, need)
        {
          assert exs[..n][i] == exs[i];
        }
      }
    }
  }

  // ---- Branch ----

  datatype BranchDay = Shut | Open(hours: DayHours, blocks: seq<Interval>)

  function BranchConstraints(input: SlotInput): BranchDay {
    var effect := Effects(input.exceptions, None);
    if effect.dayOff then Shut
    else
      var hours := if effect.special.Some?
                   then DayHours(true, false, effect.special.value.start, effect.special.value.end)
                   else input.branchHours;
      if hours.restricted && hours.closed then Shut else Open(hours, effect.blocks)
  }

  function BranchRoom(ws: seq<Interval>, branch: BranchDay): seq<Interval>
    requires branch.Open?
  {
    var hours := branch.hours;
    SubtractedAll(if hours.restricted then Intersected(ws, Interval(hours.open, hours.close)) else ws,
                  branch.blocks)
  }

  method ApplyBranch(windows: seq<Interval>, branch: BranchDay) returns (out: seq<Interval>)
    requires branch.Open?
    ensures out == BranchRoom(windows, branch)
  {
    out := windows;
    if branch.hours.restricted {
      out := Intersect(out, Interval(branch.hours.open, branch.hours.close));
    }
    out := SubtractAll(out, branch.blocks);
  }

  /**
   The branch works that day and [t, t + need) lies in its hours, which the last special-hours entry
   replaces (even on a closed day), and misses its timed absences.
   */
  ghost predicate BranchAllows(input: SlotInput, t: int) {
    && !DayOff(input.exceptions, None)
    && MissesBlocks(input.exceptions, None, t, input.Need())
    && (if exists k :: LastSpecial(input.exceptions, None, k)
        then exists k :: && LastSpecial(input.exceptions, None, k)
                         && Fits(Hours(input.exceptions[k]).value, t, input.Need())
        else input.branchHours.restricted ==>
            !input.branchHours.closed
            && Fits(Interval(input.branchHours.open, input.branchHours.close), t, input.Need()))
  }

  lemma BranchMeaning(input: SlotInput, ws: seq<Interval>, t: int)
    requires input.Need() > 0
    ensures var branch := BranchConstraints(input);
            (if branch.Open? then FitCount(BranchRoom(ws, branch), t, input.Need()) else 0)
            == if BranchAllows(input, t) then FitCount(ws, t, input.Need()) else 0
  {
    var need, branch, exs := input.Need(), BranchConstraints(input), input.exceptions;
    DayOffMeaning(exs, None);
    BlocksMeaning(exs, None, t, need);
    SpecialMeaning(exs, None);
    if branch.Open? {
      var limit := Interval(branch.hours.open, branch.hours.close);
      var clipped := if branch.hours.restricted then Intersected(ws, limit) else ws;
      IntersectedCount(ws, limit, t, need);
      SubtractedAllCount(clipped, branch.blocks, t, need);
    }
  }

  // ---- Specialists ----

  predicate ValidShift(sh: Shift) { sh.start.Some? && sh.end.Some? && sh.end.value > sh.start.value }

  function Break(sh: Shift): Option<Interval> {
    match (sh.breakStart, sh.breakEnd)
    case (Some(Some(start)), Some(Some(end))) => if end > start then Some(Interval(start, end)) else None
    case _ => None
  }

  /** The list out, followed by what the break leaves of a shift; a malformed shift adds nothing. */
  function ShiftOnto(out: seq<Interval>, sh: Shift): seq<Interval> {
    if !ValidShift(sh) then out
    else
      var w := Interval(sh.start.value, sh.end.value);
      if Break(sh).Some? then WithRest(out, w, Break(sh).value) else out + [w]
  }

  function ShiftRoom(sh: Shift): seq<Interval> { ShiftOnto([], sh) }

  method ShiftWindows(sh: Shift) returns (windows: seq<Interval>)
    ensures windows == ShiftRoom(sh)
  {
    if sh.start.None? || sh.end.None? || sh.end.value <= sh.start.value {
      return [];
    }
    windows := [Interval(sh.start.value, sh.end.value)];
    assert windows[..0] == [] && [] + windows == windows;
    if sh.breakStart.None? || sh.breakEnd.None? {
      return;
    }
    var breakStart, breakEnd := sh.breakStart.value, sh.breakEnd.value;
    if breakStart.Some? && breakEnd.Some? && breakEnd.value > breakStart.value {
      windows := Subtract(windows, Interval(breakStart.value, breakEnd.value));
    }
  }

  /** [t, t + need) lies inside this one shift and misses this shift's own break. */
  predicate ShiftHolds(sh: Shift, t: int, need: int) {
    && ValidShift(sh)
    && Fits(Interval(sh.start.value, sh.end.value), t, need)
    && (Break(sh).Some? ==> Misses(Break(sh).value, t, need))
  }

  lemma ShiftOntoCount(out: seq<Interval>, sh: Shift, t: int, need: int)
    requires need > 0
    ensures FitCount(ShiftOnto(out, sh), t, need) == FitCount(out, t, need) + if ShiftHolds(sh, t, need) then 1 else 0
  {
    if ValidShift(sh) {
      var w := Interval(sh.start.value, sh.end.value);
      FitCountOneMore(out, w, t, need);
      if Break(sh).Some? {
        WithRestCount(out, w, Break(sh).value, t, need);
      }
    }
  }

  lemma ShiftMeaning(sh: Shift, t: int, need: int)
    requires need > 0
    ensures FitCount(ShiftRoom(sh), t, need) == if ShiftHolds(sh, t, need) then 1 else 0
  {
    ShiftOntoCount([], sh, t, need);
  }

  lemma ShiftOntoAppends(out: seq<Interval>, sh: Shift)
    ensures ShiftOnto(out, sh) == out + ShiftRoom(sh)
  {
  }

  function ShiftsRoom(shifts: seq<Shift>): seq<Interval> {
    if shifts == [] then [] else ShiftOnto(ShiftsRoom(shifts[..|shifts| - 1]), shifts[|shifts| - 1])
  }

  /** Number of shifts that hold [t, t + need). */
  function ShiftCount(shifts: seq<Shift>, t: int, need: int): nat {
    if shifts == [] then 0
    else ShiftCount(shifts[..|shifts| - 1], t, need) + if ShiftHolds(shifts[|shifts| - 1], t, need) then 1 else 0
  }

  lemma {:induction false} ShiftsMeaning(shifts: seq<Shift>, t: int, need: int)
    requires need > 0
    ensures FitCount(ShiftsRoom(shifts), t, need) == ShiftCount(shifts, t, need)
  {
    if shifts != [] {
      var n := |shifts| - 1;
      ShiftsMeaning(shifts[..n], t, need);
      ShiftOntoCount(ShiftsRoom(shifts[..n]), shifts[n], t, need);
    }
  }

  lemma {:induction false} ShiftCountPositive(shifts: seq<Shift>, t: int, need: int)
    ensures ShiftCount(shifts, t, need) > 0 <==> exists i :: 0 <= i < |shifts| && ShiftHolds(shifts[i], t, need)
  {
    if shifts != [] {
      var n := |shifts| - 1;
      ShiftCountPositive(shifts[..n], t, need);
      assert forall i :: 0 <= i < n ==> shifts[..n][i] == shifts[i];
      if exists i :: 0 <= i < n && ShiftHolds(shifts[..n][i], t, need) {
        var i :| 0 <= i < n && ShiftHolds(shifts[..n][i], t, need);
        assert ShiftHolds(shifts[i], t, need);
      } else {
        assert forall i :: 0 <= i < n ==> !ShiftHolds(shifts[..n][i], t, need);
      }
    }
  }

  function SpecialistRoom(exs: seq<Exception>, sp: Specialist): seq<Interval> {
    var effect := Effects(exs, Some(sp.id));
    if effect.dayOff then []
    else SubtractedAll(if effect.special.Some? then [effect.special.value] else ShiftsRoom(sp.shifts), effect.blocks)
  }

  method SpecialistWindows(exs: seq<Exception>, sp: Specialist) returns (windows: seq<Interval>, ok: bool)
    ensures windows == SpecialistRoom(exs, sp) && ok == (windows != [])
  {
    var effect := EffectOf(exs, Some(sp.id));
    if effect.dayOff {
      return [], false;
    }
    windows := [];
    if effect.special.Some? {
      windows := [effect.special.value];
    } else {
      for i := 0 to |sp.shifts|
        invariant windows == ShiftsRoom(sp.shifts[..i])
      {
        assert sp.shifts[..i + 1][..i] == sp.shifts[..i];
        var more := ShiftWindows(sp.shifts[i]);
        ShiftOntoAppends(windows, sp.shifts[i]);
        windows := windows + more;
      }
      assert sp.shifts[..|sp.shifts|] == sp.shifts;
    }
    windows := SubtractAll(windows, effect.blocks);
    ok := |windows| > 0;
  }

  /** Number of base intervals that hold [t, t + need): the special hours of the day, or else the shifts. */
  function BaseCount(exs: seq<Exception>, sp: Specialist, t: int, need: int): nat {
    var special := Effects(exs, Some(sp.id)).special;
    if special.Some? then (if Fits(special.value, t, need) then 1 else 0) else ShiftCount(sp.shifts, t, need)
  }

  /** [t, t + need) lies inside one base interval: the last special hours if there are any, else one shift. */
  ghost predicate InsideBase(exs: seq<Exception>, sp: Specialist, t: int, need: int) {
    if exists k :: LastSpecial(exs, Some(sp.id), k)
    then exists k :: LastSpecial(exs, Some(sp.id), k) && Fits(Hours(exs[k]).value, t, need)
    else exists i :: 0 <= i < |sp.shifts| && ShiftHolds(sp.shifts[i], t, need)
  }

  lemma BaseMeaning(exs: seq<Exception>, sp: Specialist, t: int, need: int)
    ensures BaseCount(exs, sp, t, need) > 0 <==> InsideBase(exs, sp, t, need)
  {
    SpecialMeaning(exs, Some(sp.id));
    ShiftCountPositive(sp.shifts, t, need);
  }

  /** The specialist works at that time, as far as the specialist's own schedule and absences go. */
  ghost predicate PersonallyFree(exs: seq<Exception>, sp: Specialist, t: int, need: int) {
    !DayOff(exs, Some(sp.id)) && MissesBlocks(exs, Some(sp.id), t, need)
  }

  lemma SpecialistMeaning(exs: seq<Exception>, sp: Specialist, t: int, need: int)
    requires need > 0
    ensures FitCount(SpecialistRoom(exs, sp), t, need)
            == if PersonallyFree(exs, sp, t, need) then BaseCount(exs, sp, t, need) else 0
  {
    var effect := Effects(exs, Some(sp.id));
    DayOffMeaning(exs, Some(sp.id));
    BlocksMeaning(exs, Some(sp.id), t, need);
    ShiftsMeaning(sp.shifts, t, need);
    if effect.special.Some? {
      FitCountSmall(effect.special.value, t, need);
    }
    var base := if effect.special.Some? then [effect.special.value] else ShiftsRoom(sp.shifts);
    SubtractedAllCount(base, effect.blocks, t, need);
  }

  // ---- Busy time ----

  /** An appointment as offsets from local midnight. */
  function CutOf(b: Busy, day: int): Interval { Interval(b.start - day, b.end - day) }

  /** The windows without the appointments of one specialist. */
  function WithoutBusy(ws: seq<Interval>, busy: seq<Busy>, id: string, day: int): seq<Interval> {
    if busy == [] then ws
    else
      var left, b := WithoutBusy(ws, busy[..|busy| - 1], id, day), busy[|busy| - 1];
      if b.specialist == id then Subtracted(left, CutOf(b, day)) else left
  }

  lemma WithoutOneMore(ws: seq<Interval>, busy: seq<Busy>, b: Busy, id: string, day: int)
    ensures WithoutBusy(ws, busy + [b], id, day)
            == if b.specialist == id then Subtracted(WithoutBusy(ws, busy, id, day), CutOf(b, day))
               else WithoutBusy(ws, busy, id, day)
  {
    assert (busy + [b])[..|busy|] == busy;
  }

  method SubtractBusy(windows: seq<Interval>, busy: seq<Busy>, id: string, day: int) returns (out: seq<Interval>)
    ensures out == WithoutBusy(windows, busy, id, day)
  {
    out := windows;
    for j := 0 to |busy|
      invariant out == WithoutBusy(windows, busy[..j], id, day)
    {
      WithoutOneMore(windows, busy[..j], busy[j], id, day);
      assert busy[..j + 1] == busy[..j] + [busy[j]];
      if busy[j].specialist == id {
        out := Subtract(out, CutOf(busy[j], day));
      }
    }
    assert busy[..|busy|] == busy;
  }

  /** No appointment of the specialist meets [t, t + need); an appointment is taken without its own buffer. */
  ghost predicate MissesBusy(busy: seq<Busy>, id: string, day: int, t: int, need: int) {
    forall b :: b in busy && b.specialist == id ==> Misses(CutOf(b, day), t, need)
  }

  ghost predicate OrderedBusy(busy: seq<Busy>) { forall b :: b in busy ==> b.start <= b.end }

  lemma MissesOneMore(busy: seq<Busy>, b: Busy, id: string, day: int, t: int, need: int)
    ensures MissesBusy(busy + [b], id, day, t, need)
            <==> MissesBusy(busy, id, day, t, need) && (b.specialist == id ==> Misses(CutOf(b, day), t, need))
    ensures OrderedBusy(busy + [b]) <==> OrderedBusy(busy) && b.start <= b.end
  {
    assert forall x :: x in busy + [b] <==> x in busy || x == b;
  }

  lemma {:induction false} BusyMeaning(ws: seq<Interval>, busy: seq<Busy>, id: string, day: int, t: int, need: int)
    requires need > 0
    ensures FitCount(WithoutBusy(ws, busy, id, day), t, need) > 0
            <==> FitCount(ws, t, need) > 0 && MissesBusy(busy, id, day, t, need)
    ensures OrderedBusy(busy) ==>
              FitCount(WithoutBusy(ws, busy, id, day), t, need)
              == if MissesBusy(busy, id, day, t, need) then FitCount(ws, t, need) else 0
  {
    if busy != [] {
      var n := |busy| - 1;
      assert busy == busy[..n] + [busy[n]];
      BusyMeaning(ws, busy[..n], id, day, t, need);
      WithoutOneMore(ws, busy[..n], busy[n], id, day);
      MissesOneMore(busy[..n], busy[n], id, day, t, need);
      SubtractedCount(WithoutBusy(ws, busy[..n], id, day), CutOf(busy[n], day), t, need);
    }
  }

  lemma {:induction false} WithoutBusyWithin(ws: seq<Interval>, busy: seq<Busy>, id: string, day: int, lo: int, hi: int)
    requires Within(ws, lo, hi)
    ensures Within(WithoutBusy(ws, busy, id, day), lo, hi)
  {
    if busy != [] {
      var n := |busy| - 1;
      WithoutBusyWithin(ws, busy[..n], id, day, lo, hi);
      SubtractedWithin(WithoutBusy(ws, busy[..n], id, day), CutOf(busy[n], day), lo, hi);
    }
  }

  // ---- Everything together ----

  /** The windows of a specialist from which candidate starts are taken; none when the branch is shut. */
  function Room(input: SlotInput, sp: Specialist): seq<Interval> {
    var branch := BranchConstraints(input);
    if branch.Shut? then []
    else WithoutBusy(BranchRoom(SpecialistRoom(input.exceptions, sp), branch), input.busy, sp.id, input.day)
  }

  /** Every condition on [t, t + need) other than lying inside a base interval. */
  ghost predicate Unhindered(input: SlotInput, sp: Specialist, t: int) {
    && BranchAllows(input, t)
    && PersonallyFree(input.exceptions, sp, t, input.Need())
    && MissesBusy(input.busy, sp.id, input.day, t, input.Need())
  }

  lemma RoomMeaning(input: SlotInput, sp: Specialist, t: int)
    requires input.Need() > 0
    ensures FitCount(Room(input, sp), t, input.Need()) > 0
            <==> Unhindered(input, sp, t) && InsideBase(input.exceptions, sp, t, input.Need())
    ensures OrderedBusy(input.busy) ==>
              FitCount(Room(input, sp), t, input.Need())
              == if Unhindered(input, sp, t) then BaseCount(input.exceptions, sp, t, input.Need()) else 0
  {
    var need, own, branch := input.Need(), SpecialistRoom(input.exceptions, sp), BranchConstraints(input);
    BaseMeaning(input.exceptions, sp, t, need);
    SpecialistMeaning(input.exceptions, sp, t, need);
    BranchMeaning(input, own, t);
    if branch.Open? {
      BusyMeaning(BranchRoom(own, branch), input.busy, sp.id, input.day, t, need);
    }
  }

  // ---- Every window lies within the day ----

  lemma {:induction false} ShiftsWithinDay(shifts: seq<Shift>)
    ensures Within(ShiftsRoom(shifts), 0, DAY)
  {
    if shifts != [] {
      var n := |shifts| - 1;
      ShiftsWithinDay(shifts[..n]);
    }
  }

  lemma SpecialistWithinDay(exs: seq<Exception>, sp: Specialist)
    ensures Within(SpecialistRoom(exs, sp), 0, DAY)
  {
    var effect := Effects(exs, Some(sp.id));
    SpecialMeaning(exs, Some(sp.id));
    ShiftsWithinDay(sp.shifts);
    var base := if effect.special.Some? then [effect.special.value] else ShiftsRoom(sp.shifts);
    SubtractedAllWithin(base, effect.blocks, 0, DAY);
  }

  lemma BranchWithinDay(ws: seq<Interval>, branch: BranchDay)
    requires branch.Open? && Within(ws, 0, DAY)
    ensures Within(BranchRoom(ws, branch), 0, DAY)
  {
    var limit := Interval(branch.hours.open, branch.hours.close);
    IntersectedWithin(ws, limit, 0, DAY);
    SubtractedAllWithin(if branch.hours.restricted then Intersected(ws, limit) else ws, branch.blocks, 0, DAY);
  }

  lemma RoomWithinDay(input: SlotInput, sp: Specialist)
    ensures Within(Room(input, sp), 0, DAY)
  {
    var branch := BranchConstraints(input);
    if branch.Open? {
      SpecialistWithinDay(input.exceptions, sp);
      BranchWithinDay(SpecialistRoom(input.exceptions, sp), branch);
      WithoutBusyWithin(BranchRoom(SpecialistRoom(input.exceptions, sp), branch), input.busy, sp.id, input.day, 0, DAY);
    }
  }
}
