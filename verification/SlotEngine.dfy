/**
 The slot engine: candidate starts on the 30-minute grid, gathered per start and listed in order
 (internal/application/business/slots.go:48-108 and 226-243).
 */
module SlotEngine {
  import opened Base
  import opened Intervals
  import opened Schedule
  import opened Sorting

  const STEP := 30 * MINUTE

  // start and end are instants.
  datatype Slot = Slot(start: int, end: int, specialists: seq<Ref>)

  // ---- Candidate starts ----

  predicate OnGrid(t: int) { t % STEP == 0 }

  /** Rounding toward zero to a multiple of the step, as time.Duration.Truncate does. */
  function Truncated(d: int): int {
    if d >= 0 then d - d % STEP else -(-d - (-d) % STEP)
  }

  function FirstGrid(d: int): int {
    var t := Truncated(d);
    if t < d then t + STEP else t
  }

  lemma MultipleOnGrid(k: int)
    ensures OnGrid(k * STEP)
  {
  }

  lemma FirstGridNear(d: int)
    ensures OnGrid(FirstGrid(d)) && d <= FirstGrid(d) < d + STEP
  {
    var k := if d >= 0 then d / STEP else -((-d) / STEP);
    assert Truncated(d) == k * STEP;
    MultipleOnGrid(k);
    MultipleOnGrid(k + 1);
  }

  lemma GridGap(a: int, b: int)
    requires OnGrid(a) && OnGrid(b) && b < a
    ensures b + STEP <= a
  {
    assert a == STEP * (a / STEP) && b == STEP * (b / STEP);
  }

  /** The loop starts at the least grid point of the window, also for a negative offset. */
  lemma FirstGridLeast(d: int)
    ensures OnGrid(FirstGrid(d)) && d <= FirstGrid(d)
    ensures forall t :: OnGrid(t) && d <= t ==> FirstGrid(d) <= t
  {
    FirstGridNear(d);
    var first := FirstGrid(d);
    forall t | OnGrid(t) && d <= t ensures first <= t {
      if t < first {
        GridGap(first, t);
      }
    }
  }

  /** How many windows offer the start t: only grid points that have not gone by count. */
  function StartCount(input: SlotInput, ws: seq<Interval>, t: int): nat {
    if OnGrid(t) && input.day + t >= input.now then FitCount(ws, t, input.Need()) else 0
  }

  /** The window offers the start u. */
  predicate StartsIn(input: SlotInput, w: Interval, u: int) {
    OnGrid(u) && input.day + u >= input.now && Fits(w, u, input.Need())
  }

  /** The next grid point after t is t + STEP. */
  lemma GridStep(t: int)
    requires OnGrid(t)
    ensures OnGrid(t + STEP) && forall u :: OnGrid(u) ==> (u < t + STEP <==> u < t || u == t)
  {
    forall u | OnGrid(u) ensures u < t + STEP <==> u < t || u == t {
      if u > t {
        GridGap(u, t);
      }
    }
  }

  /** The inner loop: the starts of one window are appended. */
  method WindowStarts(input: SlotInput, w: Interval, before: seq<int>) returns (starts: seq<int>)
    ensures forall u :: multiset(starts)[u] == multiset(before)[u] + if StartsIn(input, w, u) then 1 else 0
  {
    starts := before;
    var need := input.Need();
    var t := Truncated(w.start);
    if t < w.start {
      t := t + STEP;
    }
    FirstGridLeast(w.start);
    while t + need <= w.end
      invariant OnGrid(t) && w.start <= t
      invariant forall u :: multiset(starts)[u] == multiset(before)[u] + if StartsIn(input, w, u) && u < t then 1 else 0
      decreases w.end - need - t
    {
      GridStep(t);
      assert StartsIn(input, w, t) <==> input.day + t >= input.now;
      if input.day + t >= input.now {
        starts := starts + [t];
      }
      t := t + STEP;
    }
  }

  lemma StartCountStep(input: SlotInput, ws: seq<Interval>, i: nat)
    requires i < |ws|
    ensures forall t :: StartCount(input, ws[..i + 1], t) == StartCount(input, ws[..i], t)
                                               + if StartsIn(input, ws[i], t) then 1 else 0
  {
    assert ws[..i + 1][..i] == ws[..i];
  }

  method CandidateStarts(input: SlotInput, windows: seq<Interval>) returns (starts: seq<int>)
    ensures forall t :: multiset(starts)[t] == StartCount(input, windows, t)
  {
    starts := [];
    for i := 0 to |windows|
      invariant forall t :: multiset(starts)[t] == StartCount(input, windows[..i], t)
    {
      starts := WindowStarts(input, windows[i], starts);
      StartCountStep(input, windows, i);
    }
    assert windows[..|windows|] == windows;
  }

  // ---- Gathering per start ----

  function RefOf(sp: Specialist): Ref { Ref(sp.id, sp.name) }

  /** Windows for a service without specialist: the whole day within the branch's limits. */
  function WideRoom(input: SlotInput): seq<Interval> {
    var branch := BranchConstraints(input);
    if branch.Shut? then [] else BranchRoom([Interval(0, DAY)], branch)
  }

  /** How often the engine lists a specialist at t. */
  function ListCount(input: SlotInput, sp: Specialist, t: int): nat {
    StartCount(input, Room(input, sp), t)
  }

  /** How often the engine lists a reference at t. */
  function RefCount(input: SlotInput, sps: seq<Specialist>, t: int, r: Ref): nat {
    if sps == [] then 0
    else
      var sp := sps[|sps| - 1];
      RefCount(input, sps[..|sps| - 1], t, r) + if RefOf(sp) == r then ListCount(input, sp, t) else 0
  }

  ghost predicate ListedBySome(input: SlotInput, sps: seq<Specialist>, t: int) {
    exists sp :: sp in sps && ListCount(input, sp, t) > 0
  }

  function At(bySlot: map<int, seq<Ref>>, t: int): seq<Ref> { if t in bySlot then bySlot[t] else [] }

  /** The engine offers the start t. */
  ghost predicate Offers(input: SlotInput, t: int) {
    if input.requiresSpecialist then ListedBySome(input, input.specialists, t)
    else StartCount(input, WideRoom(input), t) > 0
  }

  /** How often the engine lists a reference in the slot at t: never for a service without specialist. */
  function RefsAt(input: SlotInput, t: int, r: Ref): nat {
    if input.requiresSpecialist then RefCount(input, input.specialists, t, r) else 0
  }

  ghost predicate Gathered(input: SlotInput, bySlot: map<int, seq<Ref>>) {
    && (forall t :: t in bySlot <==> Offers(input, t))
    && (forall t, r :: t in bySlot ==> multiset(bySlot[t])[r] == RefsAt(input, t, r))
  }

  /** The map after a reference was appended at one offset. */
  lemma AppendedAt(bySlot: map<int, seq<Ref>>, at: int, r: Ref)
    ensures var out := bySlot[at := At(bySlot, at) + [r]];
            forall t, x :: multiset(At(out, t))[x] == multiset(At(bySlot, t))[x] + if t == at && x == r then 1 else 0
  {
  }

  method AddStarts(bySlot: map<int, seq<Ref>>, starts: seq<int>, r: Ref) returns (out: map<int, seq<Ref>>)
    ensures forall t :: t in out <==> t in bySlot || multiset(starts)[t] > 0
    ensures forall t, x :: multiset(At(out, t))[x]
                           == multiset(At(bySlot, t))[x] + if x == r then multiset(starts)[t] else 0
  {
    out := bySlot;
    for i := 0 to |starts|
      invariant forall t :: t in out <==> t in bySlot || multiset(starts[..i])[t] > 0
      invariant forall t, x :: multiset(At(out, t))[x]
                               == multiset(At(bySlot, t))[x] + if x == r then multiset(starts[..i])[t] else 0
    {
      assert starts[..i + 1] == starts[..i] + [starts[i]];
      AppendedAt(out, starts[i], r);
      out := out[starts[i] := At(out, starts[i]) + [r]];
    }
    assert starts[..|starts|] == starts;
  }

  lemma {:induction false} NothingSubtracted(cuts: seq<Interval>)
    ensures SubtractedAll([], cuts) == []
  {
    if cuts != [] {
      NothingSubtracted(cuts[..|cuts| - 1]);
    }
  }

  lemma {:induction false} NothingOccupied(busy: seq<Busy>, id: string, day: int)
    ensures WithoutBusy([], busy, id, day) == []
  {
    if busy != [] {
      NothingOccupied(busy[..|busy| - 1], id, day);
    }
  }

  /** A specialist without windows of their own is listed nowhere. */
  lemma NoRoom(input: SlotInput, sp: Specialist)
    requires SpecialistRoom(input.exceptions, sp) == []
    ensures forall t :: ListCount(input, sp, t) == 0
  {
    var branch := BranchConstraints(input);
    if branch.Open? {
      NothingSubtracted(branch.blocks);
      NothingOccupied(input.busy, sp.id, input.day);
    }
  }

  method SpecialistStarts(input: SlotInput, branch: BranchDay, sp: Specialist) returns (starts: seq<int>)
    requires branch == BranchConstraints(input) && branch.Open?
    ensures forall t :: multiset(starts)[t] == ListCount(input, sp, t)
  {
    var windows, ok := SpecialistWindows(input.exceptions, sp);
    if !ok {
      NoRoom(input, sp);
      return [];
    }
    windows := ApplyBranch(windows, branch);
    windows := SubtractBusy(windows, input.busy, sp.id, input.day);
    starts := CandidateStarts(input, windows);
  }

  lemma RefCountStep(input: SlotInput, sps: seq<Specialist>, sp: Specialist)
    ensures forall t, r :: RefCount(input, sps + [sp], t, r)
                           == RefCount(input, sps, t, r) + if RefOf(sp) == r then ListCount(input, sp, t) else 0
  {
    assert (sps + [sp])[..|sps|] == sps;
  }

  method GatherSpecialists(input: SlotInput, branch: BranchDay) returns (bySlot: map<int, seq<Ref>>)
    requires branch == BranchConstraints(input) && branch.Open? && input.requiresSpecialist
    ensures Gathered(input, bySlot)
  {
    bySlot := map[];
    var sps := input.specialists;
    for i := 0 to |sps|
      invariant forall t :: t in bySlot <==> ListedBySome(input, sps[..i], t)
      invariant forall t, r :: multiset(At(bySlot, t))[r] == RefCount(input, sps[..i], t, r)
    {
      var sp := sps[i];
      var starts := SpecialistStarts(input, branch, sp);
      bySlot := AddStarts(bySlot, starts, RefOf(sp));
      RefCountStep(input, sps[..i], sp);
      assert sps[..i + 1] == sps[..i] + [sp];
    }
    assert sps[..|sps|] == sps;
    assert forall t :: t in bySlot ==> bySlot[t] == At(bySlot, t);
  }

  // ---- The listed slots ----

  ghost predicate Described(input: SlotInput, slot: Slot) {
    && slot.end == slot.start + input.durationMinutes * MINUTE
    && SortedRefs(slot.specialists)
    && forall r :: multiset(slot.specialists)[r] == RefsAt(input, slot.start - input.day, r)
  }

  ghost predicate EachOffered(input: SlotInput, slots: seq<Slot>) {
    forall i {:trigger Described(input, slots[i])} ::
      0 <= i < |slots| ==> Offers(input, slots[i].start - input.day) && Described(input, slots[i])
  }

  ghost predicate AllListed(input: SlotInput, slots: seq<Slot>) {
    forall t :: Offers(input, t) ==> exists i :: 0 <= i < |slots| && slots[i].start == input.day + t
  }

  ghost predicate InOrder(slots: seq<Slot>) {
    forall i, j :: 0 <= i < j < |slots| ==> slots[i].start < slots[j].start
  }

  /**
   The one list the engine may return: offered starts in strictly increasing order, each as long as the
   service, with its specialists in display order and as often as the engine lists them.
   */
  ghost predicate Canonical(input: SlotInput, slots: seq<Slot>) {
    && InOrder(slots)
    && EachOffered(input, slots)
    && AllListed(input, slots)
  }

  // ---- What a listed start means ----

  /** A grid point that has not gone by. */
  predicate Startable(input: SlotInput, t: int) { OnGrid(t) && input.day + t >= input.now }

  /**
   The rule for a specialist, in one sentence: a grid point that has not gone by, such that [t, t + need) lies
   inside one base interval of the specialist and the branch hours, and misses that shift's break, every
   absence and the specialist's appointments, on a day nobody takes off.
   */
  ghost predicate Bookable(input: SlotInput, sp: Specialist, t: int) {
    Startable(input, t) && Unhindered(input, sp, t) && InsideBase(input.exceptions, sp, t, input.Need())
  }

  /** The rule for a service without specialist: only the branch counts, and appointments are not looked at. */
  ghost predicate BranchBookable(input: SlotInput, t: int) {
    Startable(input, t) && BranchAllows(input, t) && Fits(Interval(0, DAY), t, input.Need())
  }

  ghost predicate StartsAt(slots: seq<Slot>, at: int) {
    exists i :: 0 <= i < |slots| && slots[i].start == at
  }

  ghost predicate OffersSpecialist(slots: seq<Slot>, at: int, id: string) {
    exists i, r :: 0 <= i < |slots| && slots[i].start == at && r in slots[i].specialists && r.id == id
  }

  ghost predicate BookableFor(input: SlotInput, t: int, id: string) {
    exists sp :: sp in input.specialists && sp.id == id && Bookable(input, sp, t)
  }

  ghost predicate StartBookable(input: SlotInput, t: int) {
    if input.requiresSpecialist then exists sp :: sp in input.specialists && Bookable(input, sp, t)
    else BranchBookable(input, t)
  }

  /** The list holds exactly the bookable starts, each with exactly the specialists that can take it. */
  ghost predicate Exact(input: SlotInput, slots: seq<Slot>) {
    && (forall at, id :: OffersSpecialist(slots, at, id)
                         <==> input.requiresSpecialist && BookableFor(input, at - input.day, id))
    && (forall at :: StartsAt(slots, at) <==> StartBookable(input, at - input.day))
  }

  lemma ListedIffBookable(input: SlotInput, sp: Specialist, t: int)
    requires input.Need() > 0
    ensures ListCount(input, sp, t) > 0 <==> Bookable(input, sp, t)
  {
    RoomMeaning(input, sp, t);
  }

  lemma WideIffBookable(input: SlotInput, t: int)
    requires input.Need() > 0
    ensures StartCount(input, WideRoom(input), t) > 0 <==> BranchBookable(input, t)
  {
    BranchMeaning(input, [Interval(0, DAY)], t);
    FitCountSmall(Interval(0, DAY), t, input.Need());
  }

  lemma {:induction false} RefCountPositive(input: SlotInput, sps: seq<Specialist>, t: int, r: Ref)
    ensures RefCount(input, sps, t, r) > 0 <==> exists sp :: sp in sps && RefOf(sp) == r && ListCount(input, sp, t) > 0
  {
    if sps != [] {
      var n := |sps| - 1;
      RefCountPositive(input, sps[..n], t, r);
      assert sps == sps[..n] + [sps[n]];
    }
  }

  ghost predicate ListedFor(input: SlotInput, t: int, id: string) {
    exists sp :: sp in input.specialists && sp.id == id && ListCount(input, sp, t) > 0
  }

  lemma RefListed(input: SlotInput, slot: Slot, r: Ref, t: int)
    requires Described(input, slot) && r in slot.specialists && slot.start - input.day == t
    ensures input.requiresSpecialist && ListedFor(input, t, r.id)
  {
    assert multiset(slot.specialists)[r] == RefsAt(input, t, r);
    RefCountPositive(input, input.specialists, t, r);
    var sp :| sp in input.specialists && RefOf(sp) == r && ListCount(input, sp, t) > 0;
    assert sp.id == r.id;
  }

  lemma ListedIsOffered(input: SlotInput, slots: seq<Slot>, i: nat)
    requires EachOffered(input, slots) && i < |slots|
    ensures Described(input, slots[i]) && Offers(input, slots[i].start - input.day)
  {
    assert Described(input, slots[i]);
  }

  lemma OfferedIsListed(input: SlotInput, slots: seq<Slot>, t: int, at: int)
    requires AllListed(input, slots) && Offers(input, t) && at == input.day + t
    ensures StartsAt(slots, at)
  {
  }

  lemma StartsIffOffers(input: SlotInput, slots: seq<Slot>, at: int)
    requires Canonical(input, slots)
    ensures StartsAt(slots, at) <==> Offers(input, at - input.day)
  {
    if i :| 0 <= i < |slots| && slots[i].start == at {
      ListedIsOffered(input, slots, i);
    }
  }

  lemma ListedSomewhere(input: SlotInput, sp: Specialist, slot: Slot, t: int)
    requires input.requiresSpecialist && sp in input.specialists && ListCount(input, sp, t) > 0
    requires Described(input, slot) && slot.start - input.day == t
    ensures RefOf(sp) in slot.specialists
  {
    RefCountPositive(input, input.specialists, t, RefOf(sp));
    assert multiset(slot.specialists)[RefOf(sp)] == RefsAt(input, t, RefOf(sp));
  }

  lemma OffersAllListed(input: SlotInput, slots: seq<Slot>, at: int, id: string)
    requires Canonical(input, slots) && input.requiresSpecialist && ListedFor(input, at - input.day, id)
    ensures OffersSpecialist(slots, at, id)
  {
    var t := at - input.day;
    var sp :| sp in input.specialists && sp.id == id && ListCount(input, sp, t) > 0;
    OfferedIsListed(input, slots, t, at);
    var i :| 0 <= i < |slots| && slots[i].start == at;
    ListedIsOffered(input, slots, i);
    ListedSomewhere(input, sp, slots[i], t);
  }

  lemma ListedForIffBookable(input: SlotInput, t: int, id: string)
    requires input.Need() > 0
    ensures ListedFor(input, t, id) <==> BookableFor(input, t, id)
  {
    forall sp | sp in input.specialists {
      ListedIffBookable(input, sp, t);
    }
  }

  lemma OffersIffBookable(input: SlotInput, t: int)
    requires input.Need() > 0
    ensures Offers(input, t) <==> StartBookable(input, t)
  {
    WideIffBookable(input, t);
    forall sp | sp in input.specialists {
      ListedIffBookable(input, sp, t);
    }
  }

  lemma OffersIffListed(input: SlotInput, slots: seq<Slot>, at: int, id: string)
    requires Canonical(input, slots)
    ensures OffersSpecialist(slots, at, id) <==> input.requiresSpecialist && ListedFor(input, at - input.day, id)
  {
    if i, r :| 0 <= i < |slots| && slots[i].start == at && r in slots[i].specialists && r.id == id {
      assert Described(input, slots[i]);
      RefListed(input, slots[i], r, at - input.day);
    }
    if input.requiresSpecialist && ListedFor(input, at - input.day, id) {
      OffersAllListed(input, slots, at, id);
    }
  }

  lemma OffersExactly(input: SlotInput, slots: seq<Slot>, at: int, id: string)
    requires Canonical(input, slots) && input.Need() > 0
    ensures OffersSpecialist(slots, at, id) <==> input.requiresSpecialist && BookableFor(input, at - input.day, id)
  {
    OffersIffListed(input, slots, at, id);
    ListedForIffBookable(input, at - input.day, id);
  }

  lemma StartsExactly(input: SlotInput, slots: seq<Slot>, at: int)
    requires Canonical(input, slots) && input.Need() > 0
    ensures StartsAt(slots, at) <==> StartBookable(input, at - input.day)
  {
    StartsIffOffers(input, slots, at);
    OffersIffBookable(input, at - input.day);
  }

  /** Soundness and completeness of the engine, for every input whose bookings take some time. */
  lemma CanonicalIsExact(input: SlotInput, slots: seq<Slot>)
    requires Canonical(input, slots) && input.Need() > 0
    ensures Exact(input, slots)
  {
    forall at, id {
      OffersExactly(input, slots, at, id);
    }
    forall at {
      StartsExactly(input, slots, at);
    }
  }

  method GatherWide(input: SlotInput, branch: BranchDay) returns (bySlot: map<int, seq<Ref>>)
    requires branch == BranchConstraints(input) && branch.Open? && !input.requiresSpecialist
    ensures Gathered(input, bySlot)
  {
    bySlot := map[];
    var windows := ApplyBranch([Interval(0, DAY)], branch);
    var starts := CandidateStarts(input, windows);
    for i := 0 to |starts|
      invariant forall t :: t in bySlot <==> multiset(starts[..i])[t] > 0
      invariant forall t :: t in bySlot ==> bySlot[t] == []
    {
      assert starts[..i + 1] == starts[..i] + [starts[i]];
      bySlot := bySlot[starts[i] := []];
    }
    assert starts[..|starts|] == starts;
  }

  ghost predicate Lists(input: SlotInput, bySlot: map<int, seq<Ref>>, slots: seq<Slot>, offsets: seq<int>) {
    && Increasing(offsets) && (forall t :: t in offsets <==> t in bySlot)
    && |slots| == |offsets|
    && forall i :: 0 <= i < |slots| ==>
                     && offsets[i] in bySlot
                     && slots[i].start == input.day + offsets[i]
                     && slots[i].end == slots[i].start + input.durationMinutes * MINUTE
                     && SortedRefs(slots[i].specialists)
                     && multiset(slots[i].specialists) == multiset(bySlot[offsets[i]])
  }

  method ListSlots(input: SlotInput, bySlot: map<int, seq<Ref>>) returns (slots: seq<Slot>, ghost offsets: seq<int>)
    ensures Lists(input, bySlot, slots, offsets)
  {
    var starts := SortedOffsets(bySlot.Keys);
    offsets := starts;
    slots := [];
    for i := 0 to |starts|
      invariant |slots| == i
      invariant forall k :: 0 <= k < i ==>
                              && starts[k] in bySlot
                              && slots[k].start == input.day + starts[k]
                              && slots[k].end == slots[k].start + input.durationMinutes * MINUTE
                              && SortedRefs(slots[k].specialists)
                              && multiset(slots[k].specialists) == multiset(bySlot[starts[k]])
    {
      assert starts[i] in starts;
      var refs := SortRefs(bySlot[starts[i]]);
      var begin := input.day + starts[i];
      slots := slots + [Slot(begin, begin + input.durationMinutes * MINUTE, refs)];
    }
  }

  lemma SlotIsDescribed(input: SlotInput, bySlot: map<int, seq<Ref>>, slot: Slot, t: int)
    requires Gathered(input, bySlot) && t in bySlot && slot.start == input.day + t
    requires slot.end == slot.start + input.durationMinutes * MINUTE && SortedRefs(slot.specialists)
    requires multiset(slot.specialists) == multiset(bySlot[t])
    ensures Offers(input, slot.start - input.day) && Described(input, slot)
  {
    assert slot.start - input.day == t;
  }

  lemma ListIsComplete(input: SlotInput, bySlot: map<int, seq<Ref>>, slots: seq<Slot>, offsets: seq<int>)
    requires Gathered(input, bySlot) && Lists(input, bySlot, slots, offsets)
    ensures forall t :: Offers(input, t) ==> exists i :: 0 <= i < |slots| && slots[i].start == input.day + t
  {
    forall t | Offers(input, t) ensures exists i :: 0 <= i < |slots| && slots[i].start == input.day + t {
      assert t in offsets;
      var i :| 0 <= i < |offsets| && offsets[i] == t;
      assert slots[i].start == input.day + t;
    }
  }

  lemma ListIsOrdered(input: SlotInput, bySlot: map<int, seq<Ref>>, slots: seq<Slot>, offsets: seq<int>)
    requires Lists(input, bySlot, slots, offsets)
    ensures InOrder(slots)
  {
  }

  lemma ListIsOffered(input: SlotInput, bySlot: map<int, seq<Ref>>, slots: seq<Slot>, offsets: seq<int>)
    requires Gathered(input, bySlot) && Lists(input, bySlot, slots, offsets)
    ensures EachOffered(input, slots)
  {
    forall i | 0 <= i < |slots| ensures Offers(input, slots[i].start - input.day) && Described(input, slots[i]) {
      SlotIsDescribed(input, bySlot, slots[i], offsets[i]);
    }
  }

  lemma ListIsCanonical(input: SlotInput, bySlot: map<int, seq<Ref>>, slots: seq<Slot>, offsets: seq<int>)
    requires Gathered(input, bySlot) && Lists(input, bySlot, slots, offsets)
    ensures Canonical(input, slots)
  {
    ListIsOrdered(input, bySlot, slots, offsets);
    ListIsOffered(input, bySlot, slots, offsets);
    ListIsComplete(input, bySlot, slots, offsets);
    assert AllListed(input, slots);
  }

  method ComputeSlots(input: SlotInput) returns (slots: seq<Slot>)
    ensures Canonical(input, slots)
    ensures input.Need() > 0 ==> Exact(input, slots)
  {
    var branch := BranchConstraints(input);
    if branch.Shut? {
      slots := [];
      if input.Need() > 0 {
        CanonicalIsExact(input, slots);
      }
      return;
    }
    var bySlot;
    if input.requiresSpecialist {
      bySlot := GatherSpecialists(input, branch);
    } else {
      bySlot := GatherWide(input, branch);
    }
    ghost var offsets;
    slots, offsets := ListSlots(input, bySlot);
    ListIsCanonical(input, bySlot, slots, offsets);
    if input.Need() > 0 {
      CanonicalIsExact(input, slots);
    }
  }
}
