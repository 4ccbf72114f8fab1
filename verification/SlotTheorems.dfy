/** Consequences of the engine's contract: one possible output, its size, no repeats, and what cannot change it. */
module SlotTheorems {
  import opened Base
  import opened Intervals
  import opened Schedule
  import opened Sorting
  import opened SlotEngine

  // ---- Uniqueness: map iteration order cannot show ----

  function StartsOf(slots: seq<Slot>): seq<int> { seq(|slots|, i requires 0 <= i < |slots| => slots[i].start) }

  lemma SlotDetermined(input: SlotInput, a: Slot, b: Slot)
    requires Described(input, a) && Described(input, b) && a.start == b.start
    ensures a == b
  {
    var t := a.start - input.day;
    assert forall r :: multiset(a.specialists)[r] == RefsAt(input, t, r) == multiset(b.specialists)[r];
    assert multiset(a.specialists) == multiset(b.specialists);
    SortedRefsUnique(a.specialists, b.specialists);
  }

  lemma StartsOfMember(slots: seq<Slot>, at: int)
    ensures at in StartsOf(slots) <==> StartsAt(slots, at)
  {
    if StartsAt(slots, at) {
      var i :| 0 <= i < |slots| && slots[i].start == at;
      assert StartsOf(slots)[i] == at;
    }
  }

  lemma StartsOffered(input: SlotInput, slots: seq<Slot>)
    requires Canonical(input, slots)
    ensures Increasing(StartsOf(slots))
    ensures forall at :: at in StartsOf(slots) <==> Offers(input, at - input.day)
  {
    forall at ensures at in StartsOf(slots) <==> Offers(input, at - input.day) {
      StartsIffOffers(input, slots, at);
      StartsOfMember(slots, at);
    }
  }

  /** An input has one slot list, so neither the order of a map nor that of equal sorting keys can change it. */
  lemma CanonicalUnique(input: SlotInput, a: seq<Slot>, b: seq<Slot>)
    requires Canonical(input, a) && Canonical(input, b)
    ensures a == b
  {
    StartsOffered(input, a);
    StartsOffered(input, b);
    IncreasingUnique(StartsOf(a), StartsOf(b));
    assert |a| == |StartsOf(a)| == |StartsOf(b)| == |b|;
    forall i | 0 <= i < |a| ensures a[i] == b[i] {
      assert StartsOf(a)[i] == StartsOf(b)[i];
      assert Described(input, a[i]) && Described(input, b[i]);
      SlotDetermined(input, a[i], b[i]);
    }
  }

  // ---- Size ----

  lemma OfferedWithinDay(input: SlotInput, t: int)
    requires Offers(input, t)
    ensures OnGrid(t) && input.day + t >= input.now && 0 <= t && t + input.Need() <= DAY
  {
    if input.requiresSpecialist {
      var sp :| sp in input.specialists && ListCount(input, sp, t) > 0;
      RoomWithinDay(input, sp);
      FitCountPositive(Room(input, sp), t, input.Need());
    } else {
      var branch := BranchConstraints(input);
      if branch.Open? {
        BranchWithinDay([Interval(0, DAY)], branch);
      }
      FitCountPositive(WideRoom(input), t, input.Need());
    }
  }

  /** Every start is a grid point of the day. */
  ghost predicate OnDay(slots: seq<Slot>, day: int) {
    forall i :: 0 <= i < |slots| ==> OnGrid(slots[i].start - day) && 0 <= slots[i].start - day < DAY
  }

  lemma {:induction false} StartsApart(slots: seq<Slot>, day: int, i: nat)
    requires InOrder(slots) && OnDay(slots, day) && i < |slots|
    ensures slots[i].start - day >= i * STEP
  {
    if i > 0 {
      StartsApart(slots, day, i - 1);
      GridGap(slots[i].start - day, slots[i - 1].start - day);
    }
  }

  /** A day never lists more than 48 starts. */
  lemma AtMost48(input: SlotInput, slots: seq<Slot>)
    requires Canonical(input, slots) && input.Need() > 0
    ensures |slots| <= 48
  {
    forall i | 0 <= i < |slots| ensures OnGrid(slots[i].start - input.day) && 0 <= slots[i].start - input.day < DAY {
      assert Described(input, slots[i]);
      OfferedWithinDay(input, slots[i].start - input.day);
    }
    if |slots| > 48 {
      StartsApart(slots, input.day, 48);
    }
  }

  // ---- No repeats ----

  /** The shifts do not overlap, if both are valid. */
  predicate Apart(a: Shift, b: Shift) {
    ValidShift(a) && ValidShift(b) ==> a.end.value <= b.start.value || b.end.value <= a.start.value
  }

  /** No two valid shifts overlap. */
  ghost predicate DisjointShifts(shifts: seq<Shift>) {
    forall i, j :: 0 <= i < j < |shifts| ==> Apart(shifts[i], shifts[j])
  }

  lemma {:induction false} OneShiftHolds(shifts: seq<Shift>, t: int, need: int)
    requires DisjointShifts(shifts) && need > 0
    ensures ShiftCount(shifts, t, need) <= 1
  {
    if shifts != [] {
      var n := |shifts| - 1;
      OneShiftHolds(shifts[..n], t, need);
      ShiftCountPositive(shifts[..n], t, need);
      if ShiftHolds(shifts[n], t, need) {
        assert forall i :: 0 <= i < n ==> shifts[..n][i] == shifts[i] && !ShiftHolds(shifts[i], t, need);
      }
    }
  }

  /** With ordered appointments a specialist is listed once per base interval that holds the booking. */
  lemma ListCountMeaning(input: SlotInput, sp: Specialist, t: int)
    requires input.Need() > 0 && OrderedBusy(input.busy)
    ensures ListCount(input, sp, t)
            == if Startable(input, t) && Unhindered(input, sp, t)
               then BaseCount(input.exceptions, sp, t, input.Need()) else 0
  {
    RoomMeaning(input, sp, t);
  }

  ghost predicate DistinctIds(sps: seq<Specialist>) {
    forall i, j :: 0 <= i < j < |sps| ==> sps[i].id != sps[j].id
  }

  lemma {:induction false} RefCountAtMostOne(input: SlotInput, sps: seq<Specialist>, t: int, r: Ref)
    requires DistinctIds(sps) && forall sp :: sp in sps ==> ListCount(input, sp, t) <= 1
    ensures RefCount(input, sps, t, r) <= 1
  {
    if sps != [] {
      var n := |sps| - 1;
      RefCountAtMostOne(input, sps[..n], t, r);
      RefCountPositive(input, sps[..n], t, r);
    }
  }

  lemma TwiceListed(refs: seq<Ref>, i: nat, j: nat)
    requires i < j < |refs| && refs[i] == refs[j]
    ensures multiset(refs)[refs[i]] >= 2
  {
    assert refs == refs[..i] + [refs[i]] + refs[i + 1..j] + [refs[j]] + refs[j + 1..];
  }

  lemma ListedUnder(input: SlotInput, slot: Slot, r: Ref, t: int)
    requires Described(input, slot) && r in slot.specialists && slot.start - input.day == t
    ensures exists k :: 0 <= k < |input.specialists| && RefOf(input.specialists[k]) == r
  {
    assert multiset(slot.specialists)[r] == RefsAt(input, t, r);
    RefCountPositive(input, input.specialists, t, r);
    var sp :| sp in input.specialists && RefOf(sp) == r && ListCount(input, sp, t) > 0;
  }

  lemma ListedOnce(input: SlotInput, slot: Slot, t: int, i: nat, j: nat)
    requires Described(input, slot) && slot.start - input.day == t
    requires DistinctIds(input.specialists) && forall sp :: sp in input.specialists ==> ListCount(input, sp, t) <= 1
    requires i < j < |slot.specialists|
    ensures slot.specialists[i].id != slot.specialists[j].id
  {
    var a, b := slot.specialists[i], slot.specialists[j];
    ListedUnder(input, slot, a, t);
    ListedUnder(input, slot, b, t);
    RefCountAtMostOne(input, input.specialists, t, a);
    assert multiset(slot.specialists)[a] == RefsAt(input, t, a);
    if a == b {
      TwiceListed(slot.specialists, i, j);
    }
  }

  /**
   A slot never lists a specialist twice, provided the specialists are distinct, no specialist has two
   overlapping shifts, and no appointment ends before it starts.
   */
  lemma NoRepeats(input: SlotInput, slots: seq<Slot>, k: nat)
    requires Canonical(input, slots) && k < |slots| && input.Need() > 0 && OrderedBusy(input.busy)
    requires DistinctIds(input.specialists)
    requires forall sp :: sp in input.specialists ==> DisjointShifts(sp.shifts)
    ensures forall i, j :: 0 <= i < j < |slots[k].specialists| ==>
                          slots[k].specialists[i].id != slots[k].specialists[j].id
  {
    var slot, t := slots[k], slots[k].start - input.day;
    assert Described(input, slot);
    forall sp | sp in input.specialists ensures ListCount(input, sp, t) <= 1 {
      ListCountMeaning(input, sp, t);
      OneShiftHolds(sp.shifts, t, input.Need());
    }
    forall i, j | 0 <= i < j < |slot.specialists| {
      ListedOnce(input, slot, t, i, j);
    }
  }

  // ---- Order of the inputs ----

  lemma {:induction false} RefCountConcat(input: SlotInput, p: seq<Specialist>, q: seq<Specialist>, t: int, r: Ref)
    ensures RefCount(input, p + q, t, r) == RefCount(input, p, t, r) + RefCount(input, q, t, r)
  {
    if q == [] {
      assert p + q == p;
    } else {
      var n := |q| - 1;
      assert (p + q)[..|p| + n] == p + q[..n];
      RefCountConcat(input, p, q[..n], t, r);
    }
  }

  lemma RefCountWithout(input: SlotInput, q: seq<Specialist>, k: nat, t: int, r: Ref)
    requires k < |q|
    ensures RefCount(input, q, t, r)
            == RefCount(input, q[..k] + q[k + 1..], t, r) + if RefOf(q[k]) == r then ListCount(input, q[k], t) else 0
  {
    assert q == (q[..k] + [q[k]]) + q[k + 1..];
    RefCountConcat(input, q[..k] + [q[k]], q[k + 1..], t, r);
    RefCountConcat(input, q[..k], q[k + 1..], t, r);
    RefCountStep(input, q[..k], q[k]);
  }

  lemma Without<T>(s: seq<T>, k: nat)
    requires k < |s|
    ensures multiset(s[..k] + s[k + 1..]) == multiset(s) - multiset{s[k]}
  {
    assert s == s[..k] + [s[k]] + s[k + 1..];
  }

  lemma {:induction false} RefCountPermuted(input: SlotInput, p: seq<Specialist>, q: seq<Specialist>, t: int, r: Ref)
    requires multiset(p) == multiset(q)
    ensures RefCount(input, p, t, r) == RefCount(input, q, t, r)
  {
    assert |p| == |multiset(p)| == |multiset(q)| == |q|;
    if p != [] {
      var n := |p| - 1;
      assert p == p[..n] + [p[n]];
      assert p[n] in multiset(q);
      var k :| 0 <= k < |q| && q[k] == p[n];
      Without(p, n);
      Without(q, k);
      assert p[..n] + p[n + 1..] == p[..n];
      assert multiset(p[..n]) == multiset(q[..k] + q[k + 1..]);
      RefCountPermuted(input, p[..n], q[..k] + q[k + 1..], t, r);
      RefCountWithout(input, q, k, t, r);
    }
  }

  lemma ListCountSameBusy(a: SlotInput, b: SlotInput, sp: Specialist, t: int)
    requires b == a.(specialists := b.specialists, busy := b.busy)
    requires forall x :: x in a.busy <==> x in b.busy
    requires a.Need() > 0 && OrderedBusy(a.busy)
    ensures ListCount(a, sp, t) == ListCount(b, sp, t)
  {
    ListCountMeaning(a, sp, t);
    ListCountMeaning(b, sp, t);
    assert MissesBusy(a.busy, sp.id, a.day, t, a.Need()) <==> MissesBusy(b.busy, sp.id, b.day, t, b.Need());
    assert BranchAllows(a, t) <==> BranchAllows(b, t);
  }

  lemma {:induction false} RefCountCongruent(a: SlotInput, b: SlotInput, sps: seq<Specialist>, t: int, r: Ref)
    requires forall sp :: sp in sps ==> ListCount(a, sp, t) == ListCount(b, sp, t)
    ensures RefCount(a, sps, t, r) == RefCount(b, sps, t, r)
  {
    if sps != [] {
      RefCountCongruent(a, b, sps[..|sps| - 1], t, r);
    }
  }

  lemma OffersSame(a: SlotInput, b: SlotInput, t: int)
    requires b == a.(specialists := b.specialists, busy := b.busy)
    requires multiset(a.specialists) == multiset(b.specialists)
    requires forall x :: x in a.busy <==> x in b.busy
    requires a.Need() > 0 && OrderedBusy(a.busy)
    ensures Offers(a, t) <==> Offers(b, t)
    ensures forall r :: RefsAt(a, t, r) == RefsAt(b, t, r)
  {
    forall sp {
      ListCountSameBusy(a, b, sp, t);
    }
    assert forall sp :: sp in a.specialists <==> sp in multiset(a.specialists);
    assert forall sp :: sp in b.specialists <==> sp in multiset(b.specialists);
    assert WideRoom(a) == WideRoom(b);
    forall r ensures RefsAt(a, t, r) == RefsAt(b, t, r) {
      RefCountCongruent(a, b, a.specialists, t, r);
      RefCountPermuted(b, a.specialists, b.specialists, t, r);
    }
  }

  lemma AllOfferedTransfers(a: SlotInput, b: SlotInput, slots: seq<Slot>)
    requires a.day == b.day && AllListed(a, slots)
    requires forall t :: Offers(a, t) <==> Offers(b, t)
    ensures AllListed(b, slots)
  {
    forall t | Offers(b, t) ensures exists i :: 0 <= i < |slots| && slots[i].start == b.day + t {
      OfferedIsListed(a, slots, t, a.day + t);
      assert StartsAt(slots, b.day + t);
    }
  }

  lemma SameDescription(a: SlotInput, b: SlotInput, slot: Slot)
    requires a.day == b.day && a.durationMinutes == b.durationMinutes
    requires forall t, r :: RefsAt(a, t, r) == RefsAt(b, t, r)
    requires Described(a, slot)
    ensures Described(b, slot)
  {
    var t := slot.start - a.day;
    assert forall r :: multiset(slot.specialists)[r] == RefsAt(a, t, r) == RefsAt(b, t, r);
  }

  lemma CanonicalTransfers(a: SlotInput, b: SlotInput, slots: seq<Slot>)
    requires b == a.(specialists := b.specialists, busy := b.busy)
    requires Canonical(a, slots)
    requires forall t :: Offers(a, t) <==> Offers(b, t)
    requires forall t, r :: RefsAt(a, t, r) == RefsAt(b, t, r)
    ensures Canonical(b, slots)
  {
    AllOfferedTransfers(a, b, slots);
    forall i | 0 <= i < |slots| ensures Offers(b, slots[i].start - b.day) && Described(b, slots[i]) {
      ListedIsOffered(a, slots, i);
      SameDescription(a, b, slots[i]);
    }
  }

  /**
   The order in which the store returns specialists and busy rows, and repeated busy rows, do not change the
   result: what is a slot list for one input is the slot list for the other.
   */
  lemma OrderIrrelevant(a: SlotInput, b: SlotInput, slots: seq<Slot>)
    requires b == a.(specialists := b.specialists, busy := b.busy)
    requires multiset(a.specialists) == multiset(b.specialists)
    requires forall x :: x in a.busy <==> x in b.busy
    requires a.Need() > 0 && OrderedBusy(a.busy)
    requires Canonical(a, slots)
    ensures Canonical(b, slots)
  {
    forall t ensures Offers(a, t) <==> Offers(b, t) {
      OffersSame(a, b, t);
    }
    forall t, r ensures RefsAt(a, t, r) == RefsAt(b, t, r) {
      OffersSame(a, b, t);
    }
    CanonicalTransfers(a, b, slots);
  }

  lemma SameCountsSameOffers(a: SlotInput, b: SlotInput, t: int)
    requires b == a.(busy := b.busy)
    requires forall sp :: sp in a.specialists ==> ListCount(a, sp, t) == ListCount(b, sp, t)
    ensures Offers(a, t) <==> Offers(b, t)
  {
    assert WideRoom(a) == WideRoom(b);
  }

  lemma SameCountsSameRefs(a: SlotInput, b: SlotInput, t: int, r: Ref)
    requires b == a.(busy := b.busy)
    requires forall sp :: sp in a.specialists ==> ListCount(a, sp, t) == ListCount(b, sp, t)
    ensures RefsAt(a, t, r) == RefsAt(b, t, r)
  {
    RefCountCongruent(a, b, a.specialists, t, r);
  }

  /** If only busy rows differ and every specialist keeps the same windows, the slot list is the same. */
  lemma SameRoomsSameList(a: SlotInput, b: SlotInput, slots: seq<Slot>)
    requires b == a.(busy := b.busy)
    requires forall sp :: sp in a.specialists ==> Room(a, sp) == Room(b, sp)
    requires Canonical(a, slots)
    ensures Canonical(b, slots)
  {
    forall t ensures Offers(a, t) <==> Offers(b, t) {
      SameCountsSameOffers(a, b, t);
    }
    forall t, r ensures RefsAt(a, t, r) == RefsAt(b, t, r) {
      SameCountsSameRefs(a, b, t, r);
    }
    CanonicalTransfers(a, b, slots);
  }

  // ---- Longer bookings ----

  /** Extra minutes never make a start bookable. */
  lemma LongerIsHarder(input: SlotInput, extra: nat, sp: Specialist, t: int)
    requires Bookable(input.(durationMinutes := input.durationMinutes + extra), sp, t)
    ensures Bookable(input, sp, t)
  {
    var long := input.(durationMinutes := input.durationMinutes + extra);
    assert input.Need() <= long.Need();
    assert BranchAllows(input, t);
    assert PersonallyFree(input.exceptions, sp, t, input.Need());
    assert MissesBusy(input.busy, sp.id, input.day, t, input.Need());
    assert InsideBase(input.exceptions, sp, t, input.Need());
  }

  // ---- Where the rule stops being exact ----

  function EarlyBird(): Specialist {
    Specialist("s", "Ana", [Shift(Some(0), Some(60 * MINUTE), Some(Some(0)), Some(Some(30 * MINUTE)))])
  }

  /** A shift 00:00-01:00 with a break 00:00-00:30, and nothing else. */
  function BreakAtMidnight(duration: int, buffer: int): SlotInput {
    SlotInput(0, 0, duration, buffer, true, DayHours(false, false, 0, 0), [EarlyBird()], [], [])
  }

  lemma NotExactWithoutRoom(duration: int, buffer: int)
    requires duration + buffer <= 0
    ensures Bookable(BreakAtMidnight(duration, buffer), EarlyBird(), 0)
    ensures ListCount(BreakAtMidnight(duration, buffer), EarlyBird(), 0) == 0
  {
    var input, sp := BreakAtMidnight(duration, buffer), EarlyBird();
    var left, sh := Interval(30 * MINUTE, 60 * MINUTE), sp.shifts[0];
    assert Effects([], Some(sp.id)) == Effect(None, false, []);
    assert ShiftHolds(sh, 0, input.Need());
    assert sp.shifts[..0] == [];
    assert ShiftsRoom(sp.shifts) == [left];
    assert SpecialistRoom([], sp) == [left];
    assert Room(input, sp) == [left];
    FitCountSmall(left, 0, input.Need());
  }

  /**
   The engine follows the rule on every schedule exactly for those service lengths whose duration plus
   buffer is positive; for any other the schedule above is a counterexample.
   */
  lemma ExactIffRoomNeeded(duration: int, buffer: int)
    ensures (forall input: SlotInput, sp, t :: input.durationMinutes == duration && input.bufferMinutes == buffer ==>
                                                 (ListCount(input, sp, t) > 0 <==> Bookable(input, sp, t)))
            <==> duration + buffer > 0
  {
    if duration + buffer > 0 {
      forall input: SlotInput, sp, t | input.durationMinutes == duration && input.bufferMinutes == buffer
        ensures ListCount(input, sp, t) > 0 <==> Bookable(input, sp, t)
      {
        ListedIffBookable(input, sp, t);
      }
    } else {
      NotExactWithoutRoom(duration, buffer);
      var input := BreakAtMidnight(duration, buffer);
      assert input.durationMinutes == duration && input.bufferMinutes == buffer;
    }
  }
}
