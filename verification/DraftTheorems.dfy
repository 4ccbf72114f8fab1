/** What holds in every state that any interleaving of creates, confirmations and other writers can reach. */
module DraftTheorems {
  import opened Base
  import opened SlotEngine
  import opened Tables
  import opened Availability
  import opened AvailabilityTheorems
  import opened DraftProtocol
  import opened DraftInvariants
  import opened DraftSteps
  import opened Occupancy

  ghost predicate Reachable(t: State) {
    exists s, es :: Initial(s) && Leads(s, es, t)
  }

  lemma ReachableInv(t: State)
    requires Reachable(t)
    ensures Inv(t)
  {
    var s, es :| Initial(s) && Leads(s, es, t);
    InitialInv(s);
    RunKeeps(s, es, t);
  }

  // ---- No double booking ----

  /** Transaction i inserted appointment m. */
  ghost predicate InsertedBy(t: State, m: nat, i: int) {
    && 0 <= i < |t.confirmations|
    && t.confirmations[i].progress.Committed? && !t.confirmations[i].progress.idempotent
    && t.confirmations[i].progress.booked == m
  }

  lemma McpInserted(t: State, m: nat)
    requires Inv(t) && m < |t.appointments| && t.appointments[m].source == MCP
    ensures exists i :: InsertedBy(t, m, i)
    ensures t.appointments[m].ends.Some?
  {
    var d :| 0 <= d < |t.drafts| && t.drafts[d].appointment == Some(m);
    assert BookedRow(t.drafts[d], t.appointments);
    var i :| 0 <= i < |t.confirmations| && BookedBy(t.confirmations[i], d);
    assert Outcome(t.confirmations[i], t.drafts);
    assert InsertedBy(t, m, i);
  }

  /**
   At no instant do two active appointments have one specialist of a tenant if both came from confirmations. If
   one did, and the other came from elsewhere, the other was added or changed after the confirmation had checked.
   */
  lemma NoDoubleBooking(t: State, k: nat, m: nat, tenant: string, specialist: string, x: int)
    requires Reachable(t) && k < |t.appointments| && m < |t.appointments| && k != m
    requires t.appointments[m].source == "mcp"
    requires TakenAt(t.appointments[k], tenant, specialist, x) && TakenAt(t.appointments[m], tenant, specialist, x)
    ensures t.appointments[k].source != "mcp"
    ensures k < |t.stamps| && exists i :: InsertedBy(t, m, i) && t.stamps[k] >= t.confirmations[i].progress.seen
  {
    ReachableInv(t);
    McpInserted(t, m);
    var a, b := t.appointments[k], t.appointments[m];
    OverlapIsSharedInstant(a.start, a.ends, b.start, b.ends.value);
    var i :| InsertedBy(t, m, i);
    assert Alone(t.appointments, t.stamps, t.changes, m, t.confirmations[i].progress.seen);
  }

  // ---- Exactly once ----

  /** As many appointments of this source as booked drafts. */
  lemma OneAppointmentPerBookedDraft(t: State)
    requires Reachable(t)
    ensures CountMcp(t.appointments) == CountBooked(t.drafts)
    ensures forall c, d :: 0 <= c < d < |t.drafts| && t.drafts[c].status == Booked && t.drafts[d].status == Booked ==>
                             t.drafts[c].appointment != t.drafts[d].appointment
  {
    ReachableInv(t);
    forall c, d | 0 <= c < d < |t.drafts| && t.drafts[c].status == Booked && t.drafts[d].status == Booked
      ensures t.drafts[c].appointment != t.drafts[d].appointment
    {
      assert BookedRow(t.drafts[c], t.appointments);
    }
  }

  /**
   All successful confirmations of a draft return one appointment, which carries the draft's tenant, specialist,
   times and duration.
   */
  lemma SameAppointmentReturned(t: State, i: nat, j: nat)
    requires Reachable(t) && i < |t.confirmations| && j < |t.confirmations|
    requires t.confirmations[i].progress.Committed? && t.confirmations[j].progress.Committed?
    requires t.confirmations[i].draft == t.confirmations[j].draft
    ensures t.confirmations[i].progress.booked == t.confirmations[j].progress.booked < |t.appointments|
    ensures t.confirmations[i].draft < |t.drafts|
    ensures var a, d := t.appointments[t.confirmations[i].progress.booked], t.drafts[t.confirmations[i].draft];
            && a.tenant == d.tenant && a.specialist == d.request.specialist && a.start == d.request.start
            && a.ends == Some(d.ends) && a.minutes == d.minutes && a.source == "mcp"
  {
    ReachableInv(t);
    assert Outcome(t.confirmations[i], t.drafts) && Outcome(t.confirmations[j], t.drafts);
    assert BookedRow(t.drafts[t.confirmations[i].draft], t.appointments);
  }

  /** Exactly one successful confirmation of a draft is not idempotent, and it began before the draft expired. */
  lemma ExactlyOneInsert(t: State, i: nat)
    requires Reachable(t) && i < |t.confirmations| && t.confirmations[i].progress.Committed?
    ensures t.confirmations[i].draft < |t.drafts|
    ensures exists j :: 0 <= j < |t.confirmations| && BookedBy(t.confirmations[j], t.confirmations[i].draft)
                        && t.confirmations[j].began <= t.drafts[t.confirmations[i].draft].expiresAt
    ensures forall j, k :: (0 <= j < |t.confirmations| && BookedBy(t.confirmations[j], t.confirmations[i].draft)
                            && 0 <= k < |t.confirmations| && BookedBy(t.confirmations[k], t.confirmations[i].draft)) ==>
                             j == k
  {
    ReachableInv(t);
    assert Outcome(t.confirmations[i], t.drafts);
    assert BookedRow(t.drafts[t.confirmations[i].draft], t.appointments);
  }

  // ---- Idempotent creation ----

  /** Two optional texts say the same; one that is not there says as much as an empty one. */
  predicate SameText(a: Option<string>, b: Option<string>) {
    a == b || (a in [None, Some("")] && b in [None, Some("")])
  }

  /** Two requests are for the same booking, field by field. */
  predicate SameBooking(a: Request, b: Request) {
    && a.customer == b.customer && a.service == b.service && a.branch == b.branch && a.start == b.start
    && SameText(a.variant, b.variant) && SameText(a.specialist, b.specialist) && SameText(a.notes, b.notes)
  }

  /** Every create that succeeds, whether it made the draft or reused one, returns a draft of its own booking. */
  lemma CreatedIsOwn(t: State, i: nat)
    requires Reachable(t) && i < |t.creations| && t.creations[i].progress.Created?
    ensures t.creations[i].progress.draft < |t.drafts|
    ensures var c, d := t.creations[i], t.drafts[t.creations[i].progress.draft];
            && d.tenant == c.actor.tenant && d.connection == c.actor.connection && d.request.key == c.request.key
            && SameBooking(d.request, c.request)
  {
    ReachableInv(t);
    assert CreationSound(t.creations[i], t.drafts, t.appointments, t.stamps, t.changes);
  }

  /** All successful creates of a tenant's connection with one key return one draft, which at most one of them made. */
  lemma OneDraftPerKey(t: State, i: nat, j: nat)
    requires Reachable(t) && i < j < |t.creations|
    requires t.creations[i].progress.Created? && t.creations[j].progress.Created?
    requires t.creations[i].actor == t.creations[j].actor && t.creations[i].request.key == t.creations[j].request.key
    ensures t.creations[i].progress.draft == t.creations[j].progress.draft
    ensures t.creations[i].progress.reused || t.creations[j].progress.reused
  {
    ReachableInv(t);
    assert CreationSound(t.creations[i], t.drafts, t.appointments, t.stamps, t.changes)
           && CreationSound(t.creations[j], t.drafts, t.appointments, t.stamps, t.changes);
  }

  lemma {:induction false} FindsDraft(table: seq<Draft>, actor: Actor, key: string, d: nat)
    requires KeysUnique(table) && d < |table|
    requires table[d].tenant == actor.tenant && table[d].connection == actor.connection && table[d].request.key == key
    ensures FindDraft(table, actor, key) == Some(d)
  {
    var last := |table| - 1;
    if d < last {
      FindsDraft(table[..last], actor, key, d);
    }
  }

  /**
   Once a draft exists, a create with its key succeeds exactly if it asks for the same booking, returns that draft
   and changes no table, whatever the schedule has become and whatever a slot check would say; one that differs in
   any field is refused.
   */
  lemma LaterCreateReuses(t: State, i: nat, d: nat, check: Result<Check, SlotError>, now: int)
    requires Reachable(t) && i < |t.creations| && d < |t.drafts| && t.creations[i].progress.Asked?
    requires t.drafts[d].tenant == t.creations[i].actor.tenant
    requires t.drafts[d].connection == t.creations[i].actor.connection
    requires t.drafts[d].request.key == t.creations[i].request.key
    ensures var next := CreateAdvance(t, i, check, now);
            && next == t.(creations := next.creations)
            && next.creations[i].progress
               == if SameBooking(t.drafts[d].request, t.creations[i].request)
                  then Created(d, true, 0, false) else Refused(KeyReused)
  {
    ReachableInv(t);
    FindsDraft(t.drafts, t.creations[i].actor, t.creations[i].request.key, d);
  }

  // ---- From the slot check to the confirmation ----

  /** At an instant of the draft, an active appointment that was added or changed after the slot check. */
  ghost predicate NewerOverlap(table: seq<Appointment>, stamps: seq<nat>, row: Draft, seen: nat) {
    row.request.specialist.Some? &&
    exists k, x :: && 0 <= k < |table| && k < |stamps| && stamps[k] >= seen
                   && Within(row.request.start, Some(row.ends), x)
                   && TakenAt(table[k], row.tenant, row.request.specialist.value, x)
  }

  /** At an instant of the draft, an active appointment without ends_at that was there at the slot check. */
  ghost predicate OpenEnded(table: seq<Appointment>, stamps: seq<nat>, row: Draft, seen: nat) {
    row.request.specialist.Some? &&
    exists k, x :: && 0 <= k < |table| && k < |stamps| && stamps[k] < seen && table[k].ends.None?
                   && Within(row.request.start, Some(row.ends), x)
                   && TakenAt(table[k], row.tenant, row.request.specialist.value, x)
  }

  lemma TakenCause(table: seq<Appointment>, stamps: seq<nat>, row: Draft, seen: nat)
    requires |stamps| == |table|
    requires WasFree(table, stamps, seen, row.tenant, row.request.specialist, row.request.start, row.ends)
    ensures DraftTaken(table, row) <==> NewerOverlap(table, stamps, row, seen) || OpenEnded(table, stamps, row, seen)
  {
    var specialist, from, until := row.request.specialist.value, row.request.start, Some(row.ends);
    if DraftTaken(table, row) {
      var k, x :| 0 <= k < |table| && Within(from, until, x) && TakenAt(table[k], row.tenant, specialist, x);
      assert stamps[k] >= seen ==> NewerOverlap(table, stamps, row, seen);
      assert stamps[k] < seen ==> table[k].ends.None?;
    }
  }

  /** The confirmation that holds the lock on the specialist is refused if and only if an instant of it is taken. */
  lemma RefusedIfTaken(t: State, i: nat)
    requires Reachable(t) && i < |t.confirmations| && t.confirmations[i].progress.HasSpecialist?
    ensures t.confirmations[i].draft < |t.drafts|
    ensures Advanced(t, t.confirmations[i]) == Failed(SpecialistUnavailable)
            <==> DraftTaken(t.appointments, t.drafts[t.confirmations[i].draft])
  {
    ReachableInv(t);
    assert ReadRow(t.confirmations[i], t.drafts);
    TakenIsSharedInstant(t.appointments, t.confirmations[i].progress.row);
  }

  /**
   A draft made by a create call for a service that requires a specialist: its confirmation is refused for the
   specialist exactly if an overlapping appointment was added or changed after the slot check, or the specialist
   already had an active appointment without ends_at that starts before the draft ends. The slot check ends
   such an appointment after its duration; the confirmation never ends it.
   */
  lemma RefusalCause(t: State, i: nat, j: nat)
    requires Reachable(t) && i < |t.confirmations| && t.confirmations[i].progress.HasSpecialist?
    requires j < |t.creations| && Makes(t.creations[j]) && t.creations[j].progress.draft == t.confirmations[i].draft
    requires t.creations[j].progress.guarded && t.creations[j].request.specialist !in [None, Some("")]
    ensures var row, seen := t.confirmations[i].progress.row, t.creations[j].progress.seen;
            Advanced(t, t.confirmations[i]) == Failed(SpecialistUnavailable)
            <==> NewerOverlap(t.appointments, t.stamps, row, seen) || OpenEnded(t.appointments, t.stamps, row, seen)
  {
    ReachableInv(t);
    assert CreationSound(t.creations[j], t.drafts, t.appointments, t.stamps, t.changes);
    assert ReadRow(t.confirmations[i], t.drafts);
    TakenCause(t.appointments, t.stamps, t.confirmations[i].progress.row, t.creations[j].progress.seen);
    RefusedIfTaken(t, i);
  }

  // ---- From the confirmation back to the slots ----

  /**
   The appointment of a confirmed draft, while it is active, and the specialist it keeps busy; the draft tells
   when.
   */
  ghost predicate KeepsBusy(t: State, i: nat, tenant: string, specialist: string) {
    && i < |t.confirmations| && t.confirmations[i].progress.Committed?
    && var d, m := t.confirmations[i].draft, t.confirmations[i].progress.booked;
    && d < |t.drafts| && m < |t.appointments| && Active(t.appointments[m].status)
    && t.drafts[d].tenant == tenant && t.drafts[d].request.specialist == Some(specialist)
  }

  lemma BusyIsAvoided(t: State, i: nat, tenant: string, specialist: string, at: int, need: int)
    requires Reachable(t) && KeepsBusy(t, i, tenant, specialist) && Free(t.appointments, tenant, specialist, at, need)
    ensures t.confirmations[i].draft < |t.drafts|
    ensures var d := t.drafts[t.confirmations[i].draft]; d.ends <= at || at + need <= d.request.start
  {
    SameAppointmentReturned(t, i, i);
    assert Occupies(t.appointments[t.confirmations[i].progress.booked], tenant, {specialist});
  }

  /**
   While a confirmed appointment is active, no list of slots, on any day and at any branch, offers its
   specialist an interval that meets it, whatever the service's clock says.
   */
  lemma ListAvoidsBooked(t: State, i: nat, req: ListRequest, now: int, slots: seq<Slot>, at: int, specialist: string)
    requires Reachable(t) && KeepsBusy(t, i, req.tenant, specialist)
    requires ListAnswer(Store(t.catalog, t.appointments), req, now, Ok(slots))
    requires OffersSpecialist(slots, at, specialist)
    requires NeedOf(t.catalog.services[req.service], 0) > 0
    ensures t.confirmations[i].draft < |t.drafts|
    ensures var d := t.drafts[t.confirmations[i].draft];
            d.ends <= at || at + NeedOf(t.catalog.services[req.service], 0) <= d.request.start
  {
    ListNeverOverlaps(Store(t.catalog, t.appointments), req, now, slots, at, specialist);
    BusyIsAvoided(t, i, req.tenant, specialist, at, NeedOf(t.catalog.services[req.service], 0));
  }

  lemma CheckedIsFree(t: State, req: CheckRequest, now: int, c: Check, specialist: string)
    requires Reachable(t) && CheckAnswer(Store(t.catalog, t.appointments), req, now, Ok(c))
    requires || (exists r :: r in c.specialists && r.id == specialist)
             || (c.available && c.service.requiresSpecialist && req.specialist == specialist != "")
    ensures Free(t.appointments, req.tenant, specialist, req.start, NeedOf(c.service, req.extraMinutes))
  {
    var st := Store(t.catalog, t.appointments);
    ReachableInv(t);
    CheckFacts(st, req, now, c);
    if r :| r in c.specialists && r.id == specialist {
      NamedIsFree(st, req, now, c, r);
    } else {
      AvailableIsFree(st, req, now, c);
    }
  }

  /**
   Nor does any slot check, whether it asks for a specialist or not, name that specialist for an interval that
   meets it; a check that asks for the specialist and succeeds names no one else.
   */
  lemma CheckAvoidsBooked(t: State, i: nat, req: CheckRequest, now: int, c: Check, specialist: string)
    requires Reachable(t) && KeepsBusy(t, i, req.tenant, specialist)
    requires CheckAnswer(Store(t.catalog, t.appointments), req, now, Ok(c))
    requires || (exists r :: r in c.specialists && r.id == specialist)
             || (c.available && c.service.requiresSpecialist && req.specialist == specialist != "")
    ensures t.confirmations[i].draft < |t.drafts|
    ensures var d := t.drafts[t.confirmations[i].draft];
            d.ends <= req.start || req.start + NeedOf(c.service, req.extraMinutes) <= d.request.start
  {
    CheckedIsFree(t, req, now, c, specialist);
    BusyIsAvoided(t, i, req.tenant, specialist, req.start, NeedOf(c.service, req.extraMinutes));
  }
}
