/**
 Drafts and their confirmation as a transition system. Any number of create calls, confirmation transactions
 and other writers interleave; every step is one statement of the program as the database executes it
 (internal/application/drafts/service.go:39-115, docs/handoff/sql/booknow_mcp_service_phase6_drafts.sql:44-164).

 Drafts and appointments are numbered in the order in which they are committed. A transaction's own writes
 become visible at its commit, so they do not appear in the tables before that step.
 */
module DraftProtocol {
  import opened Base
  import opened Tables
  import opened Availability

  // ---- Rows ----

  datatype Request = Request(customer: string, service: string, branch: string, variant: Option<string>,
                             specialist: Option<string>, notes: Option<string>, start: int, key: string)

  datatype DraftStatus = Waiting | Booked | Closed

  // appointment is the confirmed_appointment_id.
  datatype Draft = Draft(tenant: string, connection: string, request: Request, ends: int, minutes: int, expiresAt: int,
                         status: DraftStatus, appointment: Option<nat>)

  datatype Customer = Customer(tenant: string, active: bool)

  datatype Variant = Variant(tenant: string, service: string, durationModifier: int, active: bool)

  datatype Actor = Actor(tenant: string, connection: string)

  // ---- Confirmation transactions ----

  datatype ConfirmError = DraftNotFound | Unauthorized | InvalidDraftStatus | DraftExpired | SpecialistUnavailable

  // Progress of one call of confirm_mcp_appointment_draft. row is v_draft; seen is the number of changes to the
  // appointments committed when overlaps were checked.
  datatype Progress =
    | Begun
    | HasDraft(row: Draft)
    | WantsSpecialist(row: Draft)
    | HasSpecialist(row: Draft)
    | Insertable(row: Draft, seen: nat)
    | Replayable(row: Draft, known: nat)
    | Committed(booked: nat, idempotent: bool, seen: nat)
    | Failed(error: ConfirmError)
    | RolledBack

  // began is the transaction's now().
  datatype Confirmation = Confirmation(draft: nat, user: string, began: int, progress: Progress)

  predicate Finished(p: Progress) { p.Committed? || p.Failed? || p.RolledBack? }

  /** The transaction holds the lock on its draft row. */
  predicate HoldsDraft(p: Progress) {
    p.HasDraft? || p.WantsSpecialist? || p.HasSpecialist? || p.Insertable? || p.Replayable?
  }

  /** Stand-in for hashtextextended: 64-bit keys, so different specialists may share one. */
  function LockKey(specialist: string): int {
    if specialist == "" then 0
    else (31 * LockKey(specialist[..|specialist| - 1]) + specialist[|specialist| - 1] as int) % 0x1_0000_0000_0000_0000
  }

  /** The transaction holds the advisory lock with this key. */
  predicate HoldsSpecialist(p: Progress, key: int) {
    && (p.HasSpecialist? || p.Insertable?)
    && p.row.request.specialist.Some? && LockKey(p.row.request.specialist.value) == key
  }

  // ---- Create calls ----

  datatype CreateError = Rejected(error: SlotError) | SpecialistRequired | SlotTaken | KeyReused | StoreFailed

  // seen is the number of changes to the appointments committed when the slot was checked; guarded says whether the
  // service requires a specialist.
  datatype CreateProgress =
    | Asked
    | Missing
    | Checked(minutes: int, seen: nat, guarded: bool)
    | Conflicted
    | Created(draft: nat, reused: bool, seen: nat, guarded: bool)
    | Refused(error: CreateError)

  datatype Creation = Creation(actor: Actor, request: Request, progress: CreateProgress)

  predicate CreateFinished(p: CreateProgress) { p.Created? || p.Refused? }

  // ---- State ----

  // managers are the pairs of tenant and user that may confirm; ttl is the life of a draft; clock is that of the
  // database, while the service reads its own at each step. changes counts what was added to the appointments or
  // rescheduled in them; stamps says for each appointment which of these changes was its last.
  datatype State = State(clock: int, ttl: int, catalog: Catalog, customers: map<string, Customer>,
                         variants: map<string, Variant>, managers: set<(string, string)>, drafts: seq<Draft>,
                         appointments: seq<Appointment>, stamps: seq<nat>, changes: nat,
                         confirmations: seq<Confirmation>, creations: seq<Creation>)

  // ---- Overlap ----

  /** tstzrange(a, b, '[)') && tstzrange(c, d, '[)'): a missing bound is unbounded, an empty range overlaps nothing. */
  predicate RangesOverlap(a: int, b: Option<int>, c: int, d: int) {
    (b.None? || a < b.value) && c < d && a < d && (b.None? || c < b.value)
  }

  predicate Overlaps(a: Appointment, row: Draft) {
    && a.tenant == row.tenant && a.specialist == row.request.specialist && Active(a.status)
    && RangesOverlap(a.start, a.ends, row.request.start, row.ends)
  }

  predicate Taken(table: seq<Appointment>, row: Draft) {
    exists k :: 0 <= k < |table| && Overlaps(table[k], row)
  }

  const MCP := "mcp"

  function AppointmentOf(row: Draft): Appointment {
    Appointment(row.tenant, row.request.specialist, row.request.start, Some(row.ends), row.minutes, Pending, MCP)
  }

  // ---- Steps of a confirmation ----

  /** No other transaction holds the lock on the draft row. */
  ghost predicate DraftUnlocked(cs: seq<Confirmation>, draft: nat, i: int) {
    forall j :: 0 <= j < |cs| && j != i && HoldsDraft(cs[j].progress) ==> cs[j].draft != draft
  }

  ghost predicate KeyUnlocked(cs: seq<Confirmation>, key: int, i: int) {
    forall j :: 0 <= j < |cs| && j != i ==> !HoldsSpecialist(cs[j].progress, key)
  }

  /** The next statement of transaction i does not have to wait for a lock. */
  ghost predicate CanAdvance(s: State, i: int) {
    && 0 <= i < |s.confirmations|
    && var c := s.confirmations[i];
    && !Finished(c.progress)
    && (c.progress.Begun? && c.draft < |s.drafts| ==> DraftUnlocked(s.confirmations, c.draft, i))
    && (c.progress.WantsSpecialist? && c.progress.row.request.specialist.Some? ==>
          KeyUnlocked(s.confirmations, LockKey(c.progress.row.request.specialist.value), i))
  }

  /** What the checks between the row lock and the specialist lock decide. */
  function Examined(s: State, c: Confirmation, row: Draft): Progress {
    if (row.tenant, c.user) !in s.managers then Failed(Unauthorized)
    else if row.status == Booked && row.appointment.Some? then Replayable(row, row.appointment.value)
    else if row.status != Waiting then Failed(InvalidDraftStatus)
    else if row.expiresAt < c.began then Failed(DraftExpired)
    else if row.request.specialist.None? then Insertable(row, s.changes)
    else WantsSpecialist(row)
  }

  /** Progress after the next statement. */
  function Advanced(s: State, c: Confirmation): Progress {
    match c.progress
    case Begun => if c.draft < |s.drafts| then HasDraft(s.drafts[c.draft]) else Failed(DraftNotFound)
    case HasDraft(row) => Examined(s, c, row)
    case WantsSpecialist(row) => HasSpecialist(row)
    case HasSpecialist(row) => if Taken(s.appointments, row) then Failed(SpecialistUnavailable)
                               else Insertable(row, s.changes)
    case Insertable(row, seen) => Committed(|s.appointments|, false, seen)
    case Replayable(_, known) => Committed(known, true, 0)
    case _ => c.progress
  }

  function WithProgress(s: State, i: nat, p: Progress): State
    requires i < |s.confirmations|
  {
    s.(confirmations := s.confirmations[i := s.confirmations[i].(progress := p)])
  }

  function Advance(s: State, i: nat): State
    requires i < |s.confirmations|
  {
    var c := s.confirmations[i];
    var next := WithProgress(s, i, Advanced(s, c));
    if c.progress.Insertable? && c.draft < |s.drafts|
    then next.(appointments := s.appointments + [AppointmentOf(c.progress.row)],
               stamps := s.stamps + [s.changes], changes := s.changes + 1,
               drafts := s.drafts[c.draft :=
                                    s.drafts[c.draft].(status := Booked, appointment := Some(|s.appointments|))])
    else next
  }

  // ---- Steps of a create call ----

  /** The draft a connection of the tenant created with a key. */
  function FindDraft(table: seq<Draft>, actor: Actor, key: string): Option<nat> {
    if table == [] then None
    else
      var d, last := table[|table| - 1], |table| - 1;
      if d.tenant == actor.tenant && d.connection == actor.connection && d.request.key == key then Some(last)
      else FindDraft(table[..last], actor, key)
  }

  /** The unique index on connection and key has an entry. */
  predicate KeyUsed(table: seq<Draft>, connection: string, key: string) {
    exists d :: 0 <= d < |table| && table[d].connection == connection && table[d].request.key == key
  }

  function Text(s: Option<string>): string { if s.Some? then s.value else "" }

  /** The stored draft was made from the same data; a missing text counts as an empty one. */
  predicate SameRequest(stored: Request, req: Request) {
    && stored.customer == req.customer && stored.service == req.service && stored.branch == req.branch
    && Text(stored.variant) == Text(req.variant) && Text(stored.specialist) == Text(req.specialist)
    && Text(stored.notes) == Text(req.notes) && stored.start == req.start
  }

  function Reuse(table: seq<Draft>, found: Option<nat>, req: Request): CreateProgress {
    if found.None? || found.value >= |table| then Refused(StoreFailed)
    else if SameRequest(table[found.value].request, req) then Created(found.value, true, 0, false)
    else Refused(KeyReused)
  }

  function VariantMinutes(s: State, c: Creation): Result<int, SlotError> {
    if c.request.variant.None? then Ok(0)
    else
      var id := c.request.variant.value;
      if id in s.variants && s.variants[id].tenant == c.actor.tenant && s.variants[id].service == c.request.service
         && s.variants[id].active
      then Ok(s.variants[id].durationModifier) else Err(NotFound)
  }

  predicate KnownCustomer(s: State, c: Creation) {
    c.request.customer in s.customers && s.customers[c.request.customer] == Customer(c.actor.tenant, true)
  }

  function SlotRequest(c: Creation, extra: int): CheckRequest {
    CheckRequest(c.actor.tenant, c.request.service, c.request.branch, Text(c.request.specialist), c.request.start,
                 extra)
  }

  function Validated(s: State, c: Creation, check: Result<Check, SlotError>): CreateProgress {
    if !KnownCustomer(s, c) then Refused(Rejected(NotFound))
    else if VariantMinutes(s, c).Err? then Refused(Rejected(VariantMinutes(s, c).error))
    else if check.Err? then Refused(Rejected(check.error))
    else if check.value.service.requiresSpecialist && c.request.specialist.None? then Refused(SpecialistRequired)
    else if !check.value.available then Refused(SlotTaken)
    else Checked(check.value.durationMinutes, s.changes, check.value.service.requiresSpecialist)
  }

  /** The draft of a request that passed, inserted when the service's clock says now. */
  function DraftOf(s: State, c: Creation, minutes: int, now: int): Draft {
    Draft(c.actor.tenant, c.actor.connection, c.request, c.request.start + minutes * MINUTE, minutes, now + s.ttl,
          Waiting, None)
  }

  /** Progress after the next statement; check is what the slot check answers at this moment. */
  function CreateAdvanced(s: State, c: Creation, check: Result<Check, SlotError>): CreateProgress {
    match c.progress
    case Asked =>
      var found := FindDraft(s.drafts, c.actor, c.request.key);
      if found.Some? then Reuse(s.drafts, found, c.request) else Missing
    case Missing => Validated(s, c, check)
    case Checked(minutes, seen, guarded) =>
      if KeyUsed(s.drafts, c.actor.connection, c.request.key) then Conflicted
      else Created(|s.drafts|, false, seen, guarded)
    case Conflicted => Reuse(s.drafts, FindDraft(s.drafts, c.actor, c.request.key), c.request)
    case _ => c.progress
  }

  function CreateAdvance(s: State, i: nat, check: Result<Check, SlotError>, now: int): State
    requires i < |s.creations|
  {
    var c := s.creations[i];
    var next := s.(creations := s.creations[i := c.(progress := CreateAdvanced(s, c, check))]);
    if c.progress.Checked? && !KeyUsed(s.drafts, c.actor.connection, c.request.key)
    then next.(drafts := s.drafts + [DraftOf(s, c, c.progress.minutes, now)]) else next
  }

  /** The slot check of the call, made on the store of this moment when the service's clock says now. */
  ghost predicate ChecksNow(s: State, c: Creation, check: Result<Check, SlotError>, now: int) {
    KnownCustomer(s, c) && VariantMinutes(s, c).Ok? ==>
      CheckAnswer(Store(s.catalog, s.appointments), SlotRequest(c, VariantMinutes(s, c).value), now, check)
  }

  // ---- All steps ----

  datatype Event =
    | BeginConfirm(draft: nat, user: string)
    | StepConfirm(i: nat)
    | RollBack(i: nat)
    | BeginCreate(actor: Actor, request: Request)
    | StepCreate(i: nat, check: Result<Check, SlotError>, serviceNow: int)
    | AbortCreate(i: nat)
    | Tick(now: int)
    | Reconfigure(catalog: Catalog, customers: map<string, Customer>, variants: map<string, Variant>,
                  managers: set<(string, string)>)
    | OtherAppointment(appointment: Appointment)
    | OtherStatus(k: nat, status: Status)
    | OtherChange(k: nat, changed: Appointment)
    | OtherDraft(draftRow: Draft)
    | CloseDraft(d: nat)

  /** Table constraint: a buffer is not negative. */
  predicate BuffersValid(cat: Catalog) {
    forall id :: id in cat.services ==> cat.services[id].bufferMinutes >= 0
  }

  predicate RangeValid(a: Appointment) { a.ends.Some? ==> a.start <= a.ends.value }

  /** Every appointment has the number of one of the changes so far. */
  predicate Stamped(table: seq<Appointment>, stamps: seq<nat>, changes: nat) {
    |stamps| == |table| && forall k :: 0 <= k < |stamps| ==> stamps[k] < changes
  }

  ghost predicate Enabled(s: State, e: Event) {
    match e
    case BeginConfirm(_, _) => true
    case StepConfirm(i) => CanAdvance(s, i)
    case RollBack(i) => i < |s.confirmations| && !Finished(s.confirmations[i].progress)
    case BeginCreate(_, _) => true
    case StepCreate(i, check, now) =>
      && i < |s.creations| && !CreateFinished(s.creations[i].progress)
      && (s.creations[i].progress.Missing? ==> ChecksNow(s, s.creations[i], check, now))
    case AbortCreate(i) => i < |s.creations| && !CreateFinished(s.creations[i].progress)
    case Tick(now) => s.clock <= now
    case Reconfigure(catalog, _, _, _) => BuffersValid(catalog)
    // Other writers add appointments of other sources, and change these as they like. An appointment of this
    // source may lose its active status by their hand, but is not rescheduled or made active again.
    case OtherAppointment(a) => a.source != MCP && RangeValid(a)
    case OtherStatus(k, status) => k < |s.appointments| && (Active(status) ==> Active(s.appointments[k].status))
    case OtherChange(k, a) =>
      k < |s.appointments| && s.appointments[k].source != MCP && a.source != MCP && RangeValid(a)
    case OtherDraft(d) =>
      && d.status == Waiting && d.appointment.None? && d.request.start <= d.ends
      && !KeyUsed(s.drafts, d.connection, d.request.key)
    case CloseDraft(d) => d < |s.drafts| && s.drafts[d].status == Waiting && DraftUnlocked(s.confirmations, d, -1)
  }

  function OtherChanged(s: State, k: nat, a: Appointment): State {
    if k < |s.appointments| && k < |s.stamps|
    then s.(appointments := s.appointments[k := a], stamps := s.stamps[k := s.changes], changes := s.changes + 1)
    else s
  }

  ghost function Next(s: State, e: Event): State
    requires Enabled(s, e)
  {
    match e
    case BeginConfirm(draft, user) => s.(confirmations := s.confirmations + [Confirmation(draft, user, s.clock, Begun)])
    case StepConfirm(i) => Advance(s, i)
    case RollBack(i) => WithProgress(s, i, RolledBack)
    case BeginCreate(actor, request) => s.(creations := s.creations + [Creation(actor, request, Asked)])
    case StepCreate(i, check, now) => CreateAdvance(s, i, check, now)
    case AbortCreate(i) => s.(creations := s.creations[i := s.creations[i].(progress := Refused(StoreFailed))])
    case Tick(now) => s.(clock := now)
    case Reconfigure(catalog, customers, variants, managers) =>
      s.(catalog := catalog, customers := customers, variants := variants, managers := managers)
    case OtherAppointment(a) =>
      s.(appointments := s.appointments + [a], stamps := s.stamps + [s.changes], changes := s.changes + 1)
    case OtherStatus(k, status) => s.(appointments := s.appointments[k := s.appointments[k].(status := status)])
    case OtherChange(k, a) => OtherChanged(s, k, a)
    case OtherDraft(d) => s.(drafts := s.drafts + [d])
    case CloseDraft(d) => s.(drafts := s.drafts[d := s.drafts[d].(status := Closed)])
  }

  /** The events, in this order, lead from one state to another. */
  ghost predicate Leads(s: State, es: seq<Event>, t: State)
    decreases |es|
  {
    if es == [] then s == t else Enabled(s, es[0]) && Leads(Next(s, es[0]), es[1..], t)
  }

  /** Before any create or confirm: whatever drafts and appointments there are, none came from a confirmation. */
  ghost predicate Initial(s: State) {
    && s.confirmations == [] && s.creations == [] && BuffersValid(s.catalog)
    && Stamped(s.appointments, s.stamps, s.changes)
    && (forall k :: 0 <= k < |s.appointments| ==> s.appointments[k].source != MCP && RangeValid(s.appointments[k]))
    && (forall d :: 0 <= d < |s.drafts| ==>
                      s.drafts[d].status != Booked && s.drafts[d].appointment.None?
                      && s.drafts[d].request.start <= s.drafts[d].ends)
    && (forall c, d :: 0 <= c < d < |s.drafts| && s.drafts[c].connection == s.drafts[d].connection ==>
                         s.drafts[c].request.key != s.drafts[d].request.key)
  }
}
