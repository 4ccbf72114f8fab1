/** What every step of the draft protocol keeps. */
module DraftInvariants {
  import opened Base
  import opened Tables
  import opened DraftProtocol

  // ---- Tables ----

  ghost predicate RangesValid(table: seq<Appointment>) {
    forall k :: 0 <= k < |table| ==> RangeValid(table[k])
  }

  /** The unique index on connection and key. */
  ghost predicate KeysUnique(table: seq<Draft>) {
    forall c, d :: 0 <= c < d < |table| && table[c].connection == table[d].connection ==>
                     table[c].request.key != table[d].request.key
  }

  /** The appointment carries the draft's data; only its status may have moved on. */
  ghost predicate MadeFrom(a: Appointment, d: Draft) { a.(status := Pending) == AppointmentOf(d) }

  /** A draft is booked exactly when it points to an appointment, which is then the one made from it. */
  ghost predicate BookedRow(d: Draft, table: seq<Appointment>) {
    && (d.status == Booked <==> d.appointment.Some?)
    && (d.appointment.Some? ==> d.appointment.value < |table| && MadeFrom(table[d.appointment.value], d))
  }

  ghost predicate Linked(drafts: seq<Draft>, table: seq<Appointment>) {
    forall d :: 0 <= d < |drafts| ==> BookedRow(drafts[d], table)
  }

  /** Two drafts never share an appointment. */
  ghost predicate Injective(drafts: seq<Draft>) {
    forall c, d :: 0 <= c < d < |drafts| && drafts[c].appointment.Some? ==>
                  drafts[c].appointment != drafts[d].appointment
  }

  /** Every appointment of this source was made from a draft. */
  ghost predicate Sourced(drafts: seq<Draft>, table: seq<Appointment>) {
    forall m :: 0 <= m < |table| && table[m].source == MCP ==>
                  exists d :: 0 <= d < |drafts| && drafts[d].appointment == Some(m)
  }

  function CountMcp(table: seq<Appointment>): nat {
    if table == [] then 0 else CountMcp(table[..|table| - 1]) + if table[|table| - 1].source == MCP then 1 else 0
  }

  function CountBooked(drafts: seq<Draft>): nat {
    if drafts == [] then 0
    else CountBooked(drafts[..|drafts| - 1]) + if drafts[|drafts| - 1].status == Booked then 1 else 0
  }

  // ---- Locks ----

  /** A draft row is locked by one transaction at most. */
  ghost predicate DraftLocks(cs: seq<Confirmation>) {
    forall i, j :: 0 <= i < j < |cs| && HoldsDraft(cs[i].progress) && HoldsDraft(cs[j].progress) ==>
                  cs[i].draft != cs[j].draft
  }

  /** An advisory lock is held by one transaction at most. */
  ghost predicate SpecialistLocks(cs: seq<Confirmation>) {
    forall i, j, key :: 0 <= i < j < |cs| && HoldsSpecialist(cs[i].progress, key) ==>
                  !HoldsSpecialist(cs[j].progress, key)
  }

  /** What a transaction read from its locked draft row is still there, and fits how far it got. */
  ghost predicate ReadRow(c: Confirmation, drafts: seq<Draft>) {
    HoldsDraft(c.progress) ==>
      && c.draft < |drafts| && c.progress.row == drafts[c.draft]
      && (c.progress.WantsSpecialist? || c.progress.HasSpecialist? || c.progress.Insertable? ==>
            c.progress.row.status == Waiting && c.began <= c.progress.row.expiresAt)
      && (c.progress.WantsSpecialist? || c.progress.HasSpecialist? ==> c.progress.row.request.specialist.Some?)
      && (c.progress.Replayable? ==> c.progress.row.appointment == Some(c.progress.known))
  }

  ghost predicate RowsRead(cs: seq<Confirmation>, drafts: seq<Draft>) {
    forall i :: 0 <= i < |cs| ==> ReadRow(cs[i], drafts)
  }

  // ---- Overlaps ----

  // Overlaps are dated by the stamps of the appointments: seen is the number of changes there had been at a check,
  // so a stamp from there on belongs to an appointment that was added or changed after the check.

  /** Every appointment that overlaps the row now came to do so after the check and is of another source. */
  ghost predicate Clear(table: seq<Appointment>, stamps: seq<nat>, row: Draft, seen: nat) {
    forall k :: 0 <= k < |table| && k < |stamps| && Overlaps(table[k], row) ==>
                  stamps[k] >= seen && table[k].source != MCP
  }

  /** A transaction about to insert has cleared its specialist, if its draft names one. */
  ghost predicate ClearedOne(p: Progress, table: seq<Appointment>, stamps: seq<nat>, changes: nat) {
    p.Insertable? ==> p.seen <= changes && (p.row.request.specialist.Some? ==> Clear(table, stamps, p.row, p.seen))
  }

  ghost predicate Cleared(cs: seq<Confirmation>, table: seq<Appointment>, stamps: seq<nat>, changes: nat) {
    forall i :: 0 <= i < |cs| ==> ClearedOne(cs[i].progress, table, stamps, changes)
  }

  /** Two active appointments of one specialist of a tenant at overlapping times. */
  ghost predicate Clash(a: Appointment, b: Appointment) {
    && a.tenant == b.tenant && a.specialist == b.specialist && a.specialist.Some? && Active(a.status)
    && Active(b.status)
    && b.ends.Some? && RangesOverlap(a.start, a.ends, b.start, b.ends.value)
  }

  /** Whatever clashes with appointment m now is of another source and was added or changed after the check of m. */
  ghost predicate Alone(table: seq<Appointment>, stamps: seq<nat>, changes: nat, m: nat, seen: nat) {
    m < |table| && table[m].source == MCP && seen <= changes &&
    forall k :: 0 <= k < |table| && k < |stamps| && k != m && Clash(table[k], table[m]) ==>
                  stamps[k] >= seen && table[k].source != MCP
  }

  ghost predicate BookingsAlone(cs: seq<Confirmation>, table: seq<Appointment>, stamps: seq<nat>, changes: nat) {
    forall i :: 0 <= i < |cs| && cs[i].progress.Committed? && !cs[i].progress.idempotent ==>
                  Alone(table, stamps, changes, cs[i].progress.booked, cs[i].progress.seen)
  }

  // ---- Outcomes ----

  /** A committed confirmation returned the appointment its draft points to. */
  ghost predicate Outcome(c: Confirmation, drafts: seq<Draft>) {
    c.progress.Committed? ==> c.draft < |drafts| && drafts[c.draft].appointment == Some(c.progress.booked)
  }

  ghost predicate Outcomes(cs: seq<Confirmation>, drafts: seq<Draft>) {
    forall i :: 0 <= i < |cs| ==> Outcome(cs[i], drafts)
  }

  /** The confirmation that inserted the appointment. */
  predicate BookedBy(c: Confirmation, draft: nat) {
    c.draft == draft && c.progress.Committed? && !c.progress.idempotent
  }

  /** Every booked draft was booked by exactly one transaction, which began before the draft expired. */
  ghost predicate OnceEach(cs: seq<Confirmation>, drafts: seq<Draft>) {
    && (forall d :: 0 <= d < |drafts| && drafts[d].status == Booked ==>
                      exists i :: 0 <= i < |cs| && BookedBy(cs[i], d) && cs[i].began <= drafts[d].expiresAt)
    && (forall i, j, d :: 0 <= i < j < |cs| && BookedBy(cs[i], d) ==> !BookedBy(cs[j], d))
  }

  // ---- Create calls ----

  /** The slot check passed: an active appointment that has not changed since does not meet [start, ends). */
  ghost predicate WasFree(table: seq<Appointment>, stamps: seq<nat>, seen: nat, tenant: string,
                          specialist: Option<string>, start: int, ends: int) {
    specialist.Some? && start < ends &&
    forall k :: 0 <= k < |table| && k < |stamps| && stamps[k] < seen && table[k].tenant == tenant
                && table[k].specialist == specialist && Active(table[k].status) ==>
                  EndOf(table[k]) <= start || ends <= table[k].start
  }

  ghost predicate CreationSound(c: Creation, drafts: seq<Draft>, table: seq<Appointment>, stamps: seq<nat>,
                                changes: nat) {
    match c.progress
    case Checked(minutes, seen, guarded) =>
      && minutes > 0 && seen <= changes
      && (guarded && Text(c.request.specialist) != "" ==>
            WasFree(table, stamps, seen, c.actor.tenant, c.request.specialist, c.request.start,
                    c.request.start + minutes * MINUTE))
    case Created(d, reused, seen, guarded) =>
      && d < |drafts| && drafts[d].tenant == c.actor.tenant && drafts[d].connection == c.actor.connection
      && drafts[d].request.key == c.request.key && SameRequest(drafts[d].request, c.request)
      && seen <= changes
      && (!reused && guarded && Text(c.request.specialist) != "" ==>
            WasFree(table, stamps, seen, drafts[d].tenant, drafts[d].request.specialist, drafts[d].request.start,
                    drafts[d].ends))
    case _ => true
  }

  ghost predicate CreationsSound(cs: seq<Creation>, drafts: seq<Draft>, table: seq<Appointment>, stamps: seq<nat>,
                                 changes: nat) {
    forall i :: 0 <= i < |cs| ==> CreationSound(cs[i], drafts, table, stamps, changes)
  }

  predicate Makes(c: Creation) { c.progress.Created? && !c.progress.reused }

  /** A draft was made by one create call at most; all others that returned it reused it. */
  ghost predicate MadeOnce(cs: seq<Creation>) {
    forall i, j :: 0 <= i < j < |cs| && Makes(cs[i]) && Makes(cs[j]) ==> cs[i].progress.draft != cs[j].progress.draft
  }

  ghost predicate DraftsOrdered(drafts: seq<Draft>) {
    forall d :: 0 <= d < |drafts| ==> drafts[d].request.start <= drafts[d].ends
  }

  ghost predicate Inv(s: State) {
    && RangesValid(s.appointments) && DraftsOrdered(s.drafts) && BuffersValid(s.catalog)
    && KeysUnique(s.drafts)
    && Linked(s.drafts, s.appointments) && Injective(s.drafts) && Sourced(s.drafts, s.appointments)
    && CountMcp(s.appointments) == CountBooked(s.drafts)
    && DraftLocks(s.confirmations) && SpecialistLocks(s.confirmations) && RowsRead(s.confirmations, s.drafts)
    && Stamped(s.appointments, s.stamps, s.changes)
    && Cleared(s.confirmations, s.appointments, s.stamps, s.changes)
    && BookingsAlone(s.confirmations, s.appointments, s.stamps, s.changes)
    && Outcomes(s.confirmations, s.drafts) && OnceEach(s.confirmations, s.drafts)
    && CreationsSound(s.creations, s.drafts, s.appointments, s.stamps, s.changes) && MadeOnce(s.creations)
  }
}
