/**
 Replies that customers send by WhatsApp, as a transition system. Any number of calls of
 apply_twilio_whatsapp_reply, redeliveries of a message among them, interleave with other writers and with the
 purge of old events (docs/handoff/sql/booknow_mcp_service_phase7_twilio.sql:18-199 and 247-263).

 A call's own writes become visible to others at its commit. Until then its message id keeps the others that
 insert it waiting, and the row of the appointment it read stays locked.
 */
module ReplyProtocol {
  import opened Base
  import opened Tables

  // ---- Rows ----

  datatype Intent = Confirm | Cancel | Unknown

  datatype Detail = NotNotified | AppointmentNotFound | AppointmentPast | InStatus(status: Status)

  datatype Outcome = Applied | AlreadyInState | NotApplicable(detail: Detail) | Ignored | Unresolved

  datatype EventRow = EventRow(intent: Intent, outcome: Outcome, appointment: Option<nat>, receivedAt: int)

  // Response is the appointment_response the function writes; all other types are Outgoing.
  datatype Kind = Outgoing | Response(intent: Intent)

  datatype Delivery = Queued | Undelivered | Sent | Delivered | Read

  // whatsapp: sent on that channel to a customer about an appointment.
  datatype Notification = Notification(tenant: string, customer: string, appointment: nat, kind: Kind, whatsapp: bool,
                                       delivery: Delivery, createdAt: int)

  // An appointment as far as replies read and change it. status is None when it is null.
  datatype Visit = Visit(tenant: string, customer: string, start: int, status: Option<Status>)

  // ---- Calls ----

  datatype ReplyError = InvalidIntent | InvalidWindow | InvalidResolution | MissingAppointment

  // Decided: the outcome is known but not committed; read is the row of the appointment, which is locked, if it
  // was read. Answered: committed; a duplicate found no row if its event was purged meanwhile.
  datatype Progress =
    | Begun
    | Reserved
    | WantsRow
    | Decided(outcome: Outcome, read: Option<Visit>)
    | Known
    | Answered(duplicate: bool, result: Option<Outcome>, after: Option<Status>)
    | Failed(error: ReplyError)
    | RolledBack

  // intent is None for a text that is none of the three; began is the transaction's now().
  datatype Call = Call(sid: string, intent: Option<Intent>, tenant: Option<string>, customer: Option<string>,
                       appointment: Option<nat>, window: Option<int>, began: int, progress: Progress)

  predicate Finished(p: Progress) { p.Answered? || p.Failed? || p.RolledBack? }

  /** The call has inserted its event row and not yet committed it. */
  predicate HoldsSid(p: Progress) { p.Reserved? || p.WantsRow? || p.Decided? }

  predicate HoldsRow(c: Call, k: nat) { c.progress.Decided? && c.progress.read.Some? && c.appointment == Some(k) }

  // ---- State ----

  // first holds the status each appointment was inserted with, purges the events that each purge deleted, purged
  // their message ids, touched the appointments that another writer changed.
  datatype State = State(clock: int, events: map<string, EventRow>, notifications: seq<Notification>,
                         visits: seq<Visit>, calls: seq<Call>, first: seq<Option<Status>>,
                         purges: seq<map<string, EventRow>>, purged: set<string>, touched: set<nat>)

  // ---- Decisions ----

  const HOUR := 60 * MINUTE

  /** The validation at the head of the function. */
  function Invalid(c: Call): Option<ReplyError> {
    if c.intent.None? then Some(InvalidIntent)
    else if c.window.None? || c.window.value < HOUR || c.window.value > 7 * DAY then Some(InvalidWindow)
    else if c.tenant.None? != c.customer.None? || c.tenant.None? != c.appointment.None? then Some(InvalidResolution)
    else None
  }

  predicate Resolved(c: Call) { c.tenant.Some? && c.customer.Some? && c.appointment.Some? }

  /** The customer was told about the appointment by WhatsApp within the window; a recorded reply does not count. */
  predicate Tells(n: Notification, c: Call) {
    && Resolved(c) && c.window.Some?
    && n.tenant == c.tenant.value && n.customer == c.customer.value && n.appointment == c.appointment.value
    && n.whatsapp && n.kind.Outgoing? && n.delivery in [Sent, Delivered, Read]
    && n.createdAt > c.began - c.window.value
  }

  predicate Notified(notifications: seq<Notification>, c: Call) {
    exists k :: 0 <= k < |notifications| && Tells(notifications[k], c)
  }

  /** What is decided before the appointment is read. */
  function Screened(s: State, c: Call): Progress {
    if !Resolved(c) then Decided(Unresolved, None)
    else if c.intent == Some(Unknown) then Decided(Ignored, None)
    else if !Notified(s.notifications, c) then Decided(NotApplicable(NotNotified), None)
    else WantsRow
  }

  /** The appointment exists and belongs to the tenant and the customer. */
  predicate RowFound(visits: seq<Visit>, c: Call) {
    && Resolved(c) && c.appointment.value < |visits|
    && visits[c.appointment.value].tenant == c.tenant.value && visits[c.appointment.value].customer == c.customer.value
  }

  /** What is decided once the row of the appointment is locked. No comparison holds of a null status. */
  function Verdict(v: Visit, intent: Intent, began: int): Outcome {
    if v.start <= began then NotApplicable(AppointmentPast)
    else if (intent == Confirm && v.status == Some(Confirmed)) || (intent == Cancel && v.status == Some(Cancelled))
    then AlreadyInState
    else if v.status.Some? && v.status.value !in [Pending, Confirmed] then NotApplicable(InStatus(v.status.value))
    else Applied
  }

  function Examined(s: State, c: Call): Progress {
    if RowFound(s.visits, c) && c.intent.Some?
    then Decided(Verdict(s.visits[c.appointment.value], c.intent.value, c.began), Some(s.visits[c.appointment.value]))
    else Decided(NotApplicable(AppointmentNotFound), None)
  }

  function StatusOf(read: Option<Visit>): Option<Status> { if read.Some? then read.value.status else None }

  function NewStatus(intent: Intent): Status { if intent == Confirm then Confirmed else Cancelled }

  // ---- Steps of a call ----

  ghost predicate SidFree(cs: seq<Call>, sid: string, i: int) {
    forall j :: 0 <= j < |cs| && j != i && HoldsSid(cs[j].progress) ==> cs[j].sid != sid
  }

  ghost predicate RowFree(cs: seq<Call>, k: nat, i: int) {
    forall j :: 0 <= j < |cs| && j != i ==> !HoldsRow(cs[j], k)
  }

  /** The next statement of call i does not have to wait for another call. */
  ghost predicate CanAdvance(s: State, i: int) {
    && 0 <= i < |s.calls|
    && var c := s.calls[i];
    && !Finished(c.progress)
    && (c.progress.Begun? && Invalid(c).None? && c.sid !in s.events ==> SidFree(s.calls, c.sid, i))
    && (c.progress.WantsRow? && RowFound(s.visits, c) ==> RowFree(s.calls, c.appointment.value, i))
  }

  /** The last write of the event row refers to an appointment that does not exist. */
  predicate Dangling(s: State, c: Call) { c.appointment.Some? && c.appointment.value >= |s.visits| }

  predicate Applying(s: State, c: Call) {
    c.progress.Decided? && c.progress.outcome == Applied && RowFound(s.visits, c) && c.intent.Some?
  }

  function Advanced(s: State, c: Call): Progress {
    match c.progress
    case Begun =>
      if Invalid(c).Some? then Failed(Invalid(c).value) else if c.sid in s.events then Known else Reserved
    case Reserved => Screened(s, c)
    case WantsRow => Examined(s, c)
    case Known => Answered(true, if c.sid in s.events then Some(s.events[c.sid].outcome) else None, None)
    case Decided(outcome, read) =>
      if Dangling(s, c) then Failed(MissingAppointment)
      else Answered(false, Some(outcome), if Applying(s, c) then Some(NewStatus(c.intent.value)) else StatusOf(read))
    case _ => c.progress
  }

  function EventOf(c: Call, outcome: Outcome): EventRow {
    EventRow(if c.intent.Some? then c.intent.value else Unknown, outcome, c.appointment, c.began)
  }

  function ResponseTo(c: Call): Notification
    requires Resolved(c) && c.intent.Some?
  {
    Notification(c.tenant.value, c.customer.value, c.appointment.value, Response(c.intent.value), true, Delivered,
                 c.began)
  }

  function WithProgress(s: State, i: nat, p: Progress): State
    requires i < |s.calls|
  {
    s.(calls := s.calls[i := s.calls[i].(progress := p)])
  }

  function Marked(visits: seq<Visit>, k: nat, status: Status): seq<Visit>
    requires k < |visits|
  {
    visits[k := visits[k].(status := Some(status))]
  }

  /** The tables after the commit of a call that decided. */
  function Recorded(s: State, c: Call): State
    requires c.progress.Decided?
  {
    var t := s.(events := s.events[c.sid := EventOf(c, c.progress.outcome)]);
    if Applying(s, c)
    then t.(visits := Marked(s.visits, c.appointment.value, NewStatus(c.intent.value)),
            notifications := s.notifications + [ResponseTo(c)])
    else t
  }

  function Advance(s: State, i: nat): State
    requires i < |s.calls|
  {
    var c := s.calls[i];
    WithProgress(if c.progress.Decided? && !Dangling(s, c) then Recorded(s, c) else s, i, Advanced(s, c))
  }

  // ---- All steps ----

  const RETENTION := 30 * DAY

  /** The events that a purge at this moment deletes. */
  function Stale(events: map<string, EventRow>, now: int): set<string> {
    set sid | sid in events && events[sid].receivedAt < now - RETENTION
  }

  function StaleEvents(events: map<string, EventRow>, now: int): map<string, EventRow> {
    map sid | sid in events && sid in Stale(events, now) :: events[sid]
  }

  datatype Event =
    | BeginCall(call: Call)
    | StepCall(i: nat)
    | RollBack(i: nat)
    | Tick(now: int)
    | Purge
    | OtherNotification(notification: Notification)
    | OtherDelivery(n: nat, delivery: Delivery)
    | OtherVisit(visit: Visit)
    | OtherChange(k: nat, changed: Visit)

  ghost predicate Enabled(s: State, e: Event) {
    match e
    case BeginCall(call) => call.progress == Begun && call.began == s.clock
    case StepCall(i) => CanAdvance(s, i)
    case RollBack(i) => i < |s.calls| && !Finished(s.calls[i].progress)
    case Tick(now) => s.clock <= now
    case Purge => true
    // Only the function records replies.
    case OtherNotification(n) => n.kind.Outgoing?
    case OtherDelivery(n, _) => n < |s.notifications|
    case OtherVisit(_) => true
    case OtherChange(k, _) => k < |s.visits| && RowFree(s.calls, k, -1)
  }

  function Next(s: State, e: Event): State
    requires e.StepCall? || e.RollBack? ==> e.i < |s.calls|
    requires e.OtherDelivery? ==> e.n < |s.notifications|
    requires e.OtherChange? ==> e.k < |s.visits|
  {
    match e
    case BeginCall(call) => s.(calls := s.calls + [call])
    case StepCall(i) => Advance(s, i)
    case RollBack(i) => WithProgress(s, i, RolledBack)
    case Tick(now) => s.(clock := now)
    case Purge =>
      var stale := Stale(s.events, s.clock);
      s.(events := s.events - stale, purges := s.purges + [StaleEvents(s.events, s.clock)], purged := s.purged + stale)
    case OtherNotification(n) => s.(notifications := s.notifications + [n])
    case OtherDelivery(n, delivery) =>
      s.(notifications := s.notifications[n := s.notifications[n].(delivery := delivery)])
    case OtherVisit(visit) => s.(visits := s.visits + [visit], first := s.first + [visit.status])
    case OtherChange(k, changed) => s.(visits := s.visits[k := changed], touched := s.touched + {k})
  }

  ghost predicate Leads(s: State, es: seq<Event>, t: State)
    decreases |es|
  {
    if es == [] then s == t else Enabled(s, es[0]) && Leads(Next(s, es[0]), es[1..], t)
  }

  /** Before any call: no events and no recorded replies, whatever appointments and notifications there are. */
  ghost predicate Initial(s: State) {
    && s.calls == [] && s.events == map[] && s.purges == [] && s.purged == {} && s.touched == {}
    && (forall k :: 0 <= k < |s.notifications| ==> s.notifications[k].kind.Outgoing?)
    && s.first == seq(|s.visits|, k requires 0 <= k < |s.visits| => s.visits[k].status)
  }

  ghost predicate Reachable(t: State) {
    exists s, es :: Initial(s) && Leads(s, es, t)
  }
}
