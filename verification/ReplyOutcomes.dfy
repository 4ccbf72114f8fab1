/**
 What a reply does to the customer's appointment, said of the stored rows before and after
 (docs/handoff/sql/booknow_mcp_service_phase7_twilio.sql:85-167).
 */
module ReplyOutcomes {
  import opened Base
  import opened Tables
  import opened ReplyProtocol
  import opened ReplyInvariants
  import opened ReplySteps

  // ---- Arguments ----

  /** A window from one hour to seven days. */
  predicate WindowFine(c: Call) { c.window.Some? && 3_600 * SECOND <= c.window.value <= 604_800 * SECOND }

  /** Tenant, customer and appointment come together or not at all. */
  predicate ResolutionFine(c: Call) {
    || (c.tenant.Some? && c.customer.Some? && c.appointment.Some?)
    || (c.tenant.None? && c.customer.None? && c.appointment.None?)
  }

  /** The first argument that is wrong is the one that is named. */
  lemma InvalidMeaning(c: Call)
    ensures Invalid(c) == if c.intent.None? then Some(InvalidIntent)
                          else if !WindowFine(c) then Some(InvalidWindow)
                          else if !ResolutionFine(c) then Some(InvalidResolution) else None
  {
  }

  // ---- Notifications ----

  predicate TellsOf(n: Notification, c: Call) {
    && c.tenant == Some(n.tenant) && c.customer == Some(n.customer) && c.appointment == Some(n.appointment)
    && n.whatsapp && n.kind == Outgoing && (n.delivery == Sent || n.delivery == Delivered || n.delivery == Read)
    && c.window.Some? && c.began < n.createdAt + c.window.value
  }

  /** Within the window before the call, the customer got a WhatsApp message about the appointment that was sent. */
  ghost predicate ToldLately(notifications: seq<Notification>, c: Call) {
    exists k :: 0 <= k < |notifications| && TellsOf(notifications[k], c)
  }

  lemma NotifiedMeaning(notifications: seq<Notification>, c: Call)
    ensures Notified(notifications, c) <==> ToldLately(notifications, c)
  {
    forall k | 0 <= k < |notifications| ensures Tells(notifications[k], c) <==> TellsOf(notifications[k], c) {
    }
  }

  // ---- The appointment ----

  /** The status that a reply asks for. */
  function Wanted(intent: Intent): Status { if intent == Cancel then Cancelled else Confirmed }

  /** A reply can still be followed: nobody has answered yet, or a confirmed appointment is cancelled. */
  predicate Open(status: Option<Status>, intent: Intent) {
    status == None || status == Some(Pending) || (intent == Cancel && status == Some(Confirmed))
  }

  /** The appointment of the call, if it exists and belongs to the tenant and the customer. */
  predicate Own(visits: seq<Visit>, c: Call) {
    && c.tenant.Some? && c.customer.Some? && c.appointment.Some? && c.appointment.value < |visits|
    && visits[c.appointment.value].tenant == c.tenant.value && visits[c.appointment.value].customer == c.customer.value
  }

  /** The outcome of a reply of a notified customer, from the row as it was. */
  ghost predicate OutcomeFits(outcome: Outcome, v: Visit, intent: Intent, began: int) {
    if v.start <= began then outcome == NotApplicable(AppointmentPast)
    else && (outcome == Applied <==> Open(v.status, intent))
         && (outcome == AlreadyInState <==> v.status == Some(Wanted(intent)))
         && (!Open(v.status, intent) && v.status != Some(Wanted(intent)) ==>
               v.status.Some? && outcome == NotApplicable(InStatus(v.status.value)))
  }

  lemma VerdictMeaning(v: Visit, intent: Intent, began: int)
    requires intent != Unknown
    ensures OutcomeFits(Verdict(v, intent, began), v, intent, began)
  {
  }

  /** Of the appointments only k has changed, and it exactly if the reply is applied: then to what is wanted. */
  ghost predicate Followed(before: seq<Visit>, after: seq<Visit>, k: nat, outcome: Outcome, intent: Intent) {
    && k < |before| == |after| && (forall j :: 0 <= j < |before| && j != k ==> after[j] == before[j])
    && (outcome == Applied ==> after[k] == before[k].(status := Some(Wanted(intent))))
    && (outcome != Applied ==> after[k] == before[k])
    && (outcome == Applied || outcome == AlreadyInState ==> after[k].status == Some(Wanted(intent)))
  }

  /**
   The commit of a first answer of a customer who was told: its outcome is the one that the row as it is calls for.
   Applied or already there, the appointment then has the status that the customer asked for; otherwise it stays.
   All other appointments stay.
   */
  lemma ReplyIsFollowed(s: State, i: nat)
    requires Reachable(s) && CanAdvance(s, i) && s.calls[i].progress.Decided? && s.calls[i].progress.read.Some?
    ensures Own(s.visits, s.calls[i]) && s.calls[i].intent in [Some(Confirm), Some(Cancel)]
    ensures var t, k, intent := Advance(s, i), s.calls[i].appointment.value, s.calls[i].intent.value;
            && t.calls[i].progress.Answered? && t.calls[i].progress.result.Some?
            && OutcomeFits(t.calls[i].progress.result.value, s.visits[k], intent, s.calls[i].began)
            && Followed(s.visits, t.visits, k, t.calls[i].progress.result.value, intent)
  {
    ReachableInv(s);
    assert RowRead(s.calls[i], s.visits) && Sensible(s.calls[i]);
    VerdictMeaning(s.calls[i].progress.read.value, s.calls[i].intent.value, s.calls[i].began);
  }

  /** A call reads the row exactly if it asks to confirm or cancel and its customer was told, and the row is there. */
  lemma RowIsRead(s: State, c: Call)
    requires c.progress.Reserved? && Invalid(c).None?
    ensures Screened(s, c).WantsRow?
            <==> c.tenant.Some? && c.intent in [Some(Confirm), Some(Cancel)] && ToldLately(s.notifications, c)
    ensures Examined(s, c).Decided? && (Examined(s, c).read.Some? <==> Own(s.visits, c))
    ensures Own(s.visits, c) ==> Examined(s, c).read == Some(s.visits[c.appointment.value])
  {
    NotifiedMeaning(s.notifications, c);
    assert c.intent.value.Confirm? || c.intent.value.Cancel? || c.intent.value.Unknown?;
  }
}
