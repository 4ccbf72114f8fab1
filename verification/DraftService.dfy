/**
 confirm_appointment_draft: the service reads the draft and its own clock and lets the call through or refuses it;
 what it lets through runs later, in a transaction of the database with its own now()
 (internal/application/drafts/service.go:117-196). In between, other transactions run.
 */
module DraftService {
  import opened Base
  import opened Tables
  import opened Availability
  import opened DraftProtocol
  import opened DraftInvariants
  import opened DraftSteps
  import opened DraftCalls
  import opened Occupancy

  datatype ServiceError = NoSuchDraft | Forbidden | Expired | NotPending | Unavailable

  function Mapped(e: ConfirmError): ServiceError {
    match e
    case DraftNotFound => NoSuchDraft
    case Unauthorized => Forbidden
    case InvalidDraftStatus => NotPending
    case DraftExpired => Expired
    case SpecialistUnavailable => Unavailable
  }

  /** The draft was created by this connection with this key. */
  predicate Owns(s: State, actor: Actor, draft: nat, key: string) {
    && draft < |s.drafts| && s.drafts[draft].tenant == actor.tenant
    && s.drafts[draft].connection == actor.connection && s.drafts[draft].request.key == key
  }

  /** What the service says to the draft it reads when its clock says now; None lets the call through. */
  function Screening(s: State, actor: Actor, draft: nat, key: string, now: int): Option<ServiceError> {
    if !Owns(s, actor, draft, key) then Some(NoSuchDraft)
    else if s.drafts[draft].status == Waiting && now >= s.drafts[draft].expiresAt then Some(Expired)
    else if s.drafts[draft].status == Closed then Some(NotPending)
    else None
  }

  /**
   The service lets a call through if and only if its connection created the draft with its key and the draft is
   confirmed, at whatever time, or waits and has not expired by the service's clock.
   */
  lemma ScreeningMeaning(s: State, actor: Actor, draft: nat, key: string, now: int)
    ensures var r := Screening(s, actor, draft, key, now);
            if draft >= |s.drafts| then r == Some(NoSuchDraft)
            else
              var d := s.drafts[draft];
              var own := d.tenant == actor.tenant && d.connection == actor.connection && d.request.key == key;
              && (r == None <==> own && (d.status == Booked || (d.status == Waiting && now < d.expiresAt)))
              && (r == Some(NoSuchDraft) <==> !own)
              && (r == Some(Expired) <==> own && d.status == Waiting && d.expiresAt <= now)
              && (r == Some(NotPending) <==> own && d.status == Closed)
  {
  }

  /** The service reads in state s, and the function runs in state u. */
  function ServiceResult(s: State, now: int, u: State, actor: Actor, user: string, draft: nat, key: string)
    : Result<(nat, bool), ServiceError>
  {
    match Screening(s, actor, draft, key, now)
    case Some(error) => Err(error)
    case None =>
      match ConfirmResult(u, draft, user)
      case Ok(value) => Ok(value)
      case Err(e) => Err(Mapped(e))
  }

  // ---- A draft during a run ----

  ghost predicate ClosedIn(es: seq<Event>, d: nat) { exists k :: 0 <= k < |es| && es[k] == CloseDraft(d) }

  /** The draft some time later, when closed says whether another writer closed it meanwhile. */
  ghost predicate RowLater(a: Draft, b: Draft, closed: bool) {
    && b == a.(status := b.status, appointment := b.appointment)
    && (a.status != Waiting ==> a == b)
    && (b.status == Closed <==> a.status == Closed || closed)
  }

  lemma AdvancedDraft(s: State, i: nat, d: nat)
    requires i < |s.confirmations| && ReadRow(s.confirmations[i], s.drafts) && d < |s.drafts|
    requires BookedRow(s.drafts[d], s.appointments)
    ensures var t := Advance(s, i); d < |t.drafts| && RowLater(s.drafts[d], t.drafts[d], false)
  {
  }

  lemma InsertedDraft(s: State, i: nat, check: Result<Check, SlotError>, now: int, d: nat)
    requires i < |s.creations| && d < |s.drafts|
    ensures var t := CreateAdvance(s, i, check, now); d < |t.drafts| && s.drafts[d] == t.drafts[d]
  {
  }

  lemma StepDraft(s: State, e: Event, d: nat)
    requires Inv(s) && Enabled(s, e) && d < |s.drafts|
    ensures d < |Next(s, e).drafts| && RowLater(s.drafts[d], Next(s, e).drafts[d], e == CloseDraft(d))
  {
    if e.StepConfirm? {
      AdvancedDraft(s, e.i, d);
    } else if e.StepCreate? {
      InsertedDraft(s, e.i, e.check, e.serviceNow, d);
    }
  }

  lemma ClosedFirstOrLater(es: seq<Event>, d: nat)
    requires es != []
    ensures ClosedIn(es, d) <==> es[0] == CloseDraft(d) || ClosedIn(es[1..], d)
  {
    if ClosedIn(es[1..], d) {
      var k :| 0 <= k < |es[1..]| && es[1..][k] == CloseDraft(d);
      assert es[k + 1] == CloseDraft(d);
    }
    if ClosedIn(es, d) && es[0] != CloseDraft(d) {
      var k :| 0 <= k < |es| && es[k] == CloseDraft(d);
      assert es[1..][k - 1] == CloseDraft(d);
    }
  }

  lemma {:induction false} RunDraft(s: State, es: seq<Event>, t: State, d: nat)
    requires Inv(s) && Leads(s, es, t) && d < |s.drafts|
    ensures d < |t.drafts| && RowLater(s.drafts[d], t.drafts[d], ClosedIn(es, d))
    decreases |es|
  {
    if es != [] {
      var next := Next(s, es[0]);
      StepDraft(s, es[0], d);
      StepKeeps(s, es[0]);
      RunDraft(next, es[1..], t, d);
      ClosedFirstOrLater(es, d);
    }
  }

  // ---- Confirming again ----

  /**
   However a draft was confirmed, and whatever happens after that, confirming it again returns the same
   appointment and changes no table, for whoever may confirm then.
   */
  lemma {:induction false} ConfirmTwice(t: State, i: nat, es: seq<Event>, later: State, again: string)
    requires Inv(t) && i < |t.confirmations| && t.confirmations[i].progress.Committed? && Leads(t, es, later)
    requires t.confirmations[i].draft < |t.drafts| ==>
               (t.drafts[t.confirmations[i].draft].tenant, again) in later.managers
    ensures var d, u := t.confirmations[i].draft, ConfirmAlone(later, t.confirmations[i].draft, again);
            && ConfirmResult(later, d, again) == Ok((t.confirmations[i].progress.booked, true))
            && u.drafts == later.drafts && u.appointments == later.appointments
  {
    var d := t.confirmations[i].draft;
    assert Outcome(t.confirmations[i], t.drafts) && BookedRow(t.drafts[d], t.appointments);
    RunDraft(t, es, later, d);
    ConfirmDecides(later, d, again);
  }

  // ---- What becomes of a call that was let through ----

  /** What the service answers is what the function would refuse, or its result. */
  lemma AdmittedResult(s: State, now: int, u: State, actor: Actor, user: string, draft: nat, key: string)
    requires Screening(s, actor, draft, key, now).None?
    ensures var r, refusal := ServiceResult(s, now, u, actor, user, draft, key), Refusal(u, draft, user);
            && (refusal.Some? ==> r == Err(Mapped(refusal.value)))
            && (refusal.None? ==> r.Ok? && draft < |u.drafts|)
            && (refusal.None? && u.drafts[draft].status == Booked && u.drafts[draft].appointment.Some? ==>
                  r == Ok((u.drafts[draft].appointment.value, true)))
  {
    ConfirmDecides(u, draft, user);
  }

  /** The reasons of the function, each by itself. */
  lemma RefusalReasons(u: State, draft: nat, user: string)
    requires draft < |u.drafts| && (u.drafts[draft].status == Booked ==> u.drafts[draft].appointment.Some?)
    ensures var refusal, row := Refusal(u, draft, user), u.drafts[draft];
            var allowed := (row.tenant, user) in u.managers;
            && (refusal == Some(Unauthorized) <==> !allowed)
            && (refusal == Some(DraftExpired) <==> allowed && row.status == Waiting && row.expiresAt < u.clock)
            && (refusal == Some(InvalidDraftStatus) <==> allowed && row.status == Closed)
            && refusal != Some(DraftNotFound)
            && (refusal == Some(SpecialistUnavailable) <==>
                  && allowed && row.status == Waiting && u.clock <= row.expiresAt
                  && DraftTaken(u.appointments, row))
  {
  }

  /** The draft that the function looks at is the one that the service let through. */
  lemma {:induction false} AdmittedRow(s: State, now: int, es: seq<Event>, u: State, actor: Actor, draft: nat,
                                       key: string)
    requires Inv(s) && Leads(s, es, u) && Screening(s, actor, draft, key, now).None?
    ensures draft < |s.drafts| && draft < |u.drafts|
    ensures u.drafts[draft].tenant == actor.tenant && u.drafts[draft].expiresAt == s.drafts[draft].expiresAt
    ensures u.drafts[draft].status == Booked ==> u.drafts[draft].appointment.Some?
    ensures u.drafts[draft].status == Closed <==> ClosedIn(es, draft)
  {
    RunDraft(s, es, u, draft);
    RunKeeps(s, es, u);
    assert BookedRow(u.drafts[draft], u.appointments);
  }

  /**
   A call that the service let through fails as expired exactly if the draft is still waiting when its age
   exceeds the database's now(), as not pending exactly if another writer closed it in between, as forbidden
   exactly if the user may not confirm then, and never as not found. What was confirmed by then is returned,
   however old it is.
   */
  lemma {:induction false} AdmittedOutcome(s: State, now: int, es: seq<Event>, u: State, actor: Actor, user: string,
                                           draft: nat, key: string)
    requires Inv(s) && Leads(s, es, u) && Screening(s, actor, draft, key, now).None?
    ensures draft < |s.drafts| && draft < |u.drafts|
    ensures var r, row := ServiceResult(s, now, u, actor, user, draft, key), u.drafts[draft];
            var allowed := (actor.tenant, user) in u.managers;
            && (r == Err(Forbidden) <==> !allowed)
            && (r == Err(Expired) <==> allowed && row.status == Waiting && s.drafts[draft].expiresAt < u.clock)
            && (r == Err(NotPending) <==> allowed && ClosedIn(es, draft))
            && r != Err(NoSuchDraft)
            && (r == Err(Unavailable) <==>
                  && allowed && row.status == Waiting && u.clock <= s.drafts[draft].expiresAt
                  && DraftTaken(u.appointments, row))
            && (allowed && row.status == Booked ==> row.appointment.Some? && r == Ok((row.appointment.value, true)))
  {
    AdmittedRow(s, now, es, u, actor, draft, key);
    RefusalReasons(u, draft, user);
    AdmittedResult(s, now, u, actor, user, draft, key);
  }

  /**
   The same for a transaction that other transactions interrupt: what its checks decide once it holds the lock on
   the row, in a state that any run leads to from the one in which the service let the call through.
   */
  lemma {:induction false} AdmittedTransaction(s: State, now: int, es: seq<Event>, t: State, i: nat, actor: Actor,
                                               key: string)
    requires Inv(s) && Leads(s, es, t) && i < |t.confirmations| && t.confirmations[i].progress.HasDraft?
    requires Screening(s, actor, t.confirmations[i].draft, key, now).None?
    ensures t.confirmations[i].draft < |s.drafts|
    ensures var c := t.confirmations[i];
            var p, allowed := Advanced(t, c), (actor.tenant, c.user) in t.managers;
            && (p == Failed(Unauthorized) <==> !allowed)
            && (p == Failed(DraftExpired) <==>
                  allowed && c.progress.row.status == Waiting && s.drafts[c.draft].expiresAt < c.began)
            && (p == Failed(InvalidDraftStatus) <==> allowed && ClosedIn(es, c.draft))
            && (p.Replayable? <==> allowed && c.progress.row.status == Booked)
  {
    var c := t.confirmations[i];
    RunDraft(s, es, t, c.draft);
    RunKeeps(s, es, t);
    assert ReadRow(c, t.drafts) && BookedRow(t.drafts[c.draft], t.appointments);
  }

  /** The row that the service read is still there when the function looks for it. */
  lemma {:induction false} AdmittedIsFound(s: State, now: int, es: seq<Event>, t: State, i: nat, actor: Actor,
                                           key: string)
    requires Inv(s) && Leads(s, es, t) && i < |t.confirmations| && t.confirmations[i].progress.Begun?
    requires Screening(s, actor, t.confirmations[i].draft, key, now).None?
    ensures Advanced(t, t.confirmations[i]).HasDraft?
  {
    RunDraft(s, es, t, t.confirmations[i].draft);
  }

  // ---- Both happen ----

  /** One waiting draft that expires at 10, and nothing else. */
  function OneDraft(): State {
    var req := Request("a", "v", "b", None, Some("s"), None, 0, "key-0001");
    State(0, 0, Catalog(map[], map[], map[], [], []), map[], map[], {("t", "u")},
          [Draft("t", "c", req, 60 * MINUTE, 60, 10, Waiting, None)], [], [], 0, [], [])
  }

  /** The service lets the call through at 9, and the transaction begins at 11. */
  lemma ExpiresInBetween()
    ensures var s := OneDraft();
            && Initial(s) && Leads(s, [Tick(11)], s.(clock := 11))
            && Screening(s, Actor("t", "c"), 0, "key-0001", 9).None?
            && ServiceResult(s, 9, s.(clock := 11), Actor("t", "c"), "u", 0, "key-0001") == Err(Expired)
  {
    var s := OneDraft();
    assert Next(s, Tick(11)) == s.(clock := 11);
    assert Leads(s.(clock := 11), [Tick(11)][1..], s.(clock := 11));
    ConfirmDecides(s.(clock := 11), 0, "u");
  }

  /** The service lets the call through, and another writer closes the draft before the transaction begins. */
  lemma ClosesInBetween()
    ensures var s := OneDraft(); var u := s.(drafts := [s.drafts[0].(status := Closed)]);
            && Initial(s) && Leads(s, [CloseDraft(0)], u)
            && Screening(s, Actor("t", "c"), 0, "key-0001", 9).None?
            && ServiceResult(s, 9, u, Actor("t", "c"), "u", 0, "key-0001") == Err(NotPending)
  {
    var s := OneDraft();
    var u := s.(drafts := [s.drafts[0].(status := Closed)]);
    assert Next(s, CloseDraft(0)) == u;
    assert Leads(u, [CloseDraft(0)][1..], u);
    ConfirmDecides(u, 0, "u");
  }
}
