/**
 What one call does that meets no other transaction (docs/handoff/sql/booknow_mcp_service_phase6_drafts.sql:44-164,
 internal/application/drafts/service.go:39-115): a run of the protocol in which its own steps are the only ones.
 */
module DraftCalls {
  import opened Base
  import opened Tables
  import opened Availability
  import opened DraftProtocol
  import opened DraftLiveness
  import opened Occupancy

  // ---- One call at a time ----

  /** The state after transaction i has taken all its steps and no other has taken any. */
  function RunConfirm(s: State, i: nat): State
    requires i < |s.confirmations|
    decreases Remaining(s.confirmations[i].progress)
  {
    if Finished(s.confirmations[i].progress) then s else RunConfirm(Advance(s, i), i)
  }

  function ConfirmAlone(s: State, draft: nat, user: string): State {
    RunConfirm(s.(confirmations := s.confirmations + [Confirmation(draft, user, s.clock, Begun)]), |s.confirmations|)
  }

  /** What a finished confirmation returns to its caller. */
  function Returned(p: Progress): Result<(nat, bool), ConfirmError> {
    match p
    case Committed(booked, idempotent, _) => Ok((booked, idempotent))
    case Failed(error) => Err(error)
    case _ => Err(DraftNotFound)
  }

  function ConfirmResult(s: State, draft: nat, user: string): Result<(nat, bool), ConfirmError> {
    var t := ConfirmAlone(s, draft, user);
    if |s.confirmations| < |t.confirmations| then Returned(t.confirmations[|s.confirmations|].progress)
    else Err(DraftNotFound)
  }

  ghost predicate Quiet(s: State, i: int) {
    forall j :: 0 <= j < |s.confirmations| && j != i ==> Finished(s.confirmations[j].progress)
  }

  /** A call that meets no other transaction is a run of the protocol. */
  lemma {:induction false} ConfirmAloneIsRun(s: State, i: nat) returns (es: seq<Event>)
    requires i < |s.confirmations| && Quiet(s, i)
    ensures Leads(s, es, RunConfirm(s, i))
    ensures forall k :: 0 <= k < |es| ==> es[k] == StepConfirm(i)
    decreases Remaining(s.confirmations[i].progress)
  {
    if Finished(s.confirmations[i].progress) {
      es := [];
    } else {
      assert CanAdvance(s, i);
      var rest := ConfirmAloneIsRun(Advance(s, i), i);
      es := [StepConfirm(i)] + rest;
      assert es[1..] == rest;
    }
  }

  /** The five reasons to refuse a draft, in the order in which they are looked at; None if there is none. */
  ghost function Refusal(s: State, draft: nat, user: string): Option<ConfirmError> {
    if draft >= |s.drafts| then Some(DraftNotFound)
    else
      var row := s.drafts[draft];
      if (row.tenant, user) !in s.managers then Some(Unauthorized)
      else if row.status == Booked && row.appointment.Some? then None
      else if row.status != Waiting then Some(InvalidDraftStatus)
      else if row.expiresAt < s.clock then Some(DraftExpired)
      else if DraftTaken(s.appointments, row) then Some(SpecialistUnavailable)
      else None
  }

  lemma ConfirmUnfolds(s: State, i: nat)
    requires i < |s.confirmations| && !Finished(s.confirmations[i].progress)
    ensures RunConfirm(s, i) == RunConfirm(Advance(s, i), i)
  {
  }

  lemma InsertableRuns(s: State, i: nat)
    requires i < |s.confirmations| && s.confirmations[i].progress.Insertable? && s.confirmations[i].draft < |s.drafts|
    ensures var t, d := RunConfirm(s, i), s.confirmations[i].draft;
            && t.appointments == s.appointments + [AppointmentOf(s.confirmations[i].progress.row)]
            && t.drafts == s.drafts[d := s.drafts[d].(status := Booked, appointment := Some(|s.appointments|))]
            && |t.confirmations| == |s.confirmations|
            && Returned(t.confirmations[i].progress) == Ok((|s.appointments|, false))
  {
    ConfirmUnfolds(s, i);
  }

  lemma WantingRuns(s: State, i: nat)
    requires i < |s.confirmations| && s.confirmations[i].progress.WantsSpecialist?
    requires s.confirmations[i].draft < |s.drafts|
    ensures var t, d, row := RunConfirm(s, i), s.confirmations[i].draft, s.confirmations[i].progress.row;
            && |t.confirmations| == |s.confirmations|
            && if Taken(s.appointments, row)
               then t == s.(confirmations := t.confirmations)
                    && Returned(t.confirmations[i].progress) == Err(SpecialistUnavailable)
               else && t.appointments == s.appointments + [AppointmentOf(row)]
                    && t.drafts == s.drafts[d := s.drafts[d].(status := Booked, appointment := Some(|s.appointments|))]
                    && Returned(t.confirmations[i].progress) == Ok((|s.appointments|, false))
  {
    ConfirmUnfolds(s, i);
    var one := Advance(s, i);
    ConfirmUnfolds(one, i);
    if !Taken(s.appointments, s.confirmations[i].progress.row) {
      InsertableRuns(Advance(one, i), i);
    }
  }

  /** Two statements on: the row is locked and examined. */
  lemma ExaminedNext(s: State, i: nat)
    requires i < |s.confirmations| && s.confirmations[i].progress.Begun? && s.confirmations[i].draft < |s.drafts|
    ensures !Finished(Advance(s, i).confirmations[i].progress)
    ensures Advance(Advance(s, i), i)
            == WithProgress(s, i, Examined(s, s.confirmations[i], s.drafts[s.confirmations[i].draft]))
  {
    var one, c, row := Advance(s, i), s.confirmations[i], s.drafts[s.confirmations[i].draft];
    assert Examined(one, one.confirmations[i], row) == Examined(s, c, row);
    assert Advance(one, i).confirmations == WithProgress(s, i, Examined(s, c, row)).confirmations;
  }

  lemma ExaminedRuns(s: State, i: nat)
    requires i < |s.confirmations| && s.confirmations[i].progress.Begun? && s.confirmations[i].draft < |s.drafts|
    ensures var row := s.drafts[s.confirmations[i].draft];
            RunConfirm(s, i) == RunConfirm(WithProgress(s, i, Examined(s, s.confirmations[i], row)), i)
  {
    ConfirmUnfolds(s, i);
    ExaminedNext(s, i);
    ConfirmUnfolds(Advance(s, i), i);
  }

  ghost predicate Booking(s: State, t: State, draft: nat) {
    draft < |s.drafts| &&
    var d := s.drafts[draft];
    && t.appointments == s.appointments + [Appointment(d.tenant, d.request.specialist, d.request.start, Some(d.ends),
                                                       d.minutes, Pending, "mcp")]
    && t.drafts == s.drafts[draft := d.(status := Booked, appointment := Some(|s.appointments|))]
  }

  /**
   The decision table of a confirmation: it fails with the first reason that applies, and then the tables stay
   as they were; it returns the known appointment of a booked draft, whatever the time and the schedule; and it
   books every other draft, by adding one appointment and marking one draft.
   */
  lemma ConfirmDecides(s: State, draft: nat, user: string)
    ensures var t, r := ConfirmAlone(s, draft, user), ConfirmResult(s, draft, user);
            match Refusal(s, draft, user)
            case Some(error) => r == Err(error) && t == s.(confirmations := t.confirmations)
            case None =>
              && draft < |s.drafts|
              && if s.drafts[draft].status == Booked && s.drafts[draft].appointment.Some?
                 then r == Ok((s.drafts[draft].appointment.value, true)) && t.drafts == s.drafts
                      && t.appointments == s.appointments
                 else r == Ok((|s.appointments|, false)) && Booking(s, t, draft)
  {
    var i := |s.confirmations|;
    var begun := s.(confirmations := s.confirmations + [Confirmation(draft, user, s.clock, Begun)]);
    if draft >= |s.drafts| {
      ConfirmUnfolds(begun, i);
    } else {
      ExaminedRuns(begun, i);
      var seen := WithProgress(begun, i, Examined(begun, begun.confirmations[i], s.drafts[draft]));
      match seen.confirmations[i].progress {
        case Insertable(_, _) => InsertableRuns(seen, i);
        case WantsSpecialist(_) =>
          TakenIsSharedInstant(s.appointments, s.drafts[draft]);
          WantingRuns(seen, i);
        case _ =>
      }
    }
  }

  /**
   Confirming again, whoever may confirm then and whatever else has changed, returns the same appointment and
   changes no table, as long as the draft is the one the first confirmation left.
   */
  lemma ConfirmAgain(s: State, draft: nat, user: string, later: State, again: string)
    requires ConfirmResult(s, draft, user).Ok?
    requires draft < |ConfirmAlone(s, draft, user).drafts| && draft < |later.drafts|
    requires later.drafts[draft] == ConfirmAlone(s, draft, user).drafts[draft]
    requires (later.drafts[draft].tenant, again) in later.managers
    ensures ConfirmResult(later, draft, again) == Ok((ConfirmResult(s, draft, user).value.0, true))
    ensures var u := ConfirmAlone(later, draft, again); u.drafts == later.drafts && u.appointments == later.appointments
  {
    ConfirmDecides(s, draft, user);
    ConfirmDecides(later, draft, again);
  }

  // ---- Creating ----

  function CreateRemaining(s: State, i: nat): nat
    requires i < |s.creations|
  {
    match s.creations[i].progress
    case Asked => 4
    case Missing => 3
    case Checked(_, _, _) => 2
    case Conflicted => 1
    case _ => 0
  }

  /** The state after create call i has taken all its steps, with one slot check. */
  function RunCreate(s: State, i: nat, check: Result<Check, SlotError>, now: int): State
    requires i < |s.creations|
    decreases CreateRemaining(s, i)
  {
    if CreateFinished(s.creations[i].progress) then s else RunCreate(CreateAdvance(s, i, check, now), i, check, now)
  }

  function CreateAlone(s: State, actor: Actor, request: Request, check: Result<Check, SlotError>, now: int): State {
    RunCreate(s.(creations := s.creations + [Creation(actor, request, Asked)]), |s.creations|, check, now)
  }

  /** The validation of a call does not depend on how far calls have got. */
  lemma ChecksSame(s: State, u: State, c: Creation, d: Creation, check: Result<Check, SlotError>, now: int)
    requires u == s.(creations := u.creations) && d == c.(progress := d.progress)
    ensures Validated(s, c, check) == Validated(u, d, check)
    ensures ChecksNow(s, c, check, now) <==> ChecksNow(u, d, check, now)
  {
    assert KnownCustomer(s, c) == KnownCustomer(u, d) && VariantMinutes(s, c) == VariantMinutes(u, d);
  }

  /** Until the slot check, a create call has changed nothing but its own progress. */
  lemma CreateLooksUp(s: State, i: nat, check: Result<Check, SlotError>, now: int)
    requires i < |s.creations| && s.creations[i].progress.Asked?
    ensures var u := CreateAdvance(s, i, check, now);
            && u == s.(creations := u.creations) && i < |u.creations|
            && u.creations[i] == s.creations[i].(progress := u.creations[i].progress) && !u.creations[i].progress.Asked?
  {
  }

  lemma CreateUsesWork(s: State, i: nat, check: Result<Check, SlotError>, now: int)
    requires i < |s.creations| && !CreateFinished(s.creations[i].progress)
    ensures i < |CreateAdvance(s, i, check, now).creations|
    ensures CreateRemaining(CreateAdvance(s, i, check, now), i) < CreateRemaining(s, i)
    ensures CreateAdvance(s, i, check, now).creations[i].progress.Missing? ==> s.creations[i].progress.Asked?
  {
  }

  /** A create call that meets no other one is a run of the protocol, with the slot check of this moment. */
  lemma {:induction false} CreateAloneIsRun(s: State, i: nat, check: Result<Check, SlotError>, now: int)
    returns (es: seq<Event>)
    requires i < |s.creations|
    requires s.creations[i].progress.Asked? || s.creations[i].progress.Missing? ==>
               ChecksNow(s, s.creations[i], check, now)
    ensures Leads(s, es, RunCreate(s, i, check, now))
    ensures forall k :: 0 <= k < |es| ==> es[k] == StepCreate(i, check, now)
    decreases CreateRemaining(s, i)
  {
    if CreateFinished(s.creations[i].progress) {
      es := [];
    } else {
      var u := CreateAdvance(s, i, check, now);
      CreateUsesWork(s, i, check, now);
      if s.creations[i].progress.Asked? {
        CreateLooksUp(s, i, check, now);
        ChecksSame(s, u, s.creations[i], u.creations[i], check, now);
      }
      var rest := CreateAloneIsRun(u, i, check, now);
      es := [StepCreate(i, check, now)] + rest;
      assert es[1..] == rest;
    }
  }

  function CreateResult(s: State, actor: Actor, request: Request, check: Result<Check, SlotError>,
                        now: int): CreateProgress {
    var t := CreateAlone(s, actor, request, check, now);
    if |t.creations| > |s.creations| then t.creations[|s.creations|].progress else Missing
  }

  lemma CreateUnfolds(s: State, i: nat, check: Result<Check, SlotError>, now: int)
    requires i < |s.creations| && !CreateFinished(s.creations[i].progress)
    ensures RunCreate(s, i, check, now) == RunCreate(CreateAdvance(s, i, check, now), i, check, now)
  {
  }

  /** The state in which create call i has got this far and the drafts are these. */
  function Ended(s: State, i: nat, p: CreateProgress, drafts: seq<Draft>): State
    requires i < |s.creations|
  {
    s.(creations := s.creations[i := s.creations[i].(progress := p)], drafts := drafts)
  }

  /** What becomes of a validated request. */
  ghost predicate Inserted(s: State, c: Creation, checked: CreateProgress, now: int, p: CreateProgress,
                           drafts: seq<Draft>) {
    checked.Checked? &&
    if KeyUsed(s.drafts, c.actor.connection, c.request.key)
    then p == Reuse(s.drafts, FindDraft(s.drafts, c.actor, c.request.key), c.request) && drafts == s.drafts
    else && p == Created(|s.drafts|, false, checked.seen, checked.guarded)
         && drafts == s.drafts + [DraftOf(s, c, checked.minutes, now)]
  }

  lemma CheckedRuns(s: State, i: nat, check: Result<Check, SlotError>, now: int)
    returns (p: CreateProgress, drafts: seq<Draft>)
    requires i < |s.creations| && s.creations[i].progress.Checked?
    ensures Inserted(s, s.creations[i], s.creations[i].progress, now, p, drafts)
    ensures RunCreate(s, i, check, now) == Ended(s, i, p, drafts)
  {
    CreateUnfolds(s, i, check, now);
    var u := CreateAdvance(s, i, check, now);
    if u.creations[i].progress.Conflicted? {
      CreateUnfolds(u, i, check, now);
      u := CreateAdvance(u, i, check, now);
    }
    p, drafts := u.creations[i].progress, u.drafts;
  }

  /** What becomes of a request whose key is new. */
  ghost predicate Handled(s: State, c: Creation, check: Result<Check, SlotError>, now: int, p: CreateProgress,
                          drafts: seq<Draft>) {
    var checked := Validated(s, c, check);
    if checked.Checked? then Inserted(s, c, checked, now, p, drafts) else p == checked && drafts == s.drafts
  }

  lemma MissingRuns(s: State, i: nat, check: Result<Check, SlotError>, now: int)
    returns (p: CreateProgress, drafts: seq<Draft>)
    requires i < |s.creations| && s.creations[i].progress.Missing?
    ensures Handled(s, s.creations[i], check, now, p, drafts)
    ensures RunCreate(s, i, check, now) == Ended(s, i, p, drafts)
  {
    CreateUnfolds(s, i, check, now);
    var u := CreateAdvance(s, i, check, now);
    p, drafts := u.creations[i].progress, u.drafts;
    if p.Checked? {
      p, drafts := CheckedRuns(u, i, check, now);
    }
  }

  /**
   What a create call does that meets no other one: it reuses the draft of a known key or refuses; it refuses an
   invalid request; and it inserts the draft of a valid one, unless the connection has used the key elsewhere.
   */
  lemma CreateDecides(s: State, actor: Actor, request: Request, check: Result<Check, SlotError>, now: int)
    ensures var t, p := CreateAlone(s, actor, request, check, now), CreateResult(s, actor, request, check, now);
            var c, found := Creation(actor, request, Missing), FindDraft(s.drafts, actor, request.key);
            && t == s.(creations := s.creations + [c.(progress := p)], drafts := t.drafts)
            && if found.Some? then p == Reuse(s.drafts, found, request) && t.drafts == s.drafts
               else Handled(s, c, check, now, p, t.drafts)
  {
    var i, c := |s.creations|, Creation(actor, request, Missing);
    var asked := s.(creations := s.creations + [Creation(actor, request, Asked)]);
    var t := CreateAlone(s, actor, request, check, now);
    CreateUnfolds(asked, i, check, now);
    var u := CreateAdvance(asked, i, check, now);
    assert u.creations == s.creations + [u.creations[i]];
    if FindDraft(s.drafts, actor, request.key).None? {
      var p, drafts := MissingRuns(u, i, check, now);
      assert t == Ended(u, i, p, drafts);
      assert t.creations == s.creations + [c.(progress := p)];
      ChecksSame(u, s, c, c, check, now);
    }
  }

  /**
   A draft lives for its time to live: whoever may confirm it is refused for its age exactly if the database's
   clock is then more than that time past what the service's clock said at its creation.
   */
  lemma DraftLivesForTtl(s: State, actor: Actor, request: Request, check: Result<Check, SlotError>, now: int, d: nat,
                         later: State, user: string)
    requires CreateResult(s, actor, request, check, now).Created? && !CreateResult(s, actor, request, check, now).reused
    requires d == CreateResult(s, actor, request, check, now).draft
    requires d < |later.drafts| && d < |CreateAlone(s, actor, request, check, now).drafts|
    requires later.drafts[d] == CreateAlone(s, actor, request, check, now).drafts[d]
    requires (actor.tenant, user) in later.managers
    ensures ConfirmResult(later, d, user) == Err(DraftExpired) <==> later.clock > now + s.ttl
  {
    CreateDecides(s, actor, request, check, now);
    ConfirmDecides(later, d, user);
  }
}
