/**
 The tables that replies change, as one object changed in place, and what a call does that meets no other
 (docs/handoff/sql/booknow_mcp_service_phase7_twilio.sql:62-199 and 247-263).
 */
module ReplyDatabase {
  import opened Base
  import opened Tables
  import opened ReplyProtocol
  import opened ReplyInvariants
  import opened ReplySteps
  import opened ReplyTheorems
  import opened ReplyLiveness
  import opened ReplyOutcomes

  // ---- One call at a time ----

  /** The state after call i has run all its statements and no other has run any. */
  function RunCall(s: State, i: nat): State
    requires i < |s.calls|
    decreases Remaining(s.calls[i].progress)
  {
    if Finished(s.calls[i].progress) then s else RunCall(Advance(s, i), i)
  }

  function CallAlone(s: State, c: Call): State { RunCall(s.(calls := s.calls + [c]), |s.calls|) }

  /** A call that meets no other one is a run of the protocol. */
  lemma {:induction false} CallAloneIsRun(s: State, i: nat) returns (es: seq<Event>)
    requires i < |s.calls| && forall j :: 0 <= j < |s.calls| && j != i ==> Finished(s.calls[j].progress)
    ensures Leads(s, es, RunCall(s, i)) && forall k :: 0 <= k < |es| ==> es[k] == StepCall(i)
    decreases Remaining(s.calls[i].progress)
  {
    if Finished(s.calls[i].progress) {
      es := [];
    } else {
      assert CanAdvance(s, i);
      var rest := CallAloneIsRun(Advance(s, i), i);
      es := [StepCall(i)] + rest;
      assert es[1..] == rest;
    }
  }

  /** What the function answers: no duplicate, or the outcome of the first call. */
  datatype Answer = Answer(duplicate: bool, result: Option<Outcome>, after: Option<Status>)

  function Returned(p: Progress): Result<Answer, ReplyError> {
    match p
    case Answered(duplicate, result, after) => Ok(Answer(duplicate, result, after))
    case Failed(error) => Err(error)
    case _ => Err(MissingAppointment)
  }

  /** The appointment is read only when nothing before it decided. */
  predicate ReadsRow(s: State, c: Call) {
    Resolved(c) && c.intent.Some? && c.intent != Some(Unknown) && Notified(s.notifications, c) && RowFound(s.visits, c)
  }

  function ReadBy(s: State, c: Call): Option<Visit> {
    if ReadsRow(s, c) then Some(s.visits[c.appointment.value]) else None
  }

  /** The answer of a call that meets no other one. */
  function CallResult(s: State, c: Call): Result<Answer, ReplyError> {
    var t := CallAlone(s, c);
    if |t.calls| > |s.calls| then Returned(t.calls[|s.calls|].progress) else Err(MissingAppointment)
  }

  /** The outcome of a call on these tables, by the reasons in the order in which they are looked at. */
  function OutcomeOf(s: State, c: Call): Outcome {
    if !Resolved(c) then Unresolved
    else if c.intent == Some(Unknown) then Ignored
    else if !Notified(s.notifications, c) then NotApplicable(NotNotified)
    else if !RowFound(s.visits, c) || c.intent.None? then NotApplicable(AppointmentNotFound)
    else Verdict(s.visits[c.appointment.value], c.intent.value, c.began)
  }

  lemma CallUnfolds(s: State, i: nat)
    requires i < |s.calls| && !Finished(s.calls[i].progress)
    ensures RunCall(s, i) == RunCall(Advance(s, i), i)
  {
  }

  function Concluded(s: State, c: Call): Progress {
    Decided(OutcomeOf(s, c), ReadBy(s, c))
  }

  lemma ScreenedRuns(s: State, i: nat)
    requires i < |s.calls| && s.calls[i].progress.Reserved?
    ensures RunCall(s, i) == RunCall(WithProgress(s, i, Concluded(s, s.calls[i])), i)
  {
    var c := s.calls[i];
    CallUnfolds(s, i);
    if Screened(s, c).WantsRow? {
      var one := Advance(s, i);
      CallUnfolds(one, i);
      assert Examined(one, one.calls[i]) == Examined(s, c);
      assert Advance(one, i) == WithProgress(s, i, Examined(s, c));
    }
  }

  /** From the reservation of the message id on. */
  lemma ReservedRuns(s: State, i: nat)
    requires i < |s.calls| && s.calls[i].progress.Reserved? && Invalid(s.calls[i]).None?
    ensures var t, c := RunCall(s, i), s.calls[i];
            var outcome := OutcomeOf(s, c);
            && |t.calls| == |s.calls|
            && if Dangling(s, c)
               then Returned(t.calls[i].progress) == Err(MissingAppointment) && t == s.(calls := t.calls)
               else && t.events == s.events[c.sid := EventOf(c, outcome)]
                    && (outcome != Applied ==>
                          && t.visits == s.visits && t.notifications == s.notifications
                          && Returned(t.calls[i].progress)
                             == Ok(Answer(false, Some(outcome), StatusOf(ReadBy(s, c)))))
                    && (outcome == Applied ==>
                          && ReadsRow(s, c) && t.notifications == s.notifications + [ResponseTo(c)]
                          && t.visits == Marked(s.visits, c.appointment.value, NewStatus(c.intent.value))
                          && Returned(t.calls[i].progress)
                             == Ok(Answer(false, Some(Applied), Some(NewStatus(c.intent.value)))))
  {
    ScreenedRuns(s, i);
    CallUnfolds(WithProgress(s, i, Concluded(s, s.calls[i])), i);
  }

  /**
   What a call does: it refuses invalid arguments and a reference to no appointment, and then changes nothing;
   it answers a known message with the outcome of its event, and changes nothing; and it records every other
   message with its outcome, where an applied reply also moves the appointment and is noted as a response.
   */
  lemma CallDecides(s: State, c: Call)
    requires c.progress.Begun?
    ensures var t, r, outcome := CallAlone(s, c), CallResult(s, c), OutcomeOf(s, c);
            if Invalid(c).Some? then r == Err(Invalid(c).value) && t == s.(calls := t.calls)
            else if c.sid in s.events
            then r == Ok(Answer(true, Some(s.events[c.sid].outcome), None)) && t == s.(calls := t.calls)
            else if Dangling(s, c) then r == Err(MissingAppointment) && t == s.(calls := t.calls)
            else if outcome != Applied
            then && t.events == s.events[c.sid := EventOf(c, outcome)] && t.visits == s.visits
                 && t.notifications == s.notifications
                 && r == Ok(Answer(false, Some(outcome), StatusOf(ReadBy(s, c))))
            else && ReadsRow(s, c) && t.events == s.events[c.sid := EventOf(c, Applied)]
                 && t.visits == Marked(s.visits, c.appointment.value, NewStatus(c.intent.value))
                 && t.notifications == s.notifications + [ResponseTo(c)]
                 && r == Ok(Answer(false, Some(Applied), Some(NewStatus(c.intent.value))))
  {
    var i, begun := |s.calls|, s.(calls := s.calls + [c]);
    CallUnfolds(begun, i);
    var one := Advance(begun, i);
    if one.calls[i].progress.Known? {
      CallUnfolds(one, i);
    } else if one.calls[i].progress.Reserved? {
      ReservedRuns(one, i);
    }
  }

  /** The outcome that a valid, new message calls for on these tables. */
  ghost predicate CalledFor(s: State, c: Call, outcome: Outcome)
    requires c.intent.Some?
  {
    if c.tenant.None? then outcome == Unresolved
    else if c.intent.value == Unknown then outcome == Ignored
    else if !ToldLately(s.notifications, c) then outcome == NotApplicable(NotNotified)
    else if !Own(s.visits, c) then outcome == NotApplicable(AppointmentNotFound)
    else OutcomeFits(outcome, s.visits[c.appointment.value], c.intent.value, c.began)
  }

  lemma OutcomeIsCalledFor(s: State, c: Call)
    requires Invalid(c).None?
    ensures CalledFor(s, c, OutcomeOf(s, c))
    ensures OutcomeOf(s, c) == Applied ==> Own(s.visits, c) && c.intent in [Some(Confirm), Some(Cancel)]
    ensures OutcomeOf(s, c) == AlreadyInState ==> Own(s.visits, c)
  {
    NotifiedMeaning(s.notifications, c);
    assert c.intent.value.Confirm? || c.intent.value.Cancel? || c.intent.value.Unknown?;
    if RowFound(s.visits, c) && c.intent.value != Unknown {
      VerdictMeaning(s.visits[c.appointment.value], c.intent.value, c.began);
    }
  }

  /** What a recorded message leaves: its event, and for an applied reply the status and the response. */
  ghost predicate Leaves(s: State, c: Call, outcome: Outcome, t: State)
    requires c.intent.Some?
  {
    && t.events == s.events[c.sid := EventRow(c.intent.value, outcome, c.appointment, c.began)]
    && if outcome == Applied
       then && Own(s.visits, c) && Followed(s.visits, t.visits, c.appointment.value, outcome, c.intent.value)
            && t.notifications
               == s.notifications + [Notification(c.tenant.value, c.customer.value, c.appointment.value,
                                                  Response(c.intent.value), true, Delivered, c.began)]
       else t.visits == s.visits && t.notifications == s.notifications
  }

  /**
   What a call by itself does, from the stored rows: wrong arguments, a known message and a missing appointment
   change nothing; every other message is recorded with the outcome it calls for, and an applied reply gives the
   appointment the status that the customer asked for.
   */
  lemma CallIsFollowed(s: State, c: Call)
    requires c.progress.Begun?
    ensures var t, r := CallAlone(s, c), CallResult(s, c);
            if c.intent.None? then r == Err(InvalidIntent) && t == s.(calls := t.calls)
            else if !WindowFine(c) then r == Err(InvalidWindow) && t == s.(calls := t.calls)
            else if !ResolutionFine(c) then r == Err(InvalidResolution) && t == s.(calls := t.calls)
            else if c.sid in s.events
            then r == Ok(Answer(true, Some(s.events[c.sid].outcome), None)) && t == s.(calls := t.calls)
            else if c.appointment.Some? && c.appointment.value >= |s.visits|
            then r == Err(MissingAppointment) && t == s.(calls := t.calls)
            else && r.Ok? && !r.value.duplicate && r.value.result.Some?
                 && CalledFor(s, c, r.value.result.value) && Leaves(s, c, r.value.result.value, t)
                 && (r.value.result.value in [Applied, AlreadyInState] ==>
                       r.value.after == Some(Wanted(c.intent.value)))
  {
    InvalidMeaning(c);
    CallDecides(s, c);
    if Invalid(c).None? {
      OutcomeIsCalledFor(s, c);
    }
  }

  /**
   Delivering an answered message again, at any later time before its event is purged and whatever has happened
   meanwhile, returns the same outcome and changes no table; invalid arguments are refused, as always, and change
   none either.
   */
  lemma {:induction false} RedeliveryIsSilent(t: State, i: nat, es: seq<Event>, u: State, again: Call)
    requires Inv(t) && i < |t.calls| && t.calls[i].progress.Answered? && Leads(t, es, u)
    requires again.progress.Begun? && again.sid == t.calls[i].sid && again.sid !in u.purged
    ensures CallAlone(u, again) == u.(calls := CallAlone(u, again).calls)
    ensures CallResult(u, again)
            == if Invalid(again).Some? then Err(Invalid(again).value)
               else Ok(Answer(true, t.calls[i].progress.result, None))
  {
    RunKeeps(t, es, u);
    FinishedStays(t, es, u, i);
    assert AnswerKept(u.calls[i], u.events, u.purged);
    CallDecides(u, again);
  }

  // ---- The tables in place ----

  lemma StaleIsGone(events: map<string, EventRow>, now: int)
    ensures events.Keys - (events - Stale(events, now)).Keys == Stale(events, now)
  {
  }

  class Database {
    var events: map<string, EventRow>
    var notifications: seq<Notification>
    var visits: seq<Visit>

    constructor (notifications: seq<Notification>, visits: seq<Visit>)
      ensures events == map[] && this.notifications == notifications && this.visits == visits
    {
      events, this.notifications, this.visits := map[], notifications, visits;
    }

    /** The state of the protocol in which nothing is under way. */
    function Snapshot(now: int): State
      reads this
    {
      State(now, events, notifications, visits, [], [], [], {}, {})
    }

    /** From the row of the appointment on: the verdict, and if it applies, the move and the response. */
    method Settle(c: Call) returns (outcome: Outcome, status: Option<Status>, changed: Option<Status>)
      requires RowFound(visits, c) && c.intent.Some? && c.intent != Some(Unknown)
      modifies this`visits, this`notifications
      ensures var v := old(visits)[c.appointment.value];
              && outcome == Verdict(v, c.intent.value, c.began) && status == v.status
              && if outcome == Applied
                 then && visits == old(visits)[c.appointment.value := v.(status := changed)]
                      && notifications == old(notifications) + [ResponseTo(c)]
                      && changed == Some(NewStatus(c.intent.value))
                 else visits == old(visits) && notifications == old(notifications) && changed == None
    {
      var v := visits[c.appointment.value];
      status, changed := v.status, None;
      if v.start <= c.began {
        outcome := NotApplicable(AppointmentPast);
      } else if || (c.intent.value == Confirm && status == Some(Confirmed))
                || (c.intent.value == Cancel && status == Some(Cancelled)) {
        outcome := AlreadyInState;
      } else if status.Some? && status.value !in [Pending, Confirmed] {
        outcome := NotApplicable(InStatus(status.value));
      } else if c.intent.value == Confirm {
        visits := visits[c.appointment.value := v.(status := Some(Confirmed))];
        outcome, changed := Applied, Some(Confirmed);
      } else {
        visits := visits[c.appointment.value := v.(status := Some(Cancelled))];
        outcome, changed := Applied, Some(Cancelled);
      }
      if outcome == Applied {
        notifications := notifications + [ResponseTo(c)];
      }
    }

    /** apply_twilio_whatsapp_reply, in a transaction that begins at c.began. */
    method ApplyReply(c: Call) returns (r: Result<Answer, ReplyError>)
      requires c.progress.Begun?
      modifies this
      ensures r == old(CallResult(Snapshot(c.began), c))
      ensures var t := old(CallAlone(Snapshot(c.began), c));
              events == t.events && notifications == t.notifications && visits == t.visits
    {
      ghost var s := Snapshot(c.began);
      CallDecides(s, c);
      if c.intent.None? {
        return Err(InvalidIntent);
      }
      if c.window.None? || c.window.value < HOUR || c.window.value > 7 * DAY {
        return Err(InvalidWindow);
      }
      if c.tenant.None? != c.customer.None? || c.tenant.None? != c.appointment.None? {
        return Err(InvalidResolution);
      }
      if c.sid in events {
        return Ok(Answer(true, Some(events[c.sid].outcome), None));
      }
      var before := events;
      events := events[c.sid := EventRow(c.intent.value, Unresolved, None, c.began)];
      var outcome, status, changed := Unresolved, None, None;
      if c.tenant.None? {
        outcome := Unresolved;
      } else if c.intent.value == Unknown {
        outcome := Ignored;
      } else if !Notified(notifications, c) {
        outcome := NotApplicable(NotNotified);
      } else if !RowFound(visits, c) {
        outcome := NotApplicable(AppointmentNotFound);
      } else {
        outcome, status, changed := Settle(c);
      }
      assert outcome == OutcomeOf(s, c);
      assert outcome != Applied ==> visits == s.visits && notifications == s.notifications;
      if c.appointment.Some? && c.appointment.value >= |visits| {
        events := before;
        return Err(MissingAppointment);
      }
      events := events[c.sid := events[c.sid].(appointment := c.appointment, outcome := outcome)];
      return Ok(Answer(false, Some(outcome), if changed.Some? then changed else status));
    }

    /** purge_twilio_webhook_events: deletes the events older than 30 days, and no others, and counts them. */
    method Purge(now: int) returns (deleted: nat)
      modifies this`events
      ensures forall sid :: sid in events
                            <==> sid in old(events) && old(events)[sid].receivedAt >= now - 30 * 86_400 * SECOND
      ensures forall sid :: sid in events ==> events[sid] == old(events)[sid]
      ensures deleted == |old(events).Keys - events.Keys|
    {
      var stale := Stale(events, now);
      deleted := |stale|;
      events := events - stale;
      StaleIsGone(old(events), now);
    }
  }
}
