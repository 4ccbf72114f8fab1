/** Confirmations never deadlock, and finitely many of them finish after finitely many steps. */
module DraftLiveness {
  import opened DraftProtocol
  import opened DraftSteps

  ghost predicate Unfinished(t: State, i: int) {
    0 <= i < |t.confirmations| && !Finished(t.confirmations[i].progress)
  }

  /** Behind the specialist lock nothing waits. */
  lemma LockHolderAdvances(t: State, j: nat, key: int)
    requires j < |t.confirmations| && HoldsSpecialist(t.confirmations[j].progress, key)
    ensures CanAdvance(t, j)
  {
  }

  /** A transaction that holds a draft row can go on, or waits for one that can. */
  lemma DraftHolderLeadsOn(t: State, i: nat)
    requires i < |t.confirmations| && HoldsDraft(t.confirmations[i].progress)
    ensures exists j :: CanAdvance(t, j)
  {
    var p := t.confirmations[i].progress;
    if p.WantsSpecialist? && p.row.request.specialist.Some? {
      var key := LockKey(p.row.request.specialist.value);
      if !KeyUnlocked(t.confirmations, key, i) {
        var j :| 0 <= j < |t.confirmations| && j != i && HoldsSpecialist(t.confirmations[j].progress, key);
        LockHolderAdvances(t, j, key);
      } else {
        assert CanAdvance(t, i);
      }
    } else {
      assert CanAdvance(t, i);
    }
  }

  /**
   Draft row first, then specialist: waiting never goes round in a circle. In every state with an unfinished
   confirmation, some confirmation can take its next step without rolling anything back.
   */
  lemma NoDeadlock(t: State, i: nat)
    requires Unfinished(t, i)
    ensures exists j :: CanAdvance(t, j)
  {
    var c := t.confirmations[i];
    if HoldsDraft(c.progress) {
      DraftHolderLeadsOn(t, i);
    } else if c.draft < |t.drafts| && !DraftUnlocked(t.confirmations, c.draft, i) {
      var j :| 0 <= j < |t.confirmations| && j != i && HoldsDraft(t.confirmations[j].progress)
               && t.confirmations[j].draft == c.draft;
      DraftHolderLeadsOn(t, j);
    } else {
      assert CanAdvance(t, i);
    }
  }

  // ---- Bounded work ----

  /** Steps a confirmation can still take. */
  function Remaining(p: Progress): nat {
    match p
    case Begun => 5
    case HasDraft(_) => 4
    case WantsSpecialist(_) => 3
    case HasSpecialist(_) => 2
    case Insertable(_, _) => 1
    case Replayable(_, _) => 1
    case _ => 0
  }

  function TotalRemaining(cs: seq<Confirmation>): nat {
    if cs == [] then 0 else TotalRemaining(cs[..|cs| - 1]) + Remaining(cs[|cs| - 1].progress)
  }

  lemma {:induction false} TotalAfterMove(cs: seq<Confirmation>, i: nat, p: Progress)
    requires i < |cs|
    ensures TotalRemaining(Moved(cs, i, p)) == TotalRemaining(cs) - Remaining(cs[i].progress) + Remaining(p)
  {
    var n := |cs| - 1;
    if i < n {
      assert Moved(cs, i, p)[..n] == Moved(cs[..n], i, p);
      TotalAfterMove(cs[..n], i, p);
    } else {
      assert Moved(cs, i, p)[..n] == cs[..n];
    }
  }

  predicate ConfirmationEvent(e: Event) { e.StepConfirm? || e.RollBack? }

  function CountConfirmationEvents(es: seq<Event>): nat {
    if es == [] then 0 else (if ConfirmationEvent(es[0]) then 1 else 0) + CountConfirmationEvents(es[1..])
  }

  lemma StepUsesWork(s: State, e: Event)
    requires Enabled(s, e) && !e.BeginConfirm?
    ensures TotalRemaining(Next(s, e).confirmations) + (if ConfirmationEvent(e) then 1 else 0)
            <= TotalRemaining(s.confirmations)
  {
    if e.StepConfirm? {
      TotalAfterMove(s.confirmations, e.i, Advanced(s, s.confirmations[e.i]));
    } else if e.RollBack? {
      TotalAfterMove(s.confirmations, e.i, RolledBack);
    }
  }

  /**
   In a run that begins no further confirmation, the confirmations take at most as many steps as remain, five
   for each.
   */
  lemma {:induction false} BoundedWork(s: State, es: seq<Event>, t: State)
    requires Leads(s, es, t) && forall k :: 0 <= k < |es| ==> !es[k].BeginConfirm?
    ensures CountConfirmationEvents(es) + TotalRemaining(t.confirmations) <= TotalRemaining(s.confirmations)
    decreases |es|
  {
    if es != [] {
      StepUsesWork(s, es[0]);
      BoundedWork(Next(s, es[0]), es[1..], t);
    }
  }

  lemma {:induction false} NothingRemains(cs: seq<Confirmation>)
    ensures TotalRemaining(cs) == 0 <==> forall i :: 0 <= i < |cs| ==> Finished(cs[i].progress)
    ensures TotalRemaining(cs) <= 5 * |cs|
  {
    if cs != [] {
      var n := |cs| - 1;
      NothingRemains(cs[..n]);
      assert forall i :: 0 <= i < n ==> cs[..n][i] == cs[i];
    }
  }

  predicate OnlyConfirmSteps(es: seq<Event>) { forall k :: 0 <= k < |es| ==> es[k].StepConfirm? }

  ghost predicate AllFinished(t: State) {
    forall i :: 0 <= i < |t.confirmations| ==> Finished(t.confirmations[i].progress)
  }

  /**
   Every set of confirmations finishes: from any state, no more steps than remain, of the confirmations alone
   and without rolling anything back, lead to one in which all of them have finished.
   */
  lemma {:induction false} AllConfirmationsFinish(t: State) returns (es: seq<Event>, u: State)
    ensures Leads(t, es, u) && OnlyConfirmSteps(es) && AllFinished(u)
    ensures |es| <= TotalRemaining(t.confirmations) <= 5 * |t.confirmations|
    decreases TotalRemaining(t.confirmations)
  {
    NothingRemains(t.confirmations);
    if AllFinished(t) {
      es, u := [], t;
    } else {
      var i :| 0 <= i < |t.confirmations| && !Finished(t.confirmations[i].progress);
      NoDeadlock(t, i);
      var j :| CanAdvance(t, j);
      StepUsesWork(t, StepConfirm(j));
      var rest: seq<Event>;
      rest, u := AllConfirmationsFinish(Advance(t, j));
      es := [StepConfirm(j)] + rest;
      assert es[1..] == rest;
    }
  }
}
