/** Replies never deadlock, and finitely many calls finish after finitely many steps. */
module ReplyLiveness {
  import opened ReplyProtocol
  import opened ReplySteps

  lemma SidHolderLeadsOn(t: State, i: nat)
    requires i < |t.calls| && HoldsSid(t.calls[i].progress)
    ensures exists j :: CanAdvance(t, j)
  {
    if !CanAdvance(t, i) {
      var j :| 0 <= j < |t.calls| && j != i && HoldsRow(t.calls[j], t.calls[i].appointment.value);
      assert CanAdvance(t, j);
    }
  }

  /** Message first, then appointment: in every state with an unfinished call, some call can take its next step. */
  lemma NoDeadlock(t: State, i: nat)
    requires i < |t.calls| && !Finished(t.calls[i].progress)
    ensures exists j :: CanAdvance(t, j)
  {
    var c := t.calls[i];
    if !CanAdvance(t, i) {
      if c.progress.Begun? {
        var j :| 0 <= j < |t.calls| && j != i && HoldsSid(t.calls[j].progress) && t.calls[j].sid == c.sid;
        SidHolderLeadsOn(t, j);
      } else {
        SidHolderLeadsOn(t, i);
      }
    }
  }

  // ---- Bounded work ----

  /** Steps a call can still take. */
  function Remaining(p: Progress): nat {
    match p
    case Begun => 4
    case Reserved => 3
    case WantsRow => 2
    case Decided(_, _) => 1
    case Known => 1
    case _ => 0
  }

  function TotalRemaining(cs: seq<Call>): nat {
    if cs == [] then 0 else TotalRemaining(cs[..|cs| - 1]) + Remaining(cs[|cs| - 1].progress)
  }

  lemma {:induction false} TotalAfterMove(cs: seq<Call>, i: nat, p: Progress)
    requires i < |cs|
    ensures TotalRemaining(Moved(cs, i, p)) == TotalRemaining(cs) - Remaining(cs[i].progress) + Remaining(p)
  {
    var n := |cs| - 1;
    if i < n {
      assert Moved(cs, i, p)[..n] == Moved(cs[..n], i, p);
      TotalAfterMove(cs[..n], i, p);
    } else {
      assert Moved(cs, i, p)[..n] == cs[..n];
    }
  }

  predicate CallEvent(e: Event) { e.StepCall? || e.RollBack? }

  function CountCallEvents(es: seq<Event>): nat {
    if es == [] then 0 else (if CallEvent(es[0]) then 1 else 0) + CountCallEvents(es[1..])
  }

  lemma StepUsesWork(s: State, e: Event)
    requires Enabled(s, e) && !e.BeginCall?
    ensures TotalRemaining(Next(s, e).calls) + (if CallEvent(e) then 1 else 0) <= TotalRemaining(s.calls)
  {
    if e.StepCall? {
      TotalAfterMove(s.calls, e.i, Advanced(s, s.calls[e.i]));
    } else if e.RollBack? {
      TotalAfterMove(s.calls, e.i, RolledBack);
    }
  }

  /** In a run in which no further call begins, the calls take at most as many steps as remain, four for each. */
  lemma {:induction false} BoundedWork(s: State, es: seq<Event>, t: State)
    requires Leads(s, es, t) && forall k :: 0 <= k < |es| ==> !es[k].BeginCall?
    ensures CountCallEvents(es) + TotalRemaining(t.calls) <= TotalRemaining(s.calls)
    decreases |es|
  {
    if es != [] {
      StepUsesWork(s, es[0]);
      BoundedWork(Next(s, es[0]), es[1..], t);
    }
  }

  lemma {:induction false} NothingRemains(cs: seq<Call>)
    ensures TotalRemaining(cs) == 0 <==> forall i :: 0 <= i < |cs| ==> Finished(cs[i].progress)
    ensures TotalRemaining(cs) <= 4 * |cs|
  {
    if cs != [] {
      var n := |cs| - 1;
      NothingRemains(cs[..n]);
      assert forall i :: 0 <= i < n ==> cs[..n][i] == cs[i];
    }
  }

  predicate OnlyCallSteps(es: seq<Event>) { forall k :: 0 <= k < |es| ==> es[k].StepCall? }

  ghost predicate AllFinished(t: State) {
    forall i :: 0 <= i < |t.calls| ==> Finished(t.calls[i].progress)
  }

  /**
   Every set of calls finishes: from any state, no more steps than remain, of the calls alone and without rolling
   anything back, lead to one in which all of them have finished.
   */
  lemma {:induction false} AllCallsFinish(t: State) returns (es: seq<Event>, u: State)
    ensures Leads(t, es, u) && OnlyCallSteps(es) && AllFinished(u)
    ensures |es| <= TotalRemaining(t.calls) <= 4 * |t.calls|
    decreases TotalRemaining(t.calls)
  {
    NothingRemains(t.calls);
    if AllFinished(t) {
      es, u := [], t;
    } else {
      var i :| 0 <= i < |t.calls| && !Finished(t.calls[i].progress);
      NoDeadlock(t, i);
      var j :| CanAdvance(t, j);
      StepUsesWork(t, StepCall(j));
      var rest: seq<Event>;
      rest, u := AllCallsFinish(Advance(t, j));
      es := [StepCall(j)] + rest;
      assert es[1..] == rest;
    }
  }
}
