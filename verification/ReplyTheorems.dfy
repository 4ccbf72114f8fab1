/** What holds in every state that any interleaving of replies, redeliveries, purges and other writers can reach. */
module ReplyTheorems {
  import opened Base
  import opened Tables
  import opened ReplyProtocol
  import opened ReplyInvariants
  import opened ReplySteps

  // ---- Exactly once ----

  /**
   However often a message is delivered, until its event is purged exactly one of the calls that were answered is
   no duplicate; all of them return its outcome, and the event holds it.
   */
  lemma ExactlyOnce(t: State, i: nat)
    requires Reachable(t) && i < |t.calls| && t.calls[i].progress.Answered? && t.calls[i].sid !in t.purged
    ensures exists f :: 0 <= f < |t.calls| && First(t.calls[f], t.calls[i].sid)
    ensures forall f, g :: (0 <= f < |t.calls| && 0 <= g < |t.calls| && First(t.calls[f], t.calls[i].sid)
                            && First(t.calls[g], t.calls[i].sid)) ==> f == g
    ensures forall f :: 0 <= f < |t.calls| && First(t.calls[f], t.calls[i].sid) ==>
                          t.calls[f].progress.result == t.calls[i].progress.result
    ensures t.calls[i].sid in t.events && t.calls[i].progress.result == Some(t.events[t.calls[i].sid].outcome)
  {
    ReachableInv(t);
    var sid := t.calls[i].sid;
    forall f | 0 <= f < |t.calls| && t.calls[f].sid == sid ensures AnswerKept(t.calls[f], t.events, t.purged) {
    }
    assert AnswerKept(t.calls[i], t.events, t.purged);
    var f :| 0 <= f < |t.calls| && First(t.calls[f], sid) && t.calls[f].began == t.events[sid].receivedAt;
  }

  /** Every call of the message that committed an event began within the retention time. */
  ghost predicate Recent(t: State, sid: string) {
    forall i :: 0 <= i < |t.calls| && First(t.calls[i], sid) ==>
                  t.calls[i].began >= t.clock - 30 * 86_400 * SECOND
  }

  /** An event is not purged in its first 30 days, so redeliveries within them are always recognised. */
  lemma RecentNotPurged(t: State, sid: string)
    requires Reachable(t) && Recent(t, sid)
    ensures sid !in t.purged
  {
    ReachableInv(t);
  }

  // ---- Duplicates ----

  ghost predicate SameTables(s: State, t: State) {
    s.events == t.events && s.notifications == t.notifications && s.visits == t.visits
  }

  /** A step that changes a table is the commit of a first answer. */
  lemma WritersAreFirst(s: State, i: nat)
    requires CanAdvance(s, i) && !SameTables(s, Advance(s, i))
    ensures var c := Advance(s, i).calls[i];
            First(c, c.sid) && c.sid in Advance(s, i).events
            && c.progress.result == Some(Advance(s, i).events[c.sid].outcome)
  {
  }

  lemma {:induction false} FinishedStays(s: State, es: seq<Event>, t: State, i: nat)
    requires Leads(s, es, t) && i < |s.calls| && Finished(s.calls[i].progress)
    ensures i < |t.calls| && t.calls[i] == s.calls[i]
    decreases |es|
  {
    if es != [] {
      FinishedStays(Next(s, es[0]), es[1..], t, i);
    }
  }

  /**
   A call that ends as a duplicate has changed no table at any of its steps: in a run that goes on from one of
   them to a state in which the call has been answered as a duplicate, that step left the tables as they were.
   */
  lemma DuplicateChangesNothing(s: State, i: nat, es: seq<Event>, t: State)
    requires CanAdvance(s, i) && Leads(Advance(s, i), es, t)
    requires i < |t.calls| && t.calls[i].progress.Answered? && t.calls[i].progress.duplicate
    ensures SameTables(s, Advance(s, i))
  {
    if !SameTables(s, Advance(s, i)) {
      WritersAreFirst(s, i);
      FinishedStays(Advance(s, i), es, t, i);
    }
  }

  /** Nor has one that failed or was rolled back. */
  lemma FailureChangesNothing(s: State, i: nat, es: seq<Event>, t: State)
    requires CanAdvance(s, i) && Leads(Advance(s, i), es, t)
    requires i < |t.calls| && (t.calls[i].progress.Failed? || t.calls[i].progress.RolledBack?)
    ensures SameTables(s, Advance(s, i))
  {
    if !SameTables(s, Advance(s, i)) {
      WritersAreFirst(s, i);
      FinishedStays(Advance(s, i), es, t, i);
    }
  }

  // ---- Applied replies and their records ----

  /**
   For each appointment and kind of reply, there are as many recorded replies as calls that applied one, and as
   many as events of that kind, those that were purged included.
   */
  lemma AppliedAreRecorded(t: State, k: nat, intent: Intent)
    requires Reachable(t)
    ensures multiset(History(t.notifications, k))[intent] == CountApplied(t.calls, k, intent)
    ensures |AppliedEvents(t.events, k, intent)| + CountPurged(t.purges, k, intent) == CountApplied(t.calls, k, intent)
  {
    ReachableInv(t);
  }

  /**
   An appointment that no other writer changed took at most a confirmation and then a cancellation; its status
   is that of the last one, or the one it was inserted with.
   */
  lemma ReplyLifecycle(t: State, k: nat)
    requires Reachable(t) && k < |t.visits| && k !in t.touched
    ensures |t.first| == |t.visits| && Lived(t.first[k], t.visits[k].status, History(t.notifications, k))
    ensures CountApplied(t.calls, k, Confirm) <= 1 && CountApplied(t.calls, k, Cancel) <= 1
            && CountApplied(t.calls, k, Unknown) == 0
  {
    ReachableInv(t);
    assert Lived(t.first[k], t.visits[k].status, History(t.notifications, k));
    AppliedAreRecorded(t, k, Confirm);
    AppliedAreRecorded(t, k, Cancel);
    AppliedAreRecorded(t, k, Unknown);
  }

  /** The statuses that a reply moves an appointment between. */
  predicate ReplyMoves(a: Option<Status>, b: Option<Status>) {
    || a == b
    || (a in [None, Some(Pending)] && b in [Some(Confirmed), Some(Cancelled)])
    || (a == Some(Confirmed) && b == Some(Cancelled))
  }

  /** Whoever else writes, a call moves an appointment forward only, and only one that has not begun by then. */
  lemma CallsMoveForward(s: State, i: nat, k: nat)
    requires Inv(s) && CanAdvance(s, i) && k < |s.visits|
    ensures |Advance(s, i).visits| == |s.visits|
    ensures var v := Advance(s, i).visits[k];
            && ReplyMoves(s.visits[k].status, v.status) && v == s.visits[k].(status := v.status)
            && (v != s.visits[k] ==> v.start > s.calls[i].began && s.calls[i].appointment == Some(k))
  {
    if s.calls[i].progress.Decided? && !Dangling(s, s.calls[i]) {
      DecidedFacts(s, i);
    }
  }

  ghost predicate LeavesAlone(es: seq<Event>, k: nat) {
    forall n :: 0 <= n < |es| && es[n].OtherChange? ==> es[n].k != k
  }

  /** A cancelled appointment stays cancelled unless another writer changes it. */
  lemma {:induction false} CancelledStays(s: State, es: seq<Event>, t: State, k: nat)
    requires Inv(s) && Leads(s, es, t) && LeavesAlone(es, k)
    requires k < |s.visits| && s.visits[k].status == Some(Cancelled)
    ensures k < |t.visits| && t.visits[k].status == Some(Cancelled)
    decreases |es|
  {
    if es != [] {
      StepKeeps(s, es[0]);
      if es[0].StepCall? {
        CallsMoveForward(s, es[0].i, k);
      }
      assert forall n :: 0 <= n < |es[1..]| ==> es[1..][n] == es[n + 1];
      CancelledStays(Next(s, es[0]), es[1..], t, k);
    }
  }

  // ---- The notification window ----

  function Outgoings(notifications: seq<Notification>): seq<Notification> {
    if notifications == [] then []
    else
      var n, rest := notifications[|notifications| - 1], Outgoings(notifications[..|notifications| - 1]);
      if n.kind.Outgoing? then rest + [n] else rest
  }

  lemma NotifiedOneMore(notifications: seq<Notification>, n: Notification, c: Call)
    ensures Notified(notifications + [n], c) <==> Notified(notifications, c) || Tells(n, c)
  {
    var more := notifications + [n];
    assert forall k :: 0 <= k < |notifications| ==> more[k] == notifications[k];
    assert more[|notifications|] == n;
  }

  /** Recorded replies count for nothing: without them, the same customers are notified of the same appointments. */
  lemma {:induction false} ResponsesDoNotNotify(notifications: seq<Notification>, c: Call)
    ensures Notified(notifications, c) <==> Notified(Outgoings(notifications), c)
  {
    if notifications != [] {
      var n, rest := notifications[|notifications| - 1], notifications[..|notifications| - 1];
      ResponsesDoNotNotify(rest, c);
      assert notifications == rest + [n];
      NotifiedOneMore(rest, n, c);
      NotifiedOneMore(Outgoings(rest), n, c);
    }
  }

  /** The notification is about the appointment of the call, to its customer and of its tenant. */
  predicate About(n: Notification, c: Call) {
    && n.kind.Outgoing? && c.tenant == Some(n.tenant) && c.customer == Some(n.customer)
    && c.appointment == Some(n.appointment)
  }

  /** The customer was not told about the appointment after last. */
  ghost predicate NoneAfter(notifications: seq<Notification>, c: Call, last: int) {
    forall n :: 0 <= n < |notifications| && About(notifications[n], c) ==> notifications[n].createdAt <= last
  }

  /** No other writer tells the customer about the appointment after last. */
  ghost predicate NoneSent(es: seq<Event>, c: Call, last: int) {
    forall n :: 0 <= n < |es| && es[n].OtherNotification? && About(es[n].notification, c) ==>
                  es[n].notification.createdAt <= last
  }

  /** However many replies are applied, recorded and answered, the last notification stays the last. */
  lemma {:induction false} NoNewNotifications(s: State, es: seq<Event>, t: State, c: Call, last: int)
    requires Leads(s, es, t) && NoneAfter(s.notifications, c, last) && NoneSent(es, c, last)
    ensures NoneAfter(t.notifications, c, last)
    decreases |es|
  {
    if es != [] {
      assert NoneAfter(Next(s, es[0]).notifications, c, last);
      assert forall n :: 0 <= n < |es[1..]| ==> es[1..][n] == es[n + 1];
      NoNewNotifications(Next(s, es[0]), es[1..], t, c, last);
    }
  }

  /**
   Once the window has passed since the customer was last told about the appointment, no reply about it is applied
   any more, whatever else is sent to whom.
   */
  lemma WindowCloses(s: State, es: seq<Event>, t: State, last: int, i: nat)
    requires i < |t.calls| && t.calls[i].progress.Reserved? && Resolved(t.calls[i])
    requires t.calls[i].intent != Some(Unknown)
    requires Leads(s, es, t) && NoneAfter(s.notifications, t.calls[i], last) && NoneSent(es, t.calls[i], last)
    requires t.calls[i].window.Some? && t.calls[i].began - t.calls[i].window.value >= last
    ensures Advanced(t, t.calls[i]) == Decided(NotApplicable(NotNotified), None)
  {
    NoNewNotifications(s, es, t, t.calls[i], last);
  }
}
