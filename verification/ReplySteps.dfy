/** Every step of the reply protocol keeps the invariant. */
module ReplySteps {
  import opened Base
  import opened ReplyProtocol
  import opened ReplyInvariants

  function Moved(cs: seq<Call>, i: nat, p: Progress): seq<Call>
    requires i < |cs|
  {
    cs[i := cs[i].(progress := p)]
  }

  // ---- Counting ----

  lemma {:induction false} CountAppliedMoved(cs: seq<Call>, i: nat, p: Progress, k: nat, intent: Intent)
    requires i < |cs| && !cs[i].progress.Answered?
    ensures CountApplied(Moved(cs, i, p), k, intent)
            == CountApplied(cs, k, intent) + if AppliedTo(cs[i].(progress := p), k, intent) then 1 else 0
  {
    var n := |cs| - 1;
    if i < n {
      assert Moved(cs, i, p)[..n] == Moved(cs[..n], i, p);
      CountAppliedMoved(cs[..n], i, p, k, intent);
    } else {
      assert Moved(cs, i, p)[..n] == cs[..n];
    }
  }

  lemma HistoryAppend(notifications: seq<Notification>, n: Notification, k: nat)
    ensures History(notifications + [n], k)
            == History(notifications, k) + if n.kind.Response? && n.appointment == k then [n.kind.intent] else []
  {
    assert (notifications + [n])[..|notifications|] == notifications;
  }

  lemma {:induction false} HistoryDelivery(notifications: seq<Notification>, n: nat, delivery: Delivery, k: nat)
    requires n < |notifications|
    ensures var changed := notifications[n := notifications[n].(delivery := delivery)];
            History(changed, k) == History(notifications, k)
  {
    var last, changed := |notifications| - 1, notifications[n := notifications[n].(delivery := delivery)];
    if n < last {
      assert changed[..last] == notifications[..last][n := notifications[..last][n].(delivery := delivery)];
      HistoryDelivery(notifications[..last], n, delivery, k);
    } else {
      assert changed[..last] == notifications[..last];
    }
  }

  lemma {:induction false} NothingRecorded(notifications: seq<Notification>, k: nat)
    requires forall n :: 0 <= n < |notifications| && notifications[n].kind.Response? ==>
                           notifications[n].appointment != k
    ensures History(notifications, k) == []
  {
    if notifications != [] {
      NothingRecorded(notifications[..|notifications| - 1], k);
    }
  }

  // ---- One call moves on without committing an event ----

  lemma LocksKept(cs: seq<Call>, events: map<string, EventRow>, i: nat, p: Progress)
    requires i < |cs| && SidLocks(cs, events) && RowLocks(cs)
    requires HoldsSid(p) ==> SidFree(cs, cs[i].sid, i) && cs[i].sid !in events
    requires forall k :: HoldsRow(cs[i].(progress := p), k) ==> RowFree(cs, k, i)
    ensures SidLocks(Moved(cs, i, p), events) && RowLocks(Moved(cs, i, p))
  {
  }

  /** What a call already holds is held by no other. */
  lemma OwnLocks(cs: seq<Call>, events: map<string, EventRow>, i: nat)
    requires i < |cs| && SidLocks(cs, events) && RowLocks(cs)
    ensures HoldsSid(cs[i].progress) ==> SidFree(cs, cs[i].sid, i) && cs[i].sid !in events
    ensures forall k :: HoldsRow(cs[i], k) ==> RowFree(cs, k, i)
  {
  }

  /** A call that commits nothing takes no part in who committed which event. */
  lemma FirstsKept(cs: seq<Call>, events: map<string, EventRow>, purged: set<string>, now: int,
                   i: nat, p: Progress)
    requires i < |cs| && !cs[i].progress.Answered? && (p.Answered? ==> p.duplicate)
    requires Committed(cs, events) && OnePerSid(cs, purged) && PurgedOld(cs, purged, now)
    ensures Committed(Moved(cs, i, p), events) && OnePerSid(Moved(cs, i, p), purged)
            && PurgedOld(Moved(cs, i, p), purged, now)
  {
    var moved := Moved(cs, i, p);
    forall sid | sid in events
      ensures exists j :: 0 <= j < |moved| && First(moved[j], sid) && moved[j].began == events[sid].receivedAt
    {
      var j :| 0 <= j < |cs| && First(cs[j], sid) && cs[j].began == events[sid].receivedAt;
      assert moved[j] == cs[j];
    }
    forall sid | sid in purged
      ensures exists j :: 0 <= j < |moved| && First(moved[j], sid) && moved[j].began < now - RETENTION
    {
      var j :| 0 <= j < |cs| && First(cs[j], sid) && cs[j].began < now - RETENTION;
      assert moved[j] == cs[j];
    }
    forall a, b | 0 <= a < b < |moved| && First(moved[a], moved[b].sid) && First(moved[b], moved[b].sid)
      ensures moved[b].sid in purged
    {
      assert moved[a] == cs[a] && moved[b] == cs[b];
    }
  }

  lemma MatchedKept(cs: seq<Call>, s: State, i: nat, p: Progress)
    requires i < |cs| && !cs[i].progress.Answered? && (p.Answered? ==> p.duplicate)
    requires Matched(cs, s.notifications) && Tallied(cs, s.events, s.purges)
    ensures Matched(Moved(cs, i, p), s.notifications) && Tallied(Moved(cs, i, p), s.events, s.purges)
  {
    forall k: nat, intent | true ensures CountApplied(Moved(cs, i, p), k, intent) == CountApplied(cs, k, intent) {
      CountAppliedMoved(cs, i, p, k, intent);
    }
  }

  lemma SoundMoved(cs: seq<Call>, visits: seq<Visit>, events: map<string, EventRow>,
                   purged: set<string>, i: nat, p: Progress)
    requires i < |cs| && CallsSound(cs, visits, events, purged)
    requires var c := cs[i].(progress := p); RowRead(c, visits) && Sensible(c) && AnswerKept(c, events, purged)
    ensures CallsSound(Moved(cs, i, p), visits, events, purged)
  {
  }

  lemma MoveKeeps(s: State, i: nat, p: Progress)
    requires Inv(s) && i < |s.calls| && !s.calls[i].progress.Answered? && (p.Answered? ==> p.duplicate)
    requires HoldsSid(p) ==> SidFree(s.calls, s.calls[i].sid, i) && s.calls[i].sid !in s.events
    requires forall k :: HoldsRow(s.calls[i].(progress := p), k) ==> RowFree(s.calls, k, i)
    requires var c := s.calls[i].(progress := p);
             RowRead(c, s.visits) && Sensible(c) && AnswerKept(c, s.events, s.purged)
    ensures Inv(WithProgress(s, i, p))
  {
    LocksKept(s.calls, s.events, i, p);
    SoundMoved(s.calls, s.visits, s.events, s.purged, i, p);
    FirstsKept(s.calls, s.events, s.purged, s.clock, i, p);
    MatchedKept(s.calls, s, i, p);
  }

  lemma AdvanceKeeps(s: State, i: nat)
    requires Inv(s) && CanAdvance(s, i) && (s.calls[i].progress.Decided? ==> Dangling(s, s.calls[i]))
    ensures Inv(Advance(s, i))
  {
    OwnLocks(s.calls, s.events, i);
    MoveKeeps(s, i, Advanced(s, s.calls[i]));
  }

  // ---- The commit ----

  // The state just before call i commits its event.
  ghost predicate Committing(s: State, i: nat) {
    Inv(s) && i < |s.calls| && s.calls[i].progress.Decided? && !Dangling(s, s.calls[i])
  }

  /** A call that has decided holds its message id, and its row if it read one. */
  lemma CommitLocks(s: State, i: nat)
    requires Committing(s, i)
    ensures var t := Advance(s, i); SidLocks(t.calls, t.events) && RowLocks(t.calls)
  {
    LocksKept(s.calls, s.events, i, Advanced(s, s.calls[i]));
  }

  /** What a call that has decided relies on. */
  lemma DecidedFacts(s: State, i: nat)
    requires Committing(s, i)
    ensures var c := s.calls[i];
            && c.sid !in s.events && c.intent.Some? && Invalid(c).None?
            && (c.progress.outcome == Applied ==>
                  && RowFound(s.visits, c) && Applying(s, c) && c.intent != Some(Unknown)
                  && c.progress.outcome == Verdict(s.visits[c.appointment.value], c.intent.value, c.began)
                  && HoldsRow(c, c.appointment.value))
  {
    var c := s.calls[i];
    assert RowRead(c, s.visits) && Sensible(c);
  }

  lemma CommitSound(s: State, i: nat, j: nat)
    requires Committing(s, i) && j < |s.calls|
    ensures var t := Advance(s, i);
            RowRead(t.calls[j], t.visits) && Sensible(t.calls[j]) && AnswerKept(t.calls[j], t.events, t.purged)
  {
    DecidedFacts(s, i);
    var c, o := s.calls[i], s.calls[j];
    assert RowRead(o, s.visits) && Sensible(o) && AnswerKept(o, s.events, s.purged);
    if j != i && o.appointment.Some? && HoldsRow(o, o.appointment.value) && c.progress.outcome == Applied {
      assert !HoldsRow(c, o.appointment.value);
    }
  }

  /** The event of the message is now that of call i; all other events stay with their calls. */
  lemma AnsweredCommitted(cs: seq<Call>, events: map<string, EventRow>, i: nat, p: Progress, e: EventRow)
    requires i < |cs| && !cs[i].progress.Answered? && p.Answered? && !p.duplicate && e.receivedAt == cs[i].began
    requires Committed(cs, events)
    ensures Committed(Moved(cs, i, p), events[cs[i].sid := e])
  {
    var moved, now := Moved(cs, i, p), events[cs[i].sid := e];
    forall sid | sid in now
      ensures exists j :: 0 <= j < |moved| && First(moved[j], sid) && moved[j].began == now[sid].receivedAt
    {
      if sid == cs[i].sid {
        assert First(moved[i], sid);
      } else {
        var j :| 0 <= j < |cs| && First(cs[j], sid) && cs[j].began == events[sid].receivedAt;
        assert moved[j] == cs[j];
      }
    }
  }

  lemma AnsweredOnce(cs: seq<Call>, purged: set<string>, now: int, i: nat, p: Progress)
    requires i < |cs| && !cs[i].progress.Answered? && OnePerSid(cs, purged) && PurgedOld(cs, purged, now)
    requires forall j :: 0 <= j < |cs| && First(cs[j], cs[i].sid) ==> cs[i].sid in purged
    ensures OnePerSid(Moved(cs, i, p), purged) && PurgedOld(Moved(cs, i, p), purged, now)
  {
    var moved := Moved(cs, i, p);
    forall sid | sid in purged
      ensures exists j :: 0 <= j < |moved| && First(moved[j], sid) && moved[j].began < now - RETENTION
    {
      var j :| 0 <= j < |cs| && First(cs[j], sid) && cs[j].began < now - RETENTION;
      assert moved[j] == cs[j];
    }
  }

  lemma CommitFirsts(s: State, i: nat)
    requires Committing(s, i)
    ensures var t := Advance(s, i);
            Committed(t.calls, t.events) && OnePerSid(t.calls, t.purged) && PurgedOld(t.calls, t.purged, t.clock)
  {
    DecidedFacts(s, i);
    var c := s.calls[i];
    forall j | 0 <= j < |s.calls| && First(s.calls[j], c.sid) ensures c.sid in s.purged {
      assert AnswerKept(s.calls[j], s.events, s.purged);
    }
    AnsweredCommitted(s.calls, s.events, i, Advanced(s, c), EventOf(c, c.progress.outcome));
    AnsweredOnce(s.calls, s.purged, s.clock, i, Advanced(s, c));
  }

  lemma CommitMatched(s: State, i: nat)
    requires Committing(s, i)
    ensures Matched(Advance(s, i).calls, Advance(s, i).notifications)
  {
    DecidedFacts(s, i);
    var t, c := Advance(s, i), s.calls[i];
    forall k: nat, intent | true
      ensures multiset(History(t.notifications, k))[intent] == CountApplied(t.calls, k, intent)
    {
      CountAppliedMoved(s.calls, i, Advanced(s, c), k, intent);
      if c.progress.outcome == Applied {
        HistoryAppend(s.notifications, ResponseTo(c), k);
      }
    }
  }

  lemma AppliedEventsAdded(events: map<string, EventRow>, sid: string, e: EventRow, k: nat, intent: Intent)
    requires sid !in events
    ensures |AppliedEvents(events[sid := e], k, intent)|
            == |AppliedEvents(events, k, intent)| + if AppliedEvent(e, k, intent) then 1 else 0
  {
    assert AppliedEvents(events[sid := e], k, intent)
        == AppliedEvents(events, k, intent) + if AppliedEvent(e, k, intent) then {sid} else {};
  }

  lemma CommitTallied(s: State, i: nat)
    requires Committing(s, i)
    ensures Tallied(Advance(s, i).calls, Advance(s, i).events, Advance(s, i).purges)
  {
    DecidedFacts(s, i);
    var t, c := Advance(s, i), s.calls[i];
    forall k: nat, intent | true
      ensures |AppliedEvents(t.events, k, intent)| + CountPurged(t.purges, k, intent)
              == CountApplied(t.calls, k, intent)
    {
      CountAppliedMoved(s.calls, i, Advanced(s, c), k, intent);
      AppliedEventsAdded(s.events, c.sid, EventOf(c, c.progress.outcome), k, intent);
    }
  }

  lemma CommitLives(s: State, i: nat)
    requires Committing(s, i)
    ensures var t := Advance(s, i);
            Lives(t.visits, t.first, t.notifications, t.touched) && ResponsesRefer(t.notifications, t.visits)
  {
    DecidedFacts(s, i);
    var t, c := Advance(s, i), s.calls[i];
    if c.progress.outcome == Applied {
      forall k | 0 <= k < |t.visits| && k !in t.touched
        ensures Lived(t.first[k], t.visits[k].status, History(t.notifications, k))
      {
        HistoryAppend(s.notifications, ResponseTo(c), k);
        assert Lived(s.first[k], s.visits[k].status, History(s.notifications, k));
      }
    }
  }

  lemma CommitKeeps(s: State, i: nat)
    requires Committing(s, i)
    ensures Inv(Advance(s, i))
  {
    CommitLocks(s, i);
    forall j | 0 <= j < |s.calls| {
      CommitSound(s, i, j);
    }
    CommitFirsts(s, i);
    CommitMatched(s, i);
    CommitTallied(s, i);
    CommitLives(s, i);
  }

  // ---- A new call ----

  lemma BegunFirsts(cs: seq<Call>, c: Call, events: map<string, EventRow>, purged: set<string>,
                    now: int)
    requires c.progress.Begun? && Committed(cs, events) && OnePerSid(cs, purged) && PurgedOld(cs, purged, now)
    ensures Committed(cs + [c], events) && OnePerSid(cs + [c], purged) && PurgedOld(cs + [c], purged, now)
  {
    var more := cs + [c];
    assert forall j :: 0 <= j < |cs| ==> more[j] == cs[j];
    assert !First(more[|cs|], c.sid);
    forall sid | sid in events
      ensures exists j :: 0 <= j < |more| && First(more[j], sid) && more[j].began == events[sid].receivedAt
    {
      var j :| 0 <= j < |cs| && First(cs[j], sid) && cs[j].began == events[sid].receivedAt;
      assert more[j] == cs[j];
    }
    forall sid | sid in purged
      ensures exists j :: 0 <= j < |more| && First(more[j], sid) && more[j].began < now - RETENTION
    {
      var j :| 0 <= j < |cs| && First(cs[j], sid) && cs[j].began < now - RETENTION;
      assert more[j] == cs[j];
    }
  }

  lemma BegunSound(cs: seq<Call>, c: Call, s: State)
    requires c.progress.Begun? && SidLocks(cs, s.events) && RowLocks(cs) && CallsSound(cs, s.visits, s.events, s.purged)
    ensures SidLocks(cs + [c], s.events) && RowLocks(cs + [c]) && CallsSound(cs + [c], s.visits, s.events, s.purged)
  {
    var more := cs + [c];
    assert forall j :: 0 <= j < |cs| ==> more[j] == cs[j];
    assert more[|cs|] == c;
  }

  lemma BeginKeeps(s: State, c: Call)
    requires Inv(s) && c.progress.Begun?
    ensures Inv(s.(calls := s.calls + [c]))
  {
    BegunSound(s.calls, c, s);
    BegunFirsts(s.calls, c, s.events, s.purged, s.clock);
  }

  // ---- Purges and other writers ----

  lemma PurgeFirsts(cs: seq<Call>, events: map<string, EventRow>, purged: set<string>, now: int)
    requires Committed(cs, events) && OnePerSid(cs, purged) && PurgedOld(cs, purged, now)
    ensures var stale := Stale(events, now);
            Committed(cs, events - stale) && OnePerSid(cs, purged + stale) && PurgedOld(cs, purged + stale, now)
  {
    var stale := Stale(events, now);
    forall sid | sid in stale ensures exists i :: 0 <= i < |cs| && First(cs[i], sid) && cs[i].began < now - RETENTION {
      var i :| 0 <= i < |cs| && First(cs[i], sid) && cs[i].began == events[sid].receivedAt;
    }
  }

  /** What a purge deletes is counted where it went. */
  lemma PurgeTallied(cs: seq<Call>, events: map<string, EventRow>, purges: seq<map<string, EventRow>>, now: int)
    requires Tallied(cs, events, purges)
    ensures Tallied(cs, events - Stale(events, now), purges + [StaleEvents(events, now)])
  {
    var stale, gone, more := Stale(events, now), StaleEvents(events, now), purges + [StaleEvents(events, now)];
    assert more[..|purges|] == purges;
    forall k: nat, intent | true
      ensures |AppliedEvents(events - stale, k, intent)| + CountPurged(more, k, intent) == CountApplied(cs, k, intent)
    {
      assert AppliedEvents(events, k, intent)
          == AppliedEvents(events - stale, k, intent) + AppliedEvents(gone, k, intent);
    }
  }

  lemma PurgeSound(cs: seq<Call>, visits: seq<Visit>, events: map<string, EventRow>, purged: set<string>, now: int)
    requires CallsSound(cs, visits, events, purged)
    ensures CallsSound(cs, visits, events - Stale(events, now), purged + Stale(events, now))
  {
    forall i | 0 <= i < |cs| ensures AnswerKept(cs[i], events - Stale(events, now), purged + Stale(events, now)) {
      assert AnswerKept(cs[i], events, purged);
    }
  }

  lemma PurgeKeeps(s: State)
    requires Inv(s)
    ensures Inv(Next(s, Purge))
  {
    PurgeFirsts(s.calls, s.events, s.purged, s.clock);
    PurgeSound(s.calls, s.visits, s.events, s.purged, s.clock);
    PurgeTallied(s.calls, s.events, s.purges, s.clock);
  }

  lemma TickKeeps(s: State, now: int)
    requires Inv(s) && s.clock <= now
    ensures Inv(s.(clock := now))
  {
    forall sid | sid in s.purged
      ensures exists i :: 0 <= i < |s.calls| && First(s.calls[i], sid) && s.calls[i].began < now - RETENTION
    {
      var i :| 0 <= i < |s.calls| && First(s.calls[i], sid) && s.calls[i].began < s.clock - RETENTION;
    }
  }

  lemma OtherNotificationKeeps(s: State, n: Notification)
    requires Inv(s) && n.kind.Outgoing?
    ensures Inv(s.(notifications := s.notifications + [n]))
  {
    forall k: nat | true ensures History(s.notifications + [n], k) == History(s.notifications, k) {
      HistoryAppend(s.notifications, n, k);
    }
  }

  lemma OtherDeliveryKeeps(s: State, n: nat, delivery: Delivery)
    requires Inv(s) && n < |s.notifications|
    ensures Inv(s.(notifications := s.notifications[n := s.notifications[n].(delivery := delivery)]))
  {
    var changed := s.notifications[n := s.notifications[n].(delivery := delivery)];
    forall k: nat | true ensures History(changed, k) == History(s.notifications, k) {
      HistoryDelivery(s.notifications, n, delivery, k);
    }
  }

  lemma OtherVisitKeeps(s: State, v: Visit)
    requires Inv(s)
    ensures Inv(s.(visits := s.visits + [v], first := s.first + [v.status]))
  {
    var more := s.visits + [v];
    assert forall k :: 0 <= k < |s.visits| ==> more[k] == s.visits[k];
    NothingRecorded(s.notifications, |s.visits|);
    forall i | 0 <= i < |s.calls| ensures RowRead(s.calls[i], more) {
      assert RowRead(s.calls[i], s.visits);
    }
  }

  lemma OtherChangeKeeps(s: State, k: nat, v: Visit)
    requires Inv(s) && k < |s.visits| && RowFree(s.calls, k, -1)
    ensures Inv(s.(visits := s.visits[k := v], touched := s.touched + {k}))
  {
    forall i | 0 <= i < |s.calls| ensures RowRead(s.calls[i], s.visits[k := v]) {
      assert RowRead(s.calls[i], s.visits) && !HoldsRow(s.calls[i], k);
    }
  }

  // ---- Every step, every run ----

  lemma StepKeeps(s: State, e: Event)
    requires Inv(s) && Enabled(s, e)
    ensures Inv(Next(s, e))
  {
    match e
    case BeginCall(call) => BeginKeeps(s, call);
    case StepCall(i) =>
      if s.calls[i].progress.Decided? && !Dangling(s, s.calls[i]) { CommitKeeps(s, i); } else { AdvanceKeeps(s, i); }
    case RollBack(i) => MoveKeeps(s, i, RolledBack);
    case Tick(now) => TickKeeps(s, now);
    case Purge => PurgeKeeps(s);
    case OtherNotification(n) => OtherNotificationKeeps(s, n);
    case OtherDelivery(n, delivery) => OtherDeliveryKeeps(s, n, delivery);
    case OtherVisit(visit) => OtherVisitKeeps(s, visit);
    case OtherChange(k, changed) => OtherChangeKeeps(s, k, changed);
  }

  lemma InitialInv(s: State)
    requires Initial(s)
    ensures Inv(s)
  {
    forall k: nat | true ensures History(s.notifications, k) == [] {
      NothingRecorded(s.notifications, k);
    }
  }

  /** The invariant holds in every state of every run. */
  lemma {:induction false} RunKeeps(s: State, es: seq<Event>, t: State)
    requires Inv(s) && Leads(s, es, t)
    ensures Inv(t)
    decreases |es|
  {
    if es != [] {
      StepKeeps(s, es[0]);
      RunKeeps(Next(s, es[0]), es[1..], t);
    }
  }

  lemma ReachableInv(t: State)
    requires Reachable(t)
    ensures Inv(t)
  {
    var s, es :| Initial(s) && Leads(s, es, t);
    InitialInv(s);
    RunKeeps(s, es, t);
  }
}
