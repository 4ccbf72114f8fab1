/** What every step of the reply protocol keeps. */
module ReplyInvariants {
  import opened Base
  import opened Tables
  import opened ReplyProtocol

  // ---- Locks ----

  /** An uncommitted message id is held by one call, and no committed event has it. */
  ghost predicate SidLocks(cs: seq<Call>, events: map<string, EventRow>) {
    && (forall i, j :: 0 <= i < j < |cs| && HoldsSid(cs[i].progress) && HoldsSid(cs[j].progress) ==>
                       cs[i].sid != cs[j].sid)
    && (forall i :: 0 <= i < |cs| && HoldsSid(cs[i].progress) ==> cs[i].sid !in events)
  }

  ghost predicate RowLocks(cs: seq<Call>) {
    forall i, j, k :: 0 <= i < j < |cs| && HoldsRow(cs[i], k) ==> !HoldsRow(cs[j], k)
  }

  // ---- One call ----

  /** The appointment is as the call read it, and the verdict is the one on that row. */
  ghost predicate RowRead(c: Call, visits: seq<Visit>) {
    c.progress.Decided? ==>
      if c.progress.read.Some?
      then && RowFound(visits, c) && c.intent.Some? && visits[c.appointment.value] == c.progress.read.value
           && c.progress.outcome == Verdict(c.progress.read.value, c.intent.value, c.began)
      else !c.progress.outcome.Applied?
  }

  /** How far the call got fits its arguments. */
  ghost predicate Sensible(c: Call) {
    && (HoldsSid(c.progress) ==> Invalid(c).None?)
    && (c.progress.WantsRow? || (c.progress.Decided? && c.progress.read.Some?) ==>
            Resolved(c) && c.intent != Some(Unknown))
  }

  /** The call committed the event of the message. */
  predicate First(c: Call, sid: string) { c.sid == sid && c.progress.Answered? && !c.progress.duplicate }

  /** What an answered call returned is what the event says, unless that was purged. */
  ghost predicate AnswerKept(c: Call, events: map<string, EventRow>, purged: set<string>) {
    && (c.progress.Known? ==> c.sid in events || c.sid in purged)
    && (c.progress.Answered? && c.sid !in purged ==>
            c.sid in events && c.progress.result == Some(events[c.sid].outcome))
    && (c.progress.Answered? && !c.progress.duplicate ==> c.progress.result.Some?)
  }

  ghost predicate CallsSound(cs: seq<Call>, visits: seq<Visit>, events: map<string, EventRow>, purged: set<string>) {
    forall i :: 0 <= i < |cs| ==> RowRead(cs[i], visits) && Sensible(cs[i]) && AnswerKept(cs[i], events, purged)
  }

  // ---- Once per message ----

  /** Every event was committed by a call that began when the event was received. */
  ghost predicate Committed(cs: seq<Call>, events: map<string, EventRow>) {
    forall sid :: sid in events ==>
                  exists i :: 0 <= i < |cs| && First(cs[i], sid) && cs[i].began == events[sid].receivedAt
  }

  /** Two calls committed an event of one message only if it was purged in between. */
  ghost predicate OnePerSid(cs: seq<Call>, purged: set<string>) {
    forall i, j :: 0 <= i < j < |cs| && First(cs[i], cs[j].sid) && First(cs[j], cs[j].sid) ==> cs[j].sid in purged
  }

  /** Only events of calls that began more than 30 days ago were purged. */
  ghost predicate PurgedOld(cs: seq<Call>, purged: set<string>, now: int) {
    forall sid :: sid in purged ==> exists i :: 0 <= i < |cs| && First(cs[i], sid) && cs[i].began < now - RETENTION
  }

  // ---- Applied replies ----

  /** The recorded replies about an appointment, in the order of their commits. */
  function History(notifications: seq<Notification>, k: nat): seq<Intent> {
    if notifications == [] then []
    else
      var n, rest := notifications[|notifications| - 1], History(notifications[..|notifications| - 1], k);
      if n.kind.Response? && n.appointment == k then rest + [n.kind.intent] else rest
  }

  predicate AppliedTo(c: Call, k: nat, intent: Intent) {
    && c.progress.Answered? && !c.progress.duplicate && c.progress.result == Some(Applied)
    && c.appointment == Some(k) && c.intent == Some(intent)
  }

  function CountApplied(cs: seq<Call>, k: nat, intent: Intent): nat {
    if cs == [] then 0
    else CountApplied(cs[..|cs| - 1], k, intent) + if AppliedTo(cs[|cs| - 1], k, intent) then 1 else 0
  }

  predicate AppliedEvent(e: EventRow, k: nat, intent: Intent) {
    e.outcome == Applied && e.appointment == Some(k) && e.intent == intent
  }

  /** The messages of the events that applied such a reply. */
  function AppliedEvents(events: map<string, EventRow>, k: nat, intent: Intent): set<string> {
    set sid | sid in events && AppliedEvent(events[sid], k, intent)
  }

  /** How many such events were purged so far. */
  function CountPurged(purges: seq<map<string, EventRow>>, k: nat, intent: Intent): nat {
    if purges == [] then 0
    else CountPurged(purges[..|purges| - 1], k, intent) + |AppliedEvents(purges[|purges| - 1], k, intent)|
  }

  /** Each appointment has as many recorded replies of a kind as calls that applied one. */
  ghost predicate Matched(cs: seq<Call>, notifications: seq<Notification>) {
    forall k: nat, intent :: multiset(History(notifications, k))[intent] == CountApplied(cs, k, intent)
  }

  /** Each call that applied a reply has its event, still there or purged. */
  ghost predicate Tallied(cs: seq<Call>, events: map<string, EventRow>, purges: seq<map<string, EventRow>>) {
    forall k: nat, intent ::
      |AppliedEvents(events, k, intent)| + CountPurged(purges, k, intent) == CountApplied(cs, k, intent)
  }

  // ---- The life of an appointment ----

  /** An appointment that only replies changed: confirmed once at most, then cancelled once at most, and never back. */
  predicate Lived(first: Option<Status>, status: Option<Status>, history: seq<Intent>) {
    || (history == [] && status == first)
    || (history == [Confirm] && first in [None, Some(Pending)] && status == Some(Confirmed))
    || (history == [Cancel] && first in [None, Some(Pending), Some(Confirmed)] && status == Some(Cancelled))
    || (history == [Confirm, Cancel] && first in [None, Some(Pending)] && status == Some(Cancelled))
  }

  ghost predicate Lives(visits: seq<Visit>, first: seq<Option<Status>>, notifications: seq<Notification>,
                        touched: set<nat>) {
    && |first| == |visits|
    && (forall k :: 0 <= k < |visits| && k !in touched ==> Lived(first[k], visits[k].status, History(notifications, k)))
  }

  /** Recorded replies are about existing appointments. */
  ghost predicate ResponsesRefer(notifications: seq<Notification>, visits: seq<Visit>) {
    forall n :: 0 <= n < |notifications| && notifications[n].kind.Response? ==> notifications[n].appointment < |visits|
  }

  ghost predicate Inv(s: State) {
    && SidLocks(s.calls, s.events) && RowLocks(s.calls)
    && CallsSound(s.calls, s.visits, s.events, s.purged)
    && Committed(s.calls, s.events) && OnePerSid(s.calls, s.purged) && PurgedOld(s.calls, s.purged, s.clock)
    && Matched(s.calls, s.notifications) && Tallied(s.calls, s.events, s.purges)
    && Lives(s.visits, s.first, s.notifications, s.touched) && ResponsesRefer(s.notifications, s.visits)
  }
}
