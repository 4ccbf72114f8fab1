/** Every step of the draft protocol keeps the invariant. */
module DraftSteps {
  import opened Base
  import opened Tables
  import opened Availability
  import opened AvailabilityTheorems
  import opened DraftProtocol
  import opened DraftInvariants

  // ---- Counting ----

  lemma {:induction false} CountMcpStatus(table: seq<Appointment>, k: nat, status: Status)
    requires k < |table|
    ensures CountMcp(table[k := table[k].(status := status)]) == CountMcp(table)
  {
    var n, updated := |table| - 1, table[k := table[k].(status := status)];
    if k < n {
      assert updated[..n] == table[..n][k := table[..n][k].(status := status)];
      CountMcpStatus(table[..n], k, status);
    } else {
      assert updated[..n] == table[..n];
    }
  }

  lemma {:induction false} CountBookedUpdate(drafts: seq<Draft>, k: nat, d: Draft)
    requires k < |drafts|
    ensures CountBooked(drafts[k := d])
            == CountBooked(drafts) - (if drafts[k].status == Booked then 1 else 0) + if d.status == Booked then 1 else 0
  {
    var n := |drafts| - 1;
    if k < n {
      assert drafts[k := d][..n] == drafts[..n][k := d];
      CountBookedUpdate(drafts[..n], k, d);
    } else {
      assert drafts[k := d][..n] == drafts[..n];
    }
  }

  // ---- One confirmation moves on ----

  function Moved(cs: seq<Confirmation>, i: nat, p: Progress): seq<Confirmation>
    requires i < |cs|
  {
    cs[i := cs[i].(progress := p)]
  }

  lemma LocksKept(cs: seq<Confirmation>, i: nat, p: Progress)
    requires i < |cs| && DraftLocks(cs) && SpecialistLocks(cs)
    requires HoldsDraft(p) ==> DraftUnlocked(cs, cs[i].draft, i)
    requires forall key :: HoldsSpecialist(p, key) ==> KeyUnlocked(cs, key, i)
    ensures DraftLocks(Moved(cs, i, p)) && SpecialistLocks(Moved(cs, i, p))
  {
  }

  lemma ReadsKept(cs: seq<Confirmation>, i: nat, p: Progress, drafts: seq<Draft>, table: seq<Appointment>,
                  stamps: seq<nat>, changes: nat)
    requires i < |cs| && RowsRead(cs, drafts) && Cleared(cs, table, stamps, changes)
    requires ReadRow(cs[i].(progress := p), drafts)
    requires ClearedOne(p, table, stamps, changes)
    ensures RowsRead(Moved(cs, i, p), drafts) && Cleared(Moved(cs, i, p), table, stamps, changes)
  {
  }

  lemma OutcomesKept(cs: seq<Confirmation>, i: nat, p: Progress, drafts: seq<Draft>,
                     table: seq<Appointment>, stamps: seq<nat>, changes: nat)
    requires i < |cs| && !Finished(cs[i].progress) && Outcomes(cs, drafts) && OnceEach(cs, drafts)
    requires BookingsAlone(cs, table, stamps, changes)
    requires Outcome(cs[i].(progress := p), drafts) && (p.Committed? ==> p.idempotent)
    ensures Outcomes(Moved(cs, i, p), drafts) && OnceEach(Moved(cs, i, p), drafts)
    ensures BookingsAlone(Moved(cs, i, p), table, stamps, changes)
  {
    var moved := Moved(cs, i, p);
    forall d | 0 <= d < |drafts| && drafts[d].status == Booked
      ensures exists j :: 0 <= j < |moved| && BookedBy(moved[j], d) && moved[j].began <= drafts[d].expiresAt
    {
      var j :| 0 <= j < |cs| && BookedBy(cs[j], d) && cs[j].began <= drafts[d].expiresAt;
      assert moved[j] == cs[j];
    }
  }

  lemma AdvancedLocks(s: State, i: nat)
    requires CanAdvance(s, i) && DraftLocks(s.confirmations) && SpecialistLocks(s.confirmations)
    ensures DraftLocks(Moved(s.confirmations, i, Advanced(s, s.confirmations[i])))
    ensures SpecialistLocks(Moved(s.confirmations, i, Advanced(s, s.confirmations[i])))
  {
    LocksKept(s.confirmations, i, Advanced(s, s.confirmations[i]));
  }

  lemma AdvancedReads(s: State, i: nat)
    requires CanAdvance(s, i) && !s.confirmations[i].progress.Insertable?
    requires ReadRow(s.confirmations[i], s.drafts)
    ensures var p := Advanced(s, s.confirmations[i]);
            ReadRow(s.confirmations[i].(progress := p), s.drafts) && ClearedOne(p, s.appointments, s.stamps, s.changes)
  {
  }

  /** Advancing without inserting. */
  lemma AdvanceKeeps(s: State, i: nat)
    requires Inv(s) && CanAdvance(s, i) && !s.confirmations[i].progress.Insertable?
    ensures Inv(Advance(s, i))
  {
    var c := s.confirmations[i];
    var p := Advanced(s, c);
    assert ReadRow(c, s.drafts);
    AdvancedLocks(s, i);
    AdvancedReads(s, i);
    ReadsKept(s.confirmations, i, p, s.drafts, s.appointments, s.stamps, s.changes);
    OutcomesKept(s.confirmations, i, p, s.drafts, s.appointments, s.stamps, s.changes);
  }

  lemma RollBackKeeps(s: State, i: nat)
    requires Inv(s) && i < |s.confirmations| && !Finished(s.confirmations[i].progress)
    ensures Inv(WithProgress(s, i, RolledBack))
  {
    LocksKept(s.confirmations, i, RolledBack);
    ReadsKept(s.confirmations, i, RolledBack, s.drafts, s.appointments, s.stamps, s.changes);
    OutcomesKept(s.confirmations, i, RolledBack, s.drafts, s.appointments, s.stamps, s.changes);
  }

  /** A transaction that has done nothing yet. */
  lemma BegunKeepsLocks(cs: seq<Confirmation>, c: Confirmation, drafts: seq<Draft>,
                        table: seq<Appointment>, stamps: seq<nat>, changes: nat)
    requires c.progress.Begun?
    requires DraftLocks(cs) && SpecialistLocks(cs) && RowsRead(cs, drafts) && Cleared(cs, table, stamps, changes)
    ensures var more := cs + [c];
            DraftLocks(more) && SpecialistLocks(more) && RowsRead(more, drafts) && Cleared(more, table, stamps, changes)
  {
    var more := cs + [c];
    assert forall i :: 0 <= i < |cs| ==> more[i] == cs[i];
    assert more[|cs|] == c;
  }

  lemma BegunKeepsOutcomes(cs: seq<Confirmation>, c: Confirmation, drafts: seq<Draft>,
                           table: seq<Appointment>, stamps: seq<nat>, changes: nat)
    requires c.progress.Begun?
    requires BookingsAlone(cs, table, stamps, changes) && Outcomes(cs, drafts) && OnceEach(cs, drafts)
    ensures var more := cs + [c];
            BookingsAlone(more, table, stamps, changes) && Outcomes(more, drafts) && OnceEach(more, drafts)
  {
    var more := cs + [c];
    assert forall i :: 0 <= i < |cs| ==> more[i] == cs[i];
    assert more[|cs|] == c;
    forall d | 0 <= d < |drafts| && drafts[d].status == Booked
      ensures exists j :: 0 <= j < |more| && BookedBy(more[j], d) && more[j].began <= drafts[d].expiresAt
    {
      var j :| 0 <= j < |cs| && BookedBy(cs[j], d) && cs[j].began <= drafts[d].expiresAt;
      assert more[j] == cs[j];
    }
  }

  lemma BeginConfirmKeeps(s: State, draft: nat, user: string)
    requires Inv(s)
    ensures Inv(s.(confirmations := s.confirmations + [Confirmation(draft, user, s.clock, Begun)]))
  {
    var c := Confirmation(draft, user, s.clock, Begun);
    BegunKeepsLocks(s.confirmations, c, s.drafts, s.appointments, s.stamps, s.changes);
    BegunKeepsOutcomes(s.confirmations, c, s.drafts, s.appointments, s.stamps, s.changes);
  }

  // ---- The insert ----

  // The state just before transaction i inserts.
  ghost predicate Inserting(s: State, i: nat) {
    Inv(s) && i < |s.confirmations| && s.confirmations[i].progress.Insertable?
  }

  /** The new appointment overlaps the row of no other transaction that is about to insert: they would share a lock. */
  lemma InsertClears(s: State, i: nat, j: nat)
    requires Inserting(s, i) && j < |s.confirmations| && j != i
    ensures var t := Advance(s, i); ClearedOne(s.confirmations[j].progress, t.appointments, t.stamps, t.changes)
  {
    var c, o := s.confirmations[i].progress, s.confirmations[j].progress;
    assert ClearedOne(o, s.appointments, s.stamps, s.changes) && ReadRow(s.confirmations[i], s.drafts);
    if o.Insertable? && o.row.request.specialist.Some? {
      var key := LockKey(o.row.request.specialist.value);
      assert HoldsSpecialist(o, key);
      assert !HoldsSpecialist(c, key);
      assert !Overlaps(AppointmentOf(c.row), o.row);
    }
  }

  /** What clashes with the new appointment was added or changed after its check. */
  lemma NewIsAlone(s: State, i: nat)
    requires Inserting(s, i)
    ensures var t, p := Advance(s, i), s.confirmations[i].progress;
            Alone(t.appointments, t.stamps, t.changes, |s.appointments|, p.seen)
  {
    var p, table, t := s.confirmations[i].progress, s.appointments, Advance(s, i);
    assert ClearedOne(p, table, s.stamps, s.changes) && ReadRow(s.confirmations[i], s.drafts);
    assert forall k :: 0 <= k < |table| ==> t.appointments[k] == table[k] && t.stamps[k] == s.stamps[k];
    assert t.appointments[|table|] == AppointmentOf(p.row);
  }

  /** The new appointment clashes with no earlier booking. */
  lemma EarlierStayAlone(s: State, i: nat, m: nat, seen: nat)
    requires Inserting(s, i) && Alone(s.appointments, s.stamps, s.changes, m, seen) && s.appointments[m].ends.Some?
    ensures var t := Advance(s, i); Alone(t.appointments, t.stamps, t.changes, m, seen)
  {
    var p, table, t := s.confirmations[i].progress, s.appointments, Advance(s, i);
    assert ClearedOne(p, table, s.stamps, s.changes) && ReadRow(s.confirmations[i], s.drafts);
    assert forall k :: 0 <= k < |table| ==> t.appointments[k] == table[k] && t.stamps[k] == s.stamps[k];
    assert t.appointments[|table|] == AppointmentOf(p.row);
  }

  /** The new appointment is alone, and the earlier bookings stay so. */
  lemma InsertAlone(s: State, i: nat, j: nat)
    requires Inserting(s, i) && j < |s.confirmations|
    requires var c := Advance(s, i).confirmations[j].progress; c.Committed? && !c.idempotent
    ensures var t := Advance(s, i);
            Alone(t.appointments, t.stamps, t.changes, t.confirmations[j].progress.booked,
                  t.confirmations[j].progress.seen)
  {
    if j == i {
      NewIsAlone(s, i);
    } else {
      var p := s.confirmations[j].progress;
      assert Alone(s.appointments, s.stamps, s.changes, p.booked, p.seen);
      assert Outcome(s.confirmations[j], s.drafts) && BookedRow(s.drafts[s.confirmations[j].draft], s.appointments);
      EarlierStayAlone(s, i, p.booked, p.seen);
    }
  }

  function BookedDrafts(drafts: seq<Draft>, d: nat, m: nat): seq<Draft>
    requires d < |drafts|
  {
    drafts[d := drafts[d].(status := Booked, appointment := Some(m))]
  }

  lemma BookingLinks(drafts: seq<Draft>, table: seq<Appointment>, d: nat)
    requires d < |drafts| && Linked(drafts, table) && Injective(drafts) && drafts[d].appointment.None?
    ensures Linked(BookedDrafts(drafts, d, |table|), table + [AppointmentOf(drafts[d])])
    ensures Injective(BookedDrafts(drafts, d, |table|))
  {
    var booked, more := BookedDrafts(drafts, d, |table|), table + [AppointmentOf(drafts[d])];
    assert forall k :: 0 <= k < |table| ==> more[k] == table[k];
    forall e | 0 <= e < |booked|
      ensures BookedRow(booked[e], more) && (e != d ==> booked[e].appointment != Some(|table|))
    {
      assert BookedRow(drafts[e], table);
    }
  }

  /** Drafts keep their appointments; a new appointment of this source comes with its draft. */
  lemma SourcedKept(drafts: seq<Draft>, table: seq<Appointment>, drafts': seq<Draft>,
                    table': seq<Appointment>)
    requires Sourced(drafts, table) && |drafts| <= |drafts'| && |table| <= |table'|
    requires forall d :: 0 <= d < |drafts| && drafts[d].appointment.Some? ==>
                           drafts'[d].appointment == drafts[d].appointment
    requires forall m :: 0 <= m < |table| ==> table'[m].source == table[m].source
    requires forall m :: |table| <= m < |table'| && table'[m].source == MCP ==>
                           exists d :: 0 <= d < |drafts'| && drafts'[d].appointment == Some(m)
    ensures Sourced(drafts', table')
  {
    forall m | 0 <= m < |table| && table'[m].source == MCP
      ensures exists d :: 0 <= d < |drafts'| && drafts'[d].appointment == Some(m)
    {
      var d :| 0 <= d < |drafts| && drafts[d].appointment == Some(m);
      assert drafts'[d].appointment == Some(m);
    }
  }

  lemma BookingSources(drafts: seq<Draft>, table: seq<Appointment>, d: nat)
    requires d < |drafts| && Sourced(drafts, table) && drafts[d].appointment.None?
    ensures Sourced(BookedDrafts(drafts, d, |table|), table + [AppointmentOf(drafts[d])])
  {
    var booked, more := BookedDrafts(drafts, d, |table|), table + [AppointmentOf(drafts[d])];
    assert forall k :: 0 <= k < |table| ==> more[k] == table[k];
    assert booked[d].appointment == Some(|table|);
    SourcedKept(drafts, table, booked, more);
  }

  lemma BookingRows(drafts: seq<Draft>, table: seq<Appointment>, d: nat)
    requires d < |drafts| && RangesValid(table) && DraftsOrdered(drafts) && KeysUnique(drafts)
    ensures RangesValid(table + [AppointmentOf(drafts[d])])
    ensures DraftsOrdered(BookedDrafts(drafts, d, |table|)) && KeysUnique(BookedDrafts(drafts, d, |table|))
  {
  }

  lemma {:induction false} BookingCounts(drafts: seq<Draft>, table: seq<Appointment>, d: nat)
    requires d < |drafts| && drafts[d].status == Waiting
    ensures CountMcp(table + [AppointmentOf(drafts[d])]) == CountMcp(table) + 1
    ensures CountBooked(BookedDrafts(drafts, d, |table|)) == CountBooked(drafts) + 1
  {
    CountBookedUpdate(drafts, d, BookedDrafts(drafts, d, |table|)[d]);
  }

  lemma InsertTables(s: State, i: nat)
    requires Inserting(s, i)
    ensures var t := Advance(s, i);
            && RangesValid(t.appointments) && DraftsOrdered(t.drafts) && KeysUnique(t.drafts)
            && Linked(t.drafts, t.appointments) && Injective(t.drafts) && Sourced(t.drafts, t.appointments)
            && CountMcp(t.appointments) == CountBooked(t.drafts)
  {
    var c := s.confirmations[i];
    assert ReadRow(c, s.drafts);
    assert BookedRow(s.drafts[c.draft], s.appointments);
    BookingLinks(s.drafts, s.appointments, c.draft);
    BookingSources(s.drafts, s.appointments, c.draft);
    BookingRows(s.drafts, s.appointments, c.draft);
    BookingCounts(s.drafts, s.appointments, c.draft);
  }

  lemma InsertTransactions(s: State, i: nat)
    requires Inserting(s, i)
    ensures var t := Advance(s, i);
            && DraftLocks(t.confirmations) && SpecialistLocks(t.confirmations) && RowsRead(t.confirmations, t.drafts)
            && Cleared(t.confirmations, t.appointments, t.stamps, t.changes)
            && BookingsAlone(t.confirmations, t.appointments, t.stamps, t.changes)
  {
    var t := Advance(s, i);
    assert ReadRow(s.confirmations[i], s.drafts);
    LocksKept(s.confirmations, i, t.confirmations[i].progress);
    forall j | 0 <= j < |t.confirmations| ensures ReadRow(t.confirmations[j], t.drafts) {
      assert ReadRow(s.confirmations[j], s.drafts);
    }
    forall j | 0 <= j < |t.confirmations|
      ensures ClearedOne(t.confirmations[j].progress, t.appointments, t.stamps, t.changes)
    {
      if j != i {
        InsertClears(s, i, j);
      }
    }
    forall j | && 0 <= j < |t.confirmations| && t.confirmations[j].progress.Committed?
               && !t.confirmations[j].progress.idempotent {
      InsertAlone(s, i, j);
    }
  }

  lemma InsertOutcomes(s: State, i: nat)
    requires Inserting(s, i)
    ensures var t := Advance(s, i); Outcomes(t.confirmations, t.drafts) && OnceEach(t.confirmations, t.drafts)
  {
    var cs, t := s.confirmations, Advance(s, i);
    var d := cs[i].draft;
    assert ReadRow(cs[i], s.drafts) && BookedRow(s.drafts[d], s.appointments);
    assert s.drafts[d].appointment.None?;
    forall j | 0 <= j < |cs| ensures Outcome(t.confirmations[j], t.drafts) && (j != i ==> !BookedBy(cs[j], d)) {
      assert Outcome(cs[j], s.drafts);
    }
    forall e | 0 <= e < |t.drafts| && t.drafts[e].status == Booked
      ensures exists j :: && 0 <= j < |cs| && BookedBy(t.confirmations[j], e)
                          && t.confirmations[j].began <= t.drafts[e].expiresAt
    {
      if e == d {
        assert BookedBy(t.confirmations[i], e);
      } else {
        var j :| 0 <= j < |cs| && BookedBy(cs[j], e) && cs[j].began <= s.drafts[e].expiresAt;
        assert t.confirmations[j] == cs[j];
      }
    }
  }

  /**
   The appointments some time later: those with an old stamp have not changed, except that they may have lost
   their active status.
   */
  ghost predicate Later(table: seq<Appointment>, stamps: seq<nat>, changes: nat, table': seq<Appointment>,
                        stamps': seq<nat>, changes': nat) {
    && |stamps| == |table| <= |table'| == |stamps'| && changes <= changes'
    && forall k :: 0 <= k < |table'| && stamps'[k] < changes ==>
                     && k < |table| && stamps'[k] == stamps[k] && table'[k] == table[k].(status := table'[k].status)
                     && (Active(table'[k].status) ==> Active(table[k].status))
  }

  /** No draft is lost, and of each only the status and the appointment may have changed. */
  ghost predicate DraftsLater(drafts: seq<Draft>, drafts': seq<Draft>) {
    && |drafts| <= |drafts'|
    && forall d :: 0 <= d < |drafts| ==>
                     drafts'[d] == drafts[d].(status := drafts'[d].status, appointment := drafts'[d].appointment)
  }

  lemma CreationsKept(s: State, drafts': seq<Draft>, table': seq<Appointment>, stamps': seq<nat>,
                      changes': nat)
    requires CreationsSound(s.creations, s.drafts, s.appointments, s.stamps, s.changes)
    requires Later(s.appointments, s.stamps, s.changes, table', stamps', changes') && DraftsLater(s.drafts, drafts')
    ensures CreationsSound(s.creations, drafts', table', stamps', changes')
  {
    forall i | 0 <= i < |s.creations| ensures CreationSound(s.creations[i], drafts', table', stamps', changes') {
      assert CreationSound(s.creations[i], s.drafts, s.appointments, s.stamps, s.changes);
    }
  }

  lemma InsertCreations(s: State, i: nat)
    requires Inserting(s, i)
    ensures var t := Advance(s, i);
            CreationsSound(t.creations, t.drafts, t.appointments, t.stamps, t.changes) && MadeOnce(t.creations)
            && BuffersValid(t.catalog) && Stamped(t.appointments, t.stamps, t.changes)
  {
    var t := Advance(s, i);
    assert ReadRow(s.confirmations[i], s.drafts);
    assert t.creations == s.creations && t.catalog == s.catalog;
    CreationsKept(s, t.drafts, t.appointments, t.stamps, t.changes);
  }

  lemma InsertKeeps(s: State, i: nat)
    requires Inserting(s, i)
    ensures Inv(Advance(s, i))
  {
    InsertTables(s, i);
    InsertTransactions(s, i);
    InsertOutcomes(s, i);
    InsertCreations(s, i);
  }

  // ---- Other writers ----

  /** Only appointments of other sources were added or changed, after everything checked so far. */
  lemma OthersKeepChecks(cs: seq<Confirmation>, table: seq<Appointment>, stamps: seq<nat>, changes: nat,
                         table': seq<Appointment>, stamps': seq<nat>, changes': nat)
    requires Cleared(cs, table, stamps, changes) && BookingsAlone(cs, table, stamps, changes)
    requires Later(table, stamps, changes, table', stamps', changes')
    requires forall k :: 0 <= k < |table'| && stamps'[k] >= changes ==>
                           table'[k].source != MCP && (k < |table| ==> table[k].source != MCP)
    ensures Cleared(cs, table', stamps', changes') && BookingsAlone(cs, table', stamps', changes')
  {
    forall i | 0 <= i < |cs| ensures ClearedOne(cs[i].progress, table', stamps', changes') {
      assert ClearedOne(cs[i].progress, table, stamps, changes);
    }
    forall i | 0 <= i < |cs| && cs[i].progress.Committed? && !cs[i].progress.idempotent
      ensures Alone(table', stamps', changes', cs[i].progress.booked, cs[i].progress.seen)
    {
      assert Alone(table, stamps, changes, cs[i].progress.booked, cs[i].progress.seen);
    }
  }

  lemma OtherAppointmentTables(drafts: seq<Draft>, table: seq<Appointment>, a: Appointment)
    requires RangesValid(table) && Linked(drafts, table) && Sourced(drafts, table) && a.source != MCP && RangeValid(a)
    ensures RangesValid(table + [a]) && Linked(drafts, table + [a]) && Sourced(drafts, table + [a])
    ensures CountMcp(table + [a]) == CountMcp(table)
  {
    var more := table + [a];
    assert forall k :: 0 <= k < |table| ==> more[k] == table[k];
    forall d | 0 <= d < |drafts| ensures BookedRow(drafts[d], more) {
      assert BookedRow(drafts[d], table);
    }
    SourcedKept(drafts, table, drafts, more);
  }

  lemma OneMoreLater(table: seq<Appointment>, stamps: seq<nat>, changes: nat, a: Appointment)
    requires Stamped(table, stamps, changes) && a.source != MCP
    ensures var table', stamps' := table + [a], stamps + [changes];
            && Later(table, stamps, changes, table', stamps', changes + 1)
            && forall k :: 0 <= k < |table'| && stamps'[k] >= changes ==>
                             table'[k].source != MCP && (k < |table| ==> table[k].source != MCP)
  {
    assert forall k :: 0 <= k < |table| ==> (table + [a])[k] == table[k] && (stamps + [changes])[k] == stamps[k];
  }

  lemma OneMoreKeepsChecks(s: State, a: Appointment)
    requires Stamped(s.appointments, s.stamps, s.changes) && a.source != MCP
    requires Cleared(s.confirmations, s.appointments, s.stamps, s.changes)
    requires BookingsAlone(s.confirmations, s.appointments, s.stamps, s.changes)
    requires CreationsSound(s.creations, s.drafts, s.appointments, s.stamps, s.changes)
    ensures var table, stamps, changes := s.appointments + [a], s.stamps + [s.changes], s.changes + 1;
            && Stamped(table, stamps, changes)
            && Cleared(s.confirmations, table, stamps, changes)
            && BookingsAlone(s.confirmations, table, stamps, changes)
            && CreationsSound(s.creations, s.drafts, table, stamps, changes)
  {
    var table, stamps, changes := s.appointments + [a], s.stamps + [s.changes], s.changes + 1;
    OneMoreLater(s.appointments, s.stamps, s.changes, a);
    OthersKeepChecks(s.confirmations, s.appointments, s.stamps, s.changes, table, stamps, changes);
    CreationsKept(s, s.drafts, table, stamps, changes);
  }

  lemma OtherAppointmentKeeps(s: State, a: Appointment)
    requires Inv(s) && Enabled(s, OtherAppointment(a))
    ensures Inv(Next(s, OtherAppointment(a)))
  {
    OtherAppointmentTables(s.drafts, s.appointments, a);
    OneMoreKeepsChecks(s, a);
  }

  lemma {:induction false} CountMcpChange(table: seq<Appointment>, k: nat, a: Appointment)
    requires k < |table| && table[k].source != MCP && a.source != MCP
    ensures CountMcp(table[k := a]) == CountMcp(table)
  {
    var n := |table| - 1;
    if k < n {
      assert table[k := a][..n] == table[..n][k := a];
      CountMcpChange(table[..n], k, a);
    } else {
      assert table[k := a][..n] == table[..n];
    }
  }

  lemma ChangeTables(drafts: seq<Draft>, table: seq<Appointment>, k: nat, a: Appointment)
    requires k < |table| && table[k].source != MCP && a.source != MCP && RangeValid(a)
    requires RangesValid(table) && Linked(drafts, table) && Sourced(drafts, table)
    ensures RangesValid(table[k := a]) && Linked(drafts, table[k := a]) && Sourced(drafts, table[k := a])
    ensures CountMcp(table[k := a]) == CountMcp(table)
  {
    CountMcpChange(table, k, a);
    forall d | 0 <= d < |drafts| ensures BookedRow(drafts[d], table[k := a]) {
      assert BookedRow(drafts[d], table);
    }
    forall m | 0 <= m < |table| && table[k := a][m].source == MCP
      ensures exists d :: 0 <= d < |drafts| && drafts[d].appointment == Some(m)
    {
      assert table[m].source == MCP;
    }
  }

  lemma ChangeKeepsChecks(s: State, k: nat, a: Appointment)
    requires Stamped(s.appointments, s.stamps, s.changes)
    requires k < |s.appointments| && s.appointments[k].source != MCP && a.source != MCP
    requires Cleared(s.confirmations, s.appointments, s.stamps, s.changes)
    requires BookingsAlone(s.confirmations, s.appointments, s.stamps, s.changes)
    requires CreationsSound(s.creations, s.drafts, s.appointments, s.stamps, s.changes)
    ensures var table, stamps, changes := s.appointments[k := a], s.stamps[k := s.changes], s.changes + 1;
            && Stamped(table, stamps, changes)
            && Cleared(s.confirmations, table, stamps, changes)
            && BookingsAlone(s.confirmations, table, stamps, changes)
            && CreationsSound(s.creations, s.drafts, table, stamps, changes)
  {
    var table, stamps, changes := s.appointments[k := a], s.stamps[k := s.changes], s.changes + 1;
    OthersKeepChecks(s.confirmations, s.appointments, s.stamps, s.changes, table, stamps, changes);
    CreationsKept(s, s.drafts, table, stamps, changes);
  }

  /** Another writer changes an appointment of another source as it likes. */
  lemma OtherChangeKeeps(s: State, k: nat, a: Appointment)
    requires Inv(s) && Enabled(s, OtherChange(k, a))
    ensures Inv(Next(s, OtherChange(k, a)))
  {
    ChangeTables(s.drafts, s.appointments, k, a);
    ChangeKeepsChecks(s, k, a);
  }

  lemma StatusTables(drafts: seq<Draft>, table: seq<Appointment>, k: nat, status: Status)
    requires k < |table| && RangesValid(table) && Linked(drafts, table) && Sourced(drafts, table)
    ensures var changed := table[k := table[k].(status := status)];
            && RangesValid(changed) && Linked(drafts, changed) && Sourced(drafts, changed)
            && CountMcp(changed) == CountMcp(table)
  {
    var changed := table[k := table[k].(status := status)];
    CountMcpStatus(table, k, status);
    forall d | 0 <= d < |drafts| ensures BookedRow(drafts[d], changed) {
      assert BookedRow(drafts[d], table);
    }
    SourcedKept(drafts, table, drafts, changed);
  }

  lemma OtherStatusKeeps(s: State, k: nat, status: Status)
    requires Inv(s) && Enabled(s, OtherStatus(k, status))
    ensures Inv(Next(s, OtherStatus(k, status)))
  {
    var changed := s.appointments[k := s.appointments[k].(status := status)];
    StatusTables(s.drafts, s.appointments, k, status);
    OthersKeepChecks(s.confirmations, s.appointments, s.stamps, s.changes, changed, s.stamps, s.changes);
    CreationsKept(s, s.drafts, changed, s.stamps, s.changes);
  }

  lemma AppendDraftTables(drafts: seq<Draft>, table: seq<Appointment>, d: Draft)
    requires DraftsOrdered(drafts) && KeysUnique(drafts) && Linked(drafts, table) && Injective(drafts)
             && Sourced(drafts, table)
    requires d.status == Waiting && d.appointment.None? && d.request.start <= d.ends
    requires !KeyUsed(drafts, d.connection, d.request.key)
    ensures var more := drafts + [d];
            && DraftsOrdered(more) && KeysUnique(more) && Linked(more, table) && Injective(more) && Sourced(more, table)
            && CountBooked(more) == CountBooked(drafts)
  {
    var more := drafts + [d];
    assert forall e :: 0 <= e < |drafts| ==> more[e] == drafts[e];
    assert more[|drafts|] == d;
    SourcedKept(drafts, table, more, table);
  }

  lemma AppendDraftTransactions(cs: seq<Confirmation>, drafts: seq<Draft>, d: Draft)
    requires RowsRead(cs, drafts) && Outcomes(cs, drafts) && OnceEach(cs, drafts) && d.status == Waiting
    ensures RowsRead(cs, drafts + [d]) && Outcomes(cs, drafts + [d]) && OnceEach(cs, drafts + [d])
  {
    var more := drafts + [d];
    assert forall e :: 0 <= e < |drafts| ==> more[e] == drafts[e];
    forall i | 0 <= i < |cs| ensures ReadRow(cs[i], more) && Outcome(cs[i], more) {
      assert ReadRow(cs[i], drafts) && Outcome(cs[i], drafts);
    }
  }

  lemma AppendDraftKeeps(s: State, d: Draft, creations: seq<Creation>)
    requires Inv(s)
    requires d.status == Waiting && d.appointment.None? && d.request.start <= d.ends
    requires !KeyUsed(s.drafts, d.connection, d.request.key)
    requires CreationsSound(creations, s.drafts + [d], s.appointments, s.stamps, s.changes) && MadeOnce(creations)
    ensures Inv(s.(drafts := s.drafts + [d], creations := creations))
  {
    AppendDraftTables(s.drafts, s.appointments, d);
    AppendDraftTransactions(s.confirmations, s.drafts, d);
  }

  lemma OtherDraftKeeps(s: State, d: Draft)
    requires Inv(s) && Enabled(s, OtherDraft(d))
    ensures Inv(Next(s, OtherDraft(d)))
  {
    CreationsKept(s, s.drafts + [d], s.appointments, s.stamps, s.changes);
    AppendDraftKeeps(s, d, s.creations);
  }

  function ClosedDrafts(drafts: seq<Draft>, d: nat): seq<Draft>
    requires d < |drafts|
  {
    drafts[d := drafts[d].(status := Closed)]
  }

  lemma {:induction false} CloseDraftTables(drafts: seq<Draft>, table: seq<Appointment>, d: nat)
    requires DraftsOrdered(drafts) && KeysUnique(drafts) && Linked(drafts, table) && Injective(drafts)
             && Sourced(drafts, table)
    requires d < |drafts| && drafts[d].status == Waiting
    ensures var closed := ClosedDrafts(drafts, d);
            && DraftsOrdered(closed) && KeysUnique(closed) && Linked(closed, table) && Injective(closed)
            && Sourced(closed, table)
            && CountBooked(closed) == CountBooked(drafts)
  {
    var closed := ClosedDrafts(drafts, d);
    CountBookedUpdate(drafts, d, closed[d]);
    assert BookedRow(drafts[d], table);
    SourcedKept(drafts, table, closed, table);
  }

  lemma CloseDraftTransactions(cs: seq<Confirmation>, drafts: seq<Draft>, d: nat)
    requires RowsRead(cs, drafts) && Outcomes(cs, drafts) && OnceEach(cs, drafts)
    requires d < |drafts| && drafts[d].status == Waiting && drafts[d].appointment.None? && DraftUnlocked(cs, d, -1)
    ensures var closed := ClosedDrafts(drafts, d); RowsRead(cs, closed) && Outcomes(cs, closed) && OnceEach(cs, closed)
  {
    var closed := ClosedDrafts(drafts, d);
    forall i | 0 <= i < |cs| ensures ReadRow(cs[i], closed) && Outcome(cs[i], closed) {
      assert ReadRow(cs[i], drafts) && Outcome(cs[i], drafts);
    }
    forall e | 0 <= e < |closed| && closed[e].status == Booked
      ensures exists j :: 0 <= j < |cs| && BookedBy(cs[j], e) && cs[j].began <= closed[e].expiresAt
    {
      assert closed[e] == drafts[e];
    }
  }

  lemma CloseDraftKeeps(s: State, d: nat)
    requires Inv(s) && Enabled(s, CloseDraft(d))
    ensures Inv(Next(s, CloseDraft(d)))
  {
    assert BookedRow(s.drafts[d], s.appointments);
    CloseDraftTables(s.drafts, s.appointments, d);
    CloseDraftTransactions(s.confirmations, s.drafts, d);
    CreationsKept(s, ClosedDrafts(s.drafts, d), s.appointments, s.stamps, s.changes);
  }

  // ---- Create calls ----

  lemma {:induction false} FoundDraft(table: seq<Draft>, actor: Actor, key: string)
    ensures FindDraft(table, actor, key).Some? ==>
              var d := FindDraft(table, actor, key).value;
              d < |table| && table[d].tenant == actor.tenant && table[d].connection == actor.connection
              && table[d].request.key == key
  {
    if table != [] {
      FoundDraft(table[..|table| - 1], actor, key);
    }
  }

  lemma CreationMoved(s: State, i: nat, p: CreateProgress)
    requires Inv(s) && i < |s.creations| && !CreateFinished(s.creations[i].progress)
    requires CreationSound(s.creations[i].(progress := p), s.drafts, s.appointments, s.stamps, s.changes)
    requires p.Created? ==> p.reused
    ensures Inv(s.(creations := s.creations[i := s.creations[i].(progress := p)]))
  {
  }

  lemma CheckFacts(st: Store, req: CheckRequest, now: int, check: Check)
    requires CheckAnswer(st, req, now, Ok(check)) && BuffersValid(st.catalog)
    ensures check.durationMinutes > 0
    ensures 0 < check.durationMinutes * MINUTE <= NeedOf(check.service, req.extraMinutes)
  {
    var service := st.catalog.services[req.service];
    assert check.service == service && check.durationMinutes == service.durationMinutes + req.extraMinutes;
  }

  /** A passed slot check leaves the interval of the booking free of the appointments there are now. */
  lemma CheckedWasFree(st: Store, stamps: seq<nat>, seen: nat, req: CheckRequest, now: int, check: Check)
    requires CheckAnswer(st, req, now, Ok(check)) && BuffersValid(st.catalog)
    requires check.available && check.service.requiresSpecialist && req.specialist != ""
    ensures WasFree(st.appointments, stamps, seen, req.tenant, Some(req.specialist), req.start,
                    req.start + check.durationMinutes * MINUTE)
  {
    CheckFacts(st, req, now, check);
    AvailableIsFree(st, req, now, check);
  }

  lemma ValidatedSound(s: State, c: Creation, check: Result<Check, SlotError>, now: int)
    requires BuffersValid(s.catalog) && ChecksNow(s, c, check, now)
    ensures CreationSound(c.(progress := Validated(s, c, check)), s.drafts, s.appointments, s.stamps, s.changes)
  {
    var p := Validated(s, c, check);
    if p.Checked? {
      var st, req := Store(s.catalog, s.appointments), SlotRequest(c, VariantMinutes(s, c).value);
      CheckFacts(st, req, now, check.value);
      if p.guarded && Text(c.request.specialist) != "" {
        CheckedWasFree(st, s.stamps, s.changes, req, now, check.value);
      }
    }
  }

  /** A create call inserts its draft. */
  lemma InsertDraftKeeps(s: State, i: nat, check: Result<Check, SlotError>, now: int)
    requires Inv(s) && i < |s.creations| && s.creations[i].progress.Checked?
    requires !KeyUsed(s.drafts, s.creations[i].actor.connection, s.creations[i].request.key)
    ensures Inv(CreateAdvance(s, i, check, now))
  {
    var c, t := s.creations[i], CreateAdvance(s, i, check, now);
    var d := DraftOf(s, c, c.progress.minutes, now);
    assert CreationSound(c, s.drafts, s.appointments, s.stamps, s.changes);
    assert forall e :: 0 <= e < |s.drafts| ==> t.drafts[e] == s.drafts[e];
    forall j | 0 <= j < |t.creations|
      ensures CreationSound(t.creations[j], t.drafts, t.appointments, t.stamps, t.changes)
      ensures j != i && Makes(t.creations[j]) ==> t.creations[j].progress.draft < |s.drafts|
    {
      assert CreationSound(s.creations[j], s.drafts, s.appointments, s.stamps, s.changes);
    }
    AppendDraftKeeps(s, d, t.creations);
  }

  /** A statement of a create call that inserts nothing leaves the call sound. */
  lemma CreateAdvancedSound(s: State, c: Creation, check: Result<Check, SlotError>, now: int)
    requires BuffersValid(s.catalog) && !CreateFinished(c.progress)
    requires c.progress.Missing? ==> ChecksNow(s, c, check, now)
    requires c.progress.Checked? ==> KeyUsed(s.drafts, c.actor.connection, c.request.key)
    ensures var p := CreateAdvanced(s, c, check);
            && CreationSound(c.(progress := p), s.drafts, s.appointments, s.stamps, s.changes)
            && (p.Created? ==> p.reused)
  {
    if c.progress.Missing? {
      ValidatedSound(s, c, check, now);
    } else {
      FoundDraft(s.drafts, c.actor, c.request.key);
    }
  }

  lemma StepCreateKeeps(s: State, i: nat, check: Result<Check, SlotError>, now: int)
    requires Inv(s) && Enabled(s, StepCreate(i, check, now))
    ensures Inv(Next(s, StepCreate(i, check, now)))
  {
    var c := s.creations[i];
    if c.progress.Checked? && !KeyUsed(s.drafts, c.actor.connection, c.request.key) {
      InsertDraftKeeps(s, i, check, now);
    } else {
      CreateAdvancedSound(s, c, check, now);
      CreationMoved(s, i, CreateAdvanced(s, c, check));
    }
  }

  lemma BeginCreateKeeps(s: State, actor: Actor, request: Request)
    requires Inv(s)
    ensures Inv(s.(creations := s.creations + [Creation(actor, request, Asked)]))
  {
    var more := s.creations + [Creation(actor, request, Asked)];
    assert forall i :: 0 <= i < |s.creations| ==> more[i] == s.creations[i];
    assert !Makes(more[|s.creations|]);
    assert CreationSound(more[|s.creations|], s.drafts, s.appointments, s.stamps, s.changes);
  }

  // ---- Every step, every run ----

  predicate ByOthers(e: Event) {
    || e.Tick? || e.Reconfigure? || e.OtherAppointment? || e.OtherStatus? || e.OtherChange? || e.OtherDraft?
    || e.CloseDraft?
  }

  lemma OthersKeep(s: State, e: Event)
    requires Inv(s) && Enabled(s, e) && ByOthers(e)
    ensures Inv(Next(s, e))
  {
    match e
    case OtherAppointment(a) => OtherAppointmentKeeps(s, a);
    case OtherStatus(k, status) => OtherStatusKeeps(s, k, status);
    case OtherChange(k, a) => OtherChangeKeeps(s, k, a);
    case OtherDraft(d) => OtherDraftKeeps(s, d);
    case CloseDraft(d) => CloseDraftKeeps(s, d);
    case _ =>
  }

  lemma ConfirmationKeeps(s: State, e: Event)
    requires Inv(s) && Enabled(s, e) && (e.BeginConfirm? || e.StepConfirm? || e.RollBack?)
    ensures Inv(Next(s, e))
  {
    match e
    case BeginConfirm(draft, user) => BeginConfirmKeeps(s, draft, user);
    case StepConfirm(i) =>
      if s.confirmations[i].progress.Insertable? { InsertKeeps(s, i); } else { AdvanceKeeps(s, i); }
    case RollBack(i) => RollBackKeeps(s, i);
    case _ =>
  }

  lemma CreationKeeps(s: State, e: Event)
    requires Inv(s) && Enabled(s, e) && (e.BeginCreate? || e.StepCreate? || e.AbortCreate?)
    ensures Inv(Next(s, e))
  {
    match e
    case BeginCreate(actor, request) => BeginCreateKeeps(s, actor, request);
    case StepCreate(i, check, now) => StepCreateKeeps(s, i, check, now);
    case AbortCreate(i) => CreationMoved(s, i, Refused(StoreFailed));
    case _ =>
  }

  lemma StepKeeps(s: State, e: Event)
    requires Inv(s) && Enabled(s, e)
    ensures Inv(Next(s, e))
  {
    if ByOthers(e) {
      OthersKeep(s, e);
    } else if e.BeginConfirm? || e.StepConfirm? || e.RollBack? {
      ConfirmationKeeps(s, e);
    } else {
      CreationKeeps(s, e);
    }
  }

  lemma {:induction false} NothingCounted(table: seq<Appointment>, drafts: seq<Draft>)
    requires forall k :: 0 <= k < |table| ==> table[k].source != MCP
    requires forall d :: 0 <= d < |drafts| ==> drafts[d].status != Booked
    ensures CountMcp(table) == 0 && CountBooked(drafts) == 0
    decreases |table| + |drafts|
  {
    if table != [] {
      NothingCounted(table[..|table| - 1], drafts);
    } else if drafts != [] {
      NothingCounted(table, drafts[..|drafts| - 1]);
    }
  }

  lemma InitialInv(s: State)
    requires Initial(s)
    ensures Inv(s)
  {
    NothingCounted(s.appointments, s.drafts);
  }

  /** The invariant holds in every state of every run. */
  lemma {:induction false} RunKeeps(s: State, es: seq<Event>, t: State)
    requires Inv(s) && Leads(s, es, t)
    ensures Inv(t)
    decreases |es|
  {
    if es != [] {
      StepKeeps(s, es[0]);
      RunKeeps(Next(s, es[0]), es[1..], t);
    }
  }
}
