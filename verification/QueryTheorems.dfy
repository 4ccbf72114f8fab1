/**
 What the order of the schedule query is for (internal/repository/postgres/business.go:291-308): specialists come
 out distinct, so no answer names one twice, and asking for one specialist is filtering the full answer.
 */
module QueryTheorems {
  import opened Base
  import opened Schedule
  import opened SlotEngine
  import opened SlotTheorems
  import opened Tables
  import opened Grouping
  import opened Availability
  import opened AvailabilityTheorems

  // ---- Distinct specialists ----

  /** The order of ids tells different ids apart. The order of names, the collation of the database, need not. */
  ghost predicate Antisymmetric(idLeq: (string, string) -> bool) {
    forall a, b :: idLeq(a, b) && idLeq(b, a) ==> a == b
  }

  function Queried(cat: Catalog, q: Query): seq<Row> { ScheduleQuery(cat, q, cat.schedules) }

  /** The rows of a specialist all carry the name of its profile, so ordering by name and id keeps them together. */
  lemma QueriedIsContiguous(cat: Catalog, q: Query, nameLeq: (string, string) -> bool, idLeq: (string, string) -> bool)
    requires InQueryOrder(Queried(cat, q), nameLeq, idLeq) && Antisymmetric(idLeq)
    ensures Contiguous(Queried(cat, q)) && DistinctIds(Grouped(Queried(cat, q)))
  {
    QueryNames(cat, q, cat.schedules);
    QueryOrderIsContiguous(Queried(cat, q), nameLeq, idLeq);
    DistinctIffContiguous(Queried(cat, q));
  }

  // ---- Disjoint shifts ----

  /** No two rows of one specialist hold overlapping shifts. */
  ghost predicate ShiftsApart(rows: seq<Row>) {
    forall i, j :: 0 <= i < j < |rows| && rows[i].id == rows[j].id ==> Apart(rows[i].shift, rows[j].shift)
  }

  ghost predicate ShiftOf(rows: seq<Row>, id: string, shift: Shift) {
    exists i :: 0 <= i < |rows| && rows[i].id == id && rows[i].shift == shift
  }

  lemma ShiftOfOneMore(rows: seq<Row>, row: Row, id: string, shift: Shift)
    requires ShiftOf(rows, id, shift) || (row.id == id && row.shift == shift)
    ensures ShiftOf(rows + [row], id, shift)
  {
    var more := rows + [row];
    assert more[|rows|] == row;
    if i :| 0 <= i < |rows| && rows[i].id == id && rows[i].shift == shift {
      assert more[i] == rows[i];
    }
  }

  /** The shifts of the specialists come from rows of their ids. */
  ghost predicate FromRows(sps: seq<Specialist>, rows: seq<Row>) {
    forall sp, shift :: sp in sps && shift in sp.shifts ==> ShiftOf(rows, sp.id, shift)
  }

  ghost predicate AllApart(sps: seq<Specialist>) { forall sp :: sp in sps ==> DisjointShifts(sp.shifts) }

  lemma JoinedFromRows(done: seq<Specialist>, rows: seq<Row>, row: Row)
    requires FromRows(done, rows)
    ensures FromRows(Joined(done, row), rows + [row])
  {
    forall sp, shift | sp in Joined(done, row) && shift in sp.shifts ensures ShiftOf(rows + [row], sp.id, shift) {
      ShiftOfOneMore(rows, row, sp.id, shift);
    }
  }

  lemma JoinedApart(done: seq<Specialist>, rows: seq<Row>, row: Row)
    requires FromRows(done, rows) && AllApart(done) && ShiftsApart(rows + [row])
    ensures AllApart(Joined(done, row))
  {
    var n, more := |done|, rows + [row];
    assert more[|rows|] == row;
    if n > 0 && done[n - 1].id == row.id {
      var last := done[n - 1];
      assert last in done;
      forall i | 0 <= i < |last.shifts| ensures Apart(last.shifts[i], row.shift) {
        assert ShiftOf(rows, last.id, last.shifts[i]);
        var j :| 0 <= j < |rows| && rows[j].id == last.id && rows[j].shift == last.shifts[i];
        assert more[j] == rows[j];
      }
    }
  }

  lemma {:induction false} GroupedApart(rows: seq<Row>)
    requires ShiftsApart(rows)
    ensures FromRows(Grouped(rows), rows) && AllApart(Grouped(rows))
  {
    if rows != [] {
      var before, row := rows[..|rows| - 1], rows[|rows| - 1];
      assert rows == before + [row];
      GroupedApart(before);
      JoinedFromRows(Grouped(before), before, row);
      JoinedApart(Grouped(before), before, row);
    }
  }

  // ---- No answer names a specialist twice ----

  /** No appointment ends before it starts. */
  predicate EndsInOrder(table: seq<Appointment>) { forall a :: a in table ==> a.start <= EndOf(a) }

  lemma {:induction false} FetchedInOrder(table: seq<Appointment>, tenant: string, ids: set<string>, dayStart: int)
    requires EndsInOrder(table)
    ensures OrderedBusy(BusyQuery(table, tenant, ids, dayStart))
  {
    if table != [] {
      FetchedInOrder(table[..|table| - 1], tenant, ids, dayStart);
    }
  }

  /** What an answer needs of the rows behind it: the order of the query, and shifts and appointments in order. */
  ghost predicate InOrderFor(st: Store, q: Query, nameLeq: (string, string) -> bool, idLeq: (string, string) -> bool) {
    && InQueryOrder(Queried(st.catalog, q), nameLeq, idLeq) && Antisymmetric(idLeq)
    && ShiftsApart(Queried(st.catalog, q)) && EndsInOrder(st.appointments)
  }

  /** No list of slots names a specialist twice for one start. */
  lemma ListNeverRepeats(st: Store, req: ListRequest, now: int, slots: seq<Slot>, k: nat,
                         nameLeq: (string, string) -> bool, idLeq: (string, string) -> bool)
    requires ListAnswer(st, req, now, Ok(slots)) && k < |slots| && NeedOf(st.catalog.services[req.service], 0) > 0
    requires InOrderFor(st, ListQuery(st.catalog, req), nameLeq, idLeq)
    ensures forall i, j :: 0 <= i < j < |slots[k].specialists| ==>
                          slots[k].specialists[i].id != slots[k].specialists[j].id
  {
    var q, place := ListQuery(st.catalog, req), PlaceOf(st.catalog, req.service, req.branch);
    var input := DayInput(st, q, place, 0, now);
    DayNeed(st, q, place, 0, now);
    QueriedIsContiguous(st.catalog, q, nameLeq, idLeq);
    GroupedApart(Queried(st.catalog, q));
    FetchedInOrder(st.appointments, q.tenant, Ids(input.specialists), q.dayStart);
    NoRepeats(input, slots, k);
  }

  // ---- Asking for one specialist ----

  /** In the order of the query, filtering the list by a specialist is looking for that specialist in the full list. */
  lemma OrderedFilterAgrees(st: Store, req: ListRequest, id: string, now: int, all: seq<Slot>,
                            one: Result<seq<Slot>, SlotError>, at: int, nameLeq: (string, string) -> bool,
                            idLeq: (string, string) -> bool)
    requires req.specialist == "" && id != ""
    requires ListAnswer(st, req, now, Ok(all)) && ListAnswer(st, req.(specialist := id), now, one)
    requires st.catalog.services[req.service].requiresSpecialist
    requires InQueryOrder(Queried(st.catalog, ListQuery(st.catalog, req)), nameLeq, idLeq) && Antisymmetric(idLeq)
    ensures OffersSpecialist(all, at, id) <==> one.Ok? && StartsAt(one.value, at)
  {
    QueriedIsContiguous(st.catalog, ListQuery(st.catalog, req), nameLeq, idLeq);
    FilterAgrees(st, req, id, now, all, one, at);
  }
}
