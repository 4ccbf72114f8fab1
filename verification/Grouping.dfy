/**
 Grouping the rows of the schedule query into specialists by looking only at the last specialist built so far
 (internal/repository/postgres/business.go:383-412).
 */
module Grouping {
  import opened Schedule
  import opened SlotTheorems

  datatype Row = Row(id: string, name: string, shift: Shift)

  /** One more row: another shift of the last specialist, or a new specialist. */
  function Joined(done: seq<Specialist>, row: Row): seq<Specialist> {
    var n := |done|;
    if n > 0 && done[n - 1].id == row.id
    then done[..n - 1] + [done[n - 1].(shifts := done[n - 1].shifts + [row.shift])]
    else done + [Specialist(row.id, row.name, [row.shift])]
  }

  function Grouped(rows: seq<Row>): seq<Specialist> {
    if rows == [] then [] else Joined(Grouped(rows[..|rows| - 1]), rows[|rows| - 1])
  }

  lemma GroupedOneMore(rows: seq<Row>, row: Row)
    ensures Grouped(rows + [row]) == Joined(Grouped(rows), row)
  {
    assert (rows + [row])[..|rows|] == rows;
  }

  method Schedules(rows: seq<Row>) returns (specialists: seq<Specialist>)
    ensures specialists == Grouped(rows)
  {
    specialists := [];
    for i := 0 to |rows|
      invariant specialists == Grouped(rows[..i])
    {
      assert rows[..i + 1][..i] == rows[..i];
      var row, n := rows[i], |specialists|;
      if n > 0 && specialists[n - 1].id == row.id {
        var last := specialists[n - 1];
        specialists := specialists[n - 1 := last.(shifts := last.shifts + [row.shift])];
        continue;
      }
      specialists := specialists + [Specialist(row.id, row.name, [row.shift])];
    }
    assert rows[..|rows|] == rows;
  }

  /** The rows of the same id carry the same name, as they do when both come from one profile. */
  ghost predicate OneNamePerId(rows: seq<Row>) {
    forall i, j :: 0 <= i < |rows| && 0 <= j < |rows| && rows[i].id == rows[j].id ==> rows[i].name == rows[j].name
  }

  /** Rows of one id are not interrupted by rows of another. */
  ghost predicate Contiguous(rows: seq<Row>) {
    forall i, j, k :: 0 <= i < j < k < |rows| && rows[i].id == rows[k].id ==> rows[j].id == rows[i].id
  }

  /** The rows in the order of the query: by name in whatever collation the database has, then by id. */
  ghost predicate InQueryOrder(rows: seq<Row>, nameLeq: (string, string) -> bool, idLeq: (string, string) -> bool) {
    forall i, j :: 0 <= i < j < |rows| ==>
                     && nameLeq(rows[i].name, rows[j].name)
                     && (nameLeq(rows[j].name, rows[i].name) ==> idLeq(rows[i].id, rows[j].id))
  }

  /** Nothing is asked of the collation: it may ignore case or accents and take different names for equal. */
  lemma QueryOrderIsContiguous(rows: seq<Row>, nameLeq: (string, string) -> bool, idLeq: (string, string) -> bool)
    requires OneNamePerId(rows) && InQueryOrder(rows, nameLeq, idLeq)
    requires forall a, b :: idLeq(a, b) && idLeq(b, a) ==> a == b
    ensures Contiguous(rows)
  {
    forall i, j, k | 0 <= i < j < k < |rows| && rows[i].id == rows[k].id ensures rows[j].id == rows[i].id {
      assert rows[i].name == rows[k].name;
      assert idLeq(rows[i].id, rows[j].id) && idLeq(rows[j].id, rows[k].id);
    }
  }

  function RowsOf(sp: Specialist): seq<Row> {
    seq(|sp.shifts|, i requires 0 <= i < |sp.shifts| => Row(sp.id, sp.name, sp.shifts[i]))
  }

  function Flattened(sps: seq<Specialist>): seq<Row> {
    if sps == [] then [] else Flattened(sps[..|sps| - 1]) + RowsOf(sps[|sps| - 1])
  }

  lemma {:induction false} LastGroup(rows: seq<Row>)
    requires rows != []
    ensures Grouped(rows) != [] && Grouped(rows)[|Grouped(rows)| - 1].id == rows[|rows| - 1].id
    ensures OneNamePerId(rows) ==> Grouped(rows)[|Grouped(rows)| - 1].name == rows[|rows| - 1].name
  {
    var n := |rows| - 1;
    if n > 0 {
      LastGroup(rows[..n]);
    }
  }

  /** A row that joins the specialists comes last among their rows. */
  lemma {:induction false} FlattenedJoined(done: seq<Specialist>, row: Row)
    requires done != [] && done[|done| - 1].id == row.id ==> done[|done| - 1].name == row.name
    ensures Flattened(Joined(done, row)) == Flattened(done) + [row]
  {
    if done != [] && done[|done| - 1].id == row.id {
      var m := |done| - 1;
      assert done[..m] + [done[m]] == done;
    } else {
      assert RowsOf(Specialist(row.id, row.name, [row.shift])) == [row];
    }
  }

  /** The last specialist has the name of the last row. */
  lemma JoinsByName(before: seq<Row>, row: Row)
    requires OneNamePerId(before + [row])
    ensures OneNamePerId(before)
    ensures var done := Grouped(before);
            done != [] && done[|done| - 1].id == row.id ==> done[|done| - 1].name == row.name
  {
    var n, rows := |before|, before + [row];
    assert rows[n] == row && forall i :: 0 <= i < n ==> rows[i] == before[i];
    if n > 0 {
      LastGroup(before);
    }
  }

  /** Grouping loses, adds and reorders nothing. */
  lemma {:induction false} GroupingIsLossless(rows: seq<Row>)
    requires OneNamePerId(rows)
    ensures Flattened(Grouped(rows)) == rows
  {
    if rows != [] {
      var before, row := rows[..|rows| - 1], rows[|rows| - 1];
      assert rows == before + [row];
      JoinsByName(before, row);
      GroupingIsLossless(before);
      FlattenedJoined(Grouped(before), row);
    }
  }

  ghost predicate HasId(sps: seq<Specialist>, id: string) {
    exists k :: 0 <= k < |sps| && sps[k].id == id
  }

  ghost predicate HasRow(rows: seq<Row>, id: string) {
    exists i :: 0 <= i < |rows| && rows[i].id == id
  }

  lemma JoinedIds(done: seq<Specialist>, row: Row, id: string)
    ensures HasId(Joined(done, row), id) <==> HasId(done, id) || row.id == id
  {
    var n, now := |done|, Joined(done, row);
    assert forall k :: 0 <= k < n ==> now[k].id == done[k].id;
    assert now[|now| - 1].id == row.id;
    assert |now| == n ==> done[n - 1].id == row.id;
  }

  lemma HasRowOneMore(rows: seq<Row>, row: Row, id: string)
    ensures HasRow(rows + [row], id) <==> HasRow(rows, id) || row.id == id
  {
    var all := rows + [row];
    assert forall i :: 0 <= i < |rows| ==> all[i] == rows[i];
    assert all[|rows|] == row;
  }

  lemma {:induction false} GroupedIds(rows: seq<Row>, id: string)
    ensures HasId(Grouped(rows), id) <==> HasRow(rows, id)
  {
    if rows != [] {
      var n := |rows| - 1;
      GroupedIds(rows[..n], id);
      JoinedIds(Grouped(rows[..n]), rows[n], id);
      HasRowOneMore(rows[..n], rows[n], id);
      assert rows == rows[..n] + [rows[n]];
    }
  }

  lemma SameIdsSameDistinct(a: seq<Specialist>, b: seq<Specialist>)
    requires |a| == |b| && forall k :: 0 <= k < |a| ==> a[k].id == b[k].id
    ensures DistinctIds(a) <==> DistinctIds(b)
  {
  }

  lemma JoinRunDistinct(done: seq<Specialist>, row: Row)
    requires done != [] && done[|done| - 1].id == row.id
    ensures DistinctIds(Joined(done, row)) <==> DistinctIds(done)
  {
    SameIdsSameDistinct(done, Joined(done, row));
  }

  lemma DistinctAppend(done: seq<Specialist>, sp: Specialist)
    ensures DistinctIds(done + [sp]) <==> DistinctIds(done) && !HasId(done, sp.id)
  {
    var all := done + [sp];
    assert forall k :: 0 <= k < |done| ==> all[k] == done[k];
    assert all[|done|] == sp;
    assert DistinctIds(all) ==> DistinctIds(done) by {
      forall i, j | DistinctIds(all) && 0 <= i < j < |done| ensures done[i].id != done[j].id {
        assert all[i].id != all[j].id;
      }
    }
  }

  lemma ExtendRun(rows: seq<Row>)
    requires |rows| > 1 && rows[|rows| - 1].id == rows[|rows| - 2].id
    ensures Contiguous(rows[..|rows| - 1]) <==> Contiguous(rows)
  {
    var n := |rows| - 1;
    assert Contiguous(rows) ==> Contiguous(rows[..n]);
    if Contiguous(rows[..n]) {
      forall i, j, k | 0 <= i < j < k < |rows| && rows[i].id == rows[k].id ensures rows[j].id == rows[i].id {
        assert rows[..n][i] == rows[i] && rows[..n][j] == rows[j] && rows[..n][n - 1] == rows[n - 1];
        if k < n {
          assert rows[..n][k] == rows[k];
        }
      }
    }
  }

  lemma StartRun(rows: seq<Row>)
    requires |rows| > 1 && rows[|rows| - 1].id != rows[|rows| - 2].id
    ensures Contiguous(rows) <==> Contiguous(rows[..|rows| - 1]) && !HasRow(rows[..|rows| - 1], rows[|rows| - 1].id)
  {
    var n := |rows| - 1;
    assert forall i :: 0 <= i < n ==> rows[..n][i] == rows[i];
    if Contiguous(rows) {
      forall i | 0 <= i < n ensures rows[i].id != rows[n].id {
        assert rows[n - 1].id != rows[n].id;
      }
    }
    if Contiguous(rows[..n]) && !HasRow(rows[..n], rows[n].id) {
      assert forall i :: 0 <= i < n ==> rows[..n][i].id != rows[n].id;
      forall i, j, k | 0 <= i < j < k < |rows| && rows[i].id == rows[k].id ensures rows[j].id == rows[i].id {
        assert k < n && rows[..n][i] == rows[i] && rows[..n][j] == rows[j] && rows[..n][k] == rows[k];
      }
    }
  }

  /** The specialists are distinct exactly when the rows of each id come together. */
  lemma {:induction false} DistinctIffContiguous(rows: seq<Row>)
    ensures DistinctIds(Grouped(rows)) <==> Contiguous(rows)
  {
    if |rows| > 1 {
      var n, row := |rows| - 1, rows[|rows| - 1];
      var done := Grouped(rows[..n]);
      DistinctIffContiguous(rows[..n]);
      LastGroup(rows[..n]);
      if rows[n - 1].id == row.id {
        JoinRunDistinct(done, row);
        ExtendRun(rows);
      } else {
        GroupedIds(rows[..n], row.id);
        DistinctAppend(done, Specialist(row.id, row.name, [row.shift]));
        StartRun(rows);
      }
    }
  }

  // ---- Asking for one specialist ----

  function OnlyRows(rows: seq<Row>, id: string): seq<Row> {
    if rows == [] then []
    else
      var rest, row := OnlyRows(rows[..|rows| - 1], id), rows[|rows| - 1];
      if row.id == id then rest + [row] else rest
  }

  function OnlySpecialists(sps: seq<Specialist>, id: string): seq<Specialist> {
    if sps == [] then []
    else
      var rest, sp := OnlySpecialists(sps[..|sps| - 1], id), sps[|sps| - 1];
      if sp.id == id then rest + [sp] else rest
  }

  lemma {:induction false} NoRowsOf(rows: seq<Row>, id: string)
    requires !HasRow(rows, id)
    ensures OnlyRows(rows, id) == []
  {
    if rows != [] {
      var n := |rows| - 1;
      assert rows == rows[..n] + [rows[n]];
      HasRowOneMore(rows[..n], rows[n], id);
      NoRowsOf(rows[..n], id);
    }
  }

  lemma {:induction false} OnlySpecialistsMembers(sps: seq<Specialist>, id: string)
    ensures forall sp :: sp in OnlySpecialists(sps, id) <==> sp in sps && sp.id == id
  {
    if sps != [] {
      OnlySpecialistsMembers(sps[..|sps| - 1], id);
      assert sps == sps[..|sps| - 1] + [sps[|sps| - 1]];
    }
  }

  lemma OnlySpecialistsOneMore(sps: seq<Specialist>, sp: Specialist, id: string)
    ensures OnlySpecialists(sps + [sp], id)
            == if sp.id == id then OnlySpecialists(sps, id) + [sp] else OnlySpecialists(sps, id)
  {
    assert (sps + [sp])[..|sps|] == sps;
  }

  /** Adding a row of another specialist does not show after filtering. */
  lemma FilterJoinedOther(done: seq<Specialist>, row: Row, id: string)
    requires row.id != id
    ensures OnlySpecialists(Joined(done, row), id) == OnlySpecialists(done, id)
  {
    if done != [] && done[|done| - 1].id == row.id {
      var earlier, last := done[..|done| - 1], done[|done| - 1];
      OnlySpecialistsOneMore(earlier, last, id);
      OnlySpecialistsOneMore(earlier, last.(shifts := last.shifts + [row.shift]), id);
      assert earlier + [last] == done;
    } else {
      OnlySpecialistsOneMore(done, Specialist(row.id, row.name, [row.shift]), id);
    }
  }

  /** Adding a row to a run of its own specialist commutes with filtering. */
  lemma FilterJoinedRun(earlier: seq<Specialist>, last: Specialist, row: Row)
    requires last.id == row.id
    ensures OnlySpecialists(Joined(earlier + [last], row), row.id)
            == Joined(OnlySpecialists(earlier + [last], row.id), row)
  {
    var grown := last.(shifts := last.shifts + [row.shift]);
    OnlySpecialistsOneMore(earlier, last, row.id);
    OnlySpecialistsOneMore(earlier, grown, row.id);
  }

  lemma ContiguousPrefix(rows: seq<Row>)
    requires rows != [] && Contiguous(rows)
    ensures Contiguous(rows[..|rows| - 1])
  {
  }

  lemma FirstOfRun(rows: seq<Row>)
    requires rows != [] && Contiguous(rows)
    requires |rows| == 1 || rows[|rows| - 2].id != rows[|rows| - 1].id
    ensures !HasRow(rows[..|rows| - 1], rows[|rows| - 1].id)
  {
    if |rows| > 1 {
      StartRun(rows);
    }
  }

  /** Filtering the rows of contiguous specialists and grouping them is the same as grouping and filtering. */
  lemma {:induction false} GroupThenFilter(rows: seq<Row>, id: string)
    requires Contiguous(rows)
    ensures Grouped(OnlyRows(rows, id)) == OnlySpecialists(Grouped(rows), id)
  {
    if rows != [] {
      var n, row := |rows| - 1, rows[|rows| - 1];
      ContiguousPrefix(rows);
      GroupThenFilter(rows[..n], id);
      var done, kept := Grouped(rows[..n]), OnlyRows(rows[..n], id);
      if row.id != id {
        FilterJoinedOther(done, row, id);
      } else {
        GroupedOneMore(kept, row);
        if n > 0 && rows[n - 1].id == id {
          LastGroup(rows[..n]);
          FilterJoinedRun(done[..|done| - 1], done[|done| - 1], row);
          assert done[..|done| - 1] + [done[|done| - 1]] == done;
        } else {
          FirstOfRun(rows);
          NoRowsOf(rows[..n], id);
          OnlySpecialistsOneMore(done, Specialist(row.id, row.name, [row.shift]), id);
          if n > 0 {
            LastGroup(rows[..n]);
          }
        }
      }
    }
  }
}
