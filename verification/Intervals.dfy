/**
 Half-open ranges of offsets from local midnight, and the two list operations of the slot engine.

 A booking of length need placed at t needs the room [t, t + need). Everything the engine does with
 lists of windows is described by how many windows of a list have that room.
 */
module Intervals {

  datatype Interval = Interval(start: int, end: int)

  /** The window has room for [t, t + need). */
  predicate Fits(w: Interval, t: int, need: int) {
    w.start <= t && t + need <= w.end
  }

  /**
   The cut leaves [t, t + need) alone. For a non-empty cut and a positive need this is disjointness. An
   empty cut [c, c) still splits a window, so it stops exactly the bookings with c strictly inside.
   */
  predicate Misses(cut: Interval, t: int, need: int) {
    cut.end <= t || t + need <= cut.start
  }

  /** Number of windows with room for [t, t + need). */
  function FitCount(ws: seq<Interval>, t: int, need: int): nat {
    if ws == [] then 0
    else FitCount(ws[..|ws| - 1], t, need) + if Fits(ws[|ws| - 1], t, need) then 1 else 0
  }

  lemma {:induction false} FitCountPositive(ws: seq<Interval>, t: int, need: int)
    ensures FitCount(ws, t, need) > 0 <==> exists i :: 0 <= i < |ws| && Fits(ws[i], t, need)
  {
    if ws != [] {
      var n := |ws| - 1;
      FitCountPositive(ws[..n], t, need);
      if exists i :: 0 <= i < n && Fits(ws[..n][i], t, need) {
        var i :| 0 <= i < n && Fits(ws[..n][i], t, need);
        assert Fits(ws[i], t, need);
      }
      if exists i :: 0 <= i < |ws| && Fits(ws[i], t, need) {
        var i :| 0 <= i < |ws| && Fits(ws[i], t, need);
        assert i < n ==> Fits(ws[..n][i], t, need);
      }
    }
  }

  // ---- Subtracting a cut ----

  /** The list out, followed by what the cut leaves of one window: nothing, one piece or two. */
  function WithRest(out: seq<Interval>, w: Interval, cut: Interval): seq<Interval> {
    if cut.end <= w.start || cut.start >= w.end then out + [w]
    else
      var left := if cut.start > w.start then out + [Interval(w.start, cut.start)] else out;
      if cut.end < w.end then left + [Interval(cut.end, w.end)] else left
  }

  function Subtracted(ws: seq<Interval>, cut: Interval): seq<Interval> {
    if ws == [] then [] else WithRest(Subtracted(ws[..|ws| - 1], cut), ws[|ws| - 1], cut)
  }

  method Subtract(windows: seq<Interval>, cut: Interval) returns (out: seq<Interval>)
    ensures out == Subtracted(windows, cut)
  {
    out := [];
    for i := 0 to |windows|
      invariant out == Subtracted(windows[..i], cut)
    {
      assert windows[..i + 1][..i] == windows[..i];
      var w := windows[i];
      if cut.end <= w.start || cut.start >= w.end {
        out := out + [w];
        continue;
      }
      if cut.start > w.start {
        out := out + [Interval(w.start, cut.start)];
      }
      if cut.end < w.end {
        out := out + [Interval(cut.end, w.end)];
      }
    }
    assert windows[..|windows|] == windows;
  }

  lemma FitCountOneMore(ws: seq<Interval>, w: Interval, t: int, need: int)
    ensures FitCount(ws + [w], t, need) == FitCount(ws, t, need) + if Fits(w, t, need) then 1 else 0
  {
    assert (ws + [w])[..|ws|] == ws;
  }

  lemma FitCountSmall(w: Interval, t: int, need: int)
    ensures FitCount([w], t, need) == if Fits(w, t, need) then 1 else 0
  {
    FitCountOneMore([], w, t, need);
    assert [] + [w] == [w];
  }

  lemma WithRestCount(out: seq<Interval>, w: Interval, cut: Interval, t: int, need: int)
    requires need > 0
    ensures FitCount(WithRest(out, w, cut), t, need) > 0
            <==> FitCount(out, t, need) > 0 || (Fits(w, t, need) && Misses(cut, t, need))
    ensures cut.start <= cut.end ==>
              FitCount(WithRest(out, w, cut), t, need)
              == FitCount(out, t, need) + if Fits(w, t, need) && Misses(cut, t, need) then 1 else 0
  {
    var left, right := Interval(w.start, cut.start), Interval(cut.end, w.end);
    FitCountOneMore(out, w, t, need);
    FitCountOneMore(out, left, t, need);
    FitCountOneMore(out, right, t, need);
    FitCountOneMore(out + [left], right, t, need);
  }

  /** Subtracting is exact: the room that survives is the room that was there and that the cut misses. */
  lemma {:induction false} SubtractedCount(ws: seq<Interval>, cut: Interval, t: int, need: int)
    requires need > 0
    ensures FitCount(Subtracted(ws, cut), t, need) > 0 <==> FitCount(ws, t, need) > 0 && Misses(cut, t, need)
    ensures cut.start <= cut.end ==>
              FitCount(Subtracted(ws, cut), t, need) == if Misses(cut, t, need) then FitCount(ws, t, need) else 0
  {
    if ws != [] {
      var n := |ws| - 1;
      SubtractedCount(ws[..n], cut, t, need);
      WithRestCount(Subtracted(ws[..n], cut), ws[n], cut, t, need);
    }
  }

  /** Every window of the list lies in [lo, hi]. */
  ghost predicate Within(ws: seq<Interval>, lo: int, hi: int) {
    forall i :: 0 <= i < |ws| ==> lo <= ws[i].start && ws[i].end <= hi
  }

  lemma {:induction false} SubtractedWithin(ws: seq<Interval>, cut: Interval, lo: int, hi: int)
    requires Within(ws, lo, hi)
    ensures Within(Subtracted(ws, cut), lo, hi)
  {
    if ws != [] {
      var n := |ws| - 1;
      SubtractedWithin(ws[..n], cut, lo, hi);
    }
  }

  /** A cut outside [lo, hi] changes nothing at all. */
  lemma {:induction false} SubtractedOutside(ws: seq<Interval>, cut: Interval, lo: int, hi: int)
    requires Within(ws, lo, hi)
    requires cut.end <= lo || cut.start >= hi
    ensures Subtracted(ws, cut) == ws
  {
    if ws != [] {
      var n := |ws| - 1;
      SubtractedOutside(ws[..n], cut, lo, hi);
      assert ws == ws[..n] + [ws[n]];
    }
  }

  // ---- Subtracting several cuts ----

  function SubtractedAll(ws: seq<Interval>, cuts: seq<Interval>): seq<Interval> {
    if cuts == [] then ws else Subtracted(SubtractedAll(ws, cuts[..|cuts| - 1]), cuts[|cuts| - 1])
  }

  ghost predicate MissesAll(cuts: seq<Interval>, t: int, need: int) {
    forall i :: 0 <= i < |cuts| ==> Misses(cuts[i], t, need)
  }

  /** No cut ends before it starts. */
  ghost predicate Ordered(cuts: seq<Interval>) {
    forall i :: 0 <= i < |cuts| ==> cuts[i].start <= cuts[i].end
  }

  method SubtractAll(windows: seq<Interval>, cuts: seq<Interval>) returns (out: seq<Interval>)
    ensures out == SubtractedAll(windows, cuts)
  {
    out := windows;
    for i := 0 to |cuts|
      invariant out == SubtractedAll(windows, cuts[..i])
    {
      assert cuts[..i + 1][..i] == cuts[..i];
      out := Subtract(out, cuts[i]);
    }
    assert cuts[..|cuts|] == cuts;
  }

  lemma MissesAllButLast(cuts: seq<Interval>, t: int, need: int)
    requires cuts != []
    ensures MissesAll(cuts, t, need) <==> MissesAll(cuts[..|cuts| - 1], t, need) && Misses(cuts[|cuts| - 1], t, need)
  {
    assert forall i :: 0 <= i < |cuts| - 1 ==> cuts[..|cuts| - 1][i] == cuts[i];
    if MissesAll(cuts[..|cuts| - 1], t, need) && Misses(cuts[|cuts| - 1], t, need) {
      forall i | 0 <= i < |cuts| ensures Misses(cuts[i], t, need) {
        assert i < |cuts| - 1 ==> Misses(cuts[..|cuts| - 1][i], t, need);
      }
    }
  }

  lemma {:induction false} SubtractedAllCount(ws: seq<Interval>, cuts: seq<Interval>, t: int, need: int)
    requires need > 0
    ensures FitCount(SubtractedAll(ws, cuts), t, need) > 0 <==> FitCount(ws, t, need) > 0 && MissesAll(cuts, t, need)
    ensures Ordered(cuts) ==>
              FitCount(SubtractedAll(ws, cuts), t, need)
                      == if MissesAll(cuts, t, need) then FitCount(ws, t, need) else 0
  {
    if cuts != [] {
      var n := |cuts| - 1;
      SubtractedAllCount(ws, cuts[..n], t, need);
      SubtractedCount(SubtractedAll(ws, cuts[..n]), cuts[n], t, need);
      MissesAllButLast(cuts, t, need);
      assert Ordered(cuts) ==> Ordered(cuts[..n]);
    }
  }

  lemma {:induction false} SubtractedAllWithin(ws: seq<Interval>, cuts: seq<Interval>, lo: int, hi: int)
    requires Within(ws, lo, hi)
    ensures Within(SubtractedAll(ws, cuts), lo, hi)
  {
    if cuts != [] {
      SubtractedAllWithin(ws, cuts[..|cuts| - 1], lo, hi);
      SubtractedWithin(SubtractedAll(ws, cuts[..|cuts| - 1]), cuts[|cuts| - 1], lo, hi);
    }
  }

  // ---- Clipping to a limit ----

  function Max(a: int, b: int): int { if a >= b then a else b }

  function Min(a: int, b: int): int { if a <= b then a else b }

  /** The list out, followed by the part of one window that lies in the limit. */
  function WithClip(out: seq<Interval>, w: Interval, limit: Interval): seq<Interval> {
    var start, end := Max(w.start, limit.start), Min(w.end, limit.end);
    if end > start then out + [Interval(start, end)] else out
  }

  function Intersected(ws: seq<Interval>, limit: Interval): seq<Interval> {
    if ws == [] then [] else WithClip(Intersected(ws[..|ws| - 1], limit), ws[|ws| - 1], limit)
  }

  method Intersect(windows: seq<Interval>, limit: Interval) returns (out: seq<Interval>)
    ensures out == Intersected(windows, limit)
  {
    out := [];
    for i := 0 to |windows|
      invariant out == Intersected(windows[..i], limit)
    {
      assert windows[..i + 1][..i] == windows[..i];
      var start, end := Max(windows[i].start, limit.start), Min(windows[i].end, limit.end);
      if end > start {
        out := out + [Interval(start, end)];
      }
    }
    assert windows[..|windows|] == windows;
  }

  /** Clipping is exact: the room that survives is the room that was there and that lies in the limit. */
  lemma {:induction false} IntersectedCount(ws: seq<Interval>, limit: Interval, t: int, need: int)
    requires need > 0
    ensures FitCount(Intersected(ws, limit), t, need) == if Fits(limit, t, need) then FitCount(ws, t, need) else 0
  {
    if ws != [] {
      var n := |ws| - 1;
      IntersectedCount(ws[..n], limit, t, need);
      var clipped := Interval(Max(ws[n].start, limit.start), Min(ws[n].end, limit.end));
      FitCountOneMore(Intersected(ws[..n], limit), clipped, t, need);
    }
  }

  lemma {:induction false} IntersectedWithin(ws: seq<Interval>, limit: Interval, lo: int, hi: int)
    requires Within(ws, lo, hi)
    ensures Within(Intersected(ws, limit), lo, hi)
  {
    if ws != [] {
      IntersectedWithin(ws[..|ws| - 1], limit, lo, hi);
    }
  }
}
