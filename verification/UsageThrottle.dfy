/**
 The throttle that lets one use per connection and minute be recorded, and forgets stale connections
 (internal/httpapi/mcp_usage.go:15-63).
 */
module UsageThrottle {
  import opened Base

  const RECORD_INTERVAL := MINUTE

  predicate Fresh(last: map<string, int>, id: string, now: int) { id in last && now - last[id] < RECORD_INTERVAL }

  /** The connections whose last recorded use is too old to matter. */
  function Stale(last: map<string, int>, now: int): set<string> {
    set id | id in last && now - last[id] >= RECORD_INTERVAL
  }

  /** The memory after a call, and whether the use is due to be recorded. */
  function Asked(last: map<string, int>, id: string, now: int): (map<string, int>, bool) {
    if Fresh(last, id, now) then (last, false) else ((last - Stale(last, now))[id := now], true)
  }

  class Throttle {
    var last: map<string, int>

    constructor ()
      ensures last == map[]
    {
      last := map[];
    }

    method Due(id: string, now: int) returns (due: bool)
      modifies this
      ensures (last, due) == Asked(old(last), id, now)
    {
      if id in last && now - last[id] < RECORD_INTERVAL {
        return false;
      }
      var all := last;
      var todo := all.Keys;
      while todo != {}
        invariant todo <= all.Keys
        invariant last == all - (Stale(all, now) - todo)
        decreases todo
      {
        var one: string :| one in todo;
        if now - all[one] >= RECORD_INTERVAL {
          last := last - {one};
        }
        todo := todo - {one};
      }
      assert Stale(all, now) - {} == Stale(all, now);
      last := last[id := now];
      return true;
    }
  }

  // ---- Runs ----

  datatype Use = Use(id: string, at: int)

  /** Uses reach the throttle in the order of their clock readings, none before from. */
  predicate InOrder(uses: seq<Use>, from: int) {
    && (forall i :: 0 <= i < |uses| ==> from <= uses[i].at)
    && (forall i, j :: 0 <= i < j < |uses| ==> uses[i].at <= uses[j].at)
  }

  function Answers(last: map<string, int>, uses: seq<Use>): seq<bool>
    decreases |uses|
  {
    if uses == [] then []
    else
      var r := Asked(last, uses[0].id, uses[0].at);
      [r.1] + Answers(r.0, uses[1..])
  }

  /** The throttle that never forgets. */
  function Noted(last: map<string, int>, use: Use): (map<string, int>, bool) {
    if Fresh(last, use.id, use.at) then (last, false) else (last[use.id := use.at], true)
  }

  function NotedAnswers(last: map<string, int>, uses: seq<Use>): seq<bool>
    decreases |uses|
  {
    if uses == [] then []
    else
      var r := Noted(last, uses[0]);
      [r.1] + NotedAnswers(r.0, uses[1..])
  }

  /** What was forgotten no longer matters. */
  ghost predicate Agree(last: map<string, int>, all: map<string, int>, now: int) {
    && (forall id :: id in last ==> id in all && all[id] == last[id])
    && (forall id :: id in all ==> all[id] <= now && (id !in last ==> now - all[id] >= RECORD_INTERVAL))
  }

  lemma {:induction false} RunAgrees(last: map<string, int>, all: map<string, int>, now: int, uses: seq<Use>)
    requires Agree(last, all, now) && InOrder(uses, now)
    ensures Answers(last, uses) == NotedAnswers(all, uses)
    decreases |uses|
  {
    if uses != [] {
      var use := uses[0];
      assert Fresh(last, use.id, use.at) <==> Fresh(all, use.id, use.at);
      RunAgrees(Asked(last, use.id, use.at).0, Noted(all, use).0, use.at, uses[1..]);
    }
  }

  /** On every run, a new throttle answers exactly as one that never forgets a connection. */
  lemma ForgettingIsInvisible(uses: seq<Use>, from: int)
    requires InOrder(uses, from)
    ensures Answers(map[], uses) == NotedAnswers(map[], uses)
  {
    RunAgrees(map[], map[], from, uses);
  }

  lemma {:induction false} AnswerEach(all: map<string, int>, uses: seq<Use>)
    ensures |NotedAnswers(all, uses)| == |uses|
    decreases |uses|
  {
    if uses != [] {
      AnswerEach(Noted(all, uses[0]).0, uses[1..]);
    }
  }

  /** Nothing is recorded of a connection before a minute has passed since its last recorded use. */
  lemma {:induction false} QuietUntil(all: map<string, int>, id: string, since: int, uses: seq<Use>, k: nat)
    requires id in all && all[id] >= since && k < |uses| && uses[k].id == id && |NotedAnswers(all, uses)| == |uses|
    requires NotedAnswers(all, uses)[k]
    ensures uses[k].at >= since + RECORD_INTERVAL
    decreases |uses|
  {
    if k > 0 {
      QuietUntil(Noted(all, uses[0]).0, id, since, uses[1..], k - 1);
    }
  }

  lemma {:induction false} ApartFrom(all: map<string, int>, uses: seq<Use>, i: nat, k: nat)
    requires i < k < |uses| && uses[i].id == uses[k].id && |NotedAnswers(all, uses)| == |uses|
    requires NotedAnswers(all, uses)[i] && NotedAnswers(all, uses)[k]
    ensures uses[k].at - uses[i].at >= RECORD_INTERVAL
    decreases |uses|
  {
    var r := Noted(all, uses[0]).0;
    if i == 0 {
      QuietUntil(r, uses[0].id, uses[0].at, uses[1..], k - 1);
    } else {
      ApartFrom(r, uses[1..], i - 1, k - 1);
    }
  }

  /** A use was recorded less than a minute before use k. */
  ghost predicate RecentlyRecorded(uses: seq<Use>, answers: seq<bool>, k: nat)
    requires k < |uses| && |answers| == |uses|
  {
    exists i :: 0 <= i < k && answers[i] && uses[i].id == uses[k].id && uses[k].at - uses[i].at < 60 * SECOND
  }

  lemma {:induction false} RefusedAfterRecent(all: map<string, int>, uses: seq<Use>, k: nat)
    requires k < |uses| && |NotedAnswers(all, uses)| == |uses| && !NotedAnswers(all, uses)[k]
    ensures Fresh(all, uses[k].id, uses[k].at) || RecentlyRecorded(uses, NotedAnswers(all, uses), k)
    decreases |uses|
  {
    if k > 0 {
      var r, answers := Noted(all, uses[0]), NotedAnswers(all, uses);
      RefusedAfterRecent(r.0, uses[1..], k - 1);
      assert answers == [r.1] + NotedAnswers(r.0, uses[1..]);
      if RecentlyRecorded(uses[1..], NotedAnswers(r.0, uses[1..]), k - 1) {
        var i :| 0 <= i < k - 1 && NotedAnswers(r.0, uses[1..])[i] && uses[1..][i].id == uses[1..][k - 1].id
                 && uses[1..][k - 1].at - uses[1..][i].at < 60 * SECOND;
        assert answers[i + 1] && uses[i + 1].id == uses[k].id;
      } else if r.1 && uses[0].id == uses[k].id {
        assert answers[0];
      }
    }
  }

  /**
   A new throttle lets a use of a connection be recorded exactly if none was recorded less than a minute before
   it: recorded uses are at least a minute apart, and nothing else holds one back.
   */
  lemma RecordedExactlyWhenDue(uses: seq<Use>, from: int, k: nat)
    requires InOrder(uses, from) && k < |uses|
    ensures |Answers(map[], uses)| == |uses|
    ensures Answers(map[], uses)[k] <==> !RecentlyRecorded(uses, Answers(map[], uses), k)
  {
    ForgettingIsInvisible(uses, from);
    AnswerEach(map[], uses);
    var answers := NotedAnswers(map[], uses);
    if answers[k] {
      forall i | 0 <= i < k && answers[i] && uses[i].id == uses[k].id {
        ApartFrom(map[], uses, i, k);
      }
    } else {
      RefusedAfterRecent(map[], uses, k);
    }
  }

  // ---- What is kept ----

  /** The memory after a run. */
  function After(last: map<string, int>, uses: seq<Use>): map<string, int>
    decreases |uses|
  {
    if uses == [] then last else After(Asked(last, uses[0].id, uses[0].at).0, uses[1..])
  }

  lemma {:induction false} OneMoreUse(last: map<string, int>, uses: seq<Use>, use: Use)
    ensures var r := Asked(After(last, uses), use.id, use.at);
            After(last, uses + [use]) == r.0 && Answers(last, uses + [use]) == Answers(last, uses) + [r.1]
    decreases |uses|
  {
    if uses != [] {
      assert (uses + [use])[1..] == uses[1..] + [use];
      OneMoreUse(Asked(last, uses[0].id, uses[0].at).0, uses[1..], use);
    }
  }

  /** The last use that was recorded, -1 if there is none. */
  function LastRecorded(answers: seq<bool>): (k: int)
    ensures -1 <= k < |answers| && (k >= 0 ==> answers[k])
    ensures forall i :: k < i < |answers| ==> !answers[i]
  {
    var n := |answers| - 1;
    if answers == [] then -1 else if answers[n] then n else LastRecorded(answers[..n])
  }

  /** A use of the connection was recorded less than a minute before now. */
  ghost predicate RecordedLately(uses: seq<Use>, answers: seq<bool>, id: string, now: int) {
    exists i :: 0 <= i < |uses| && i < |answers| && answers[i] && uses[i].id == id && now - uses[i].at < 60 * SECOND
  }

  ghost predicate RecordedAt(uses: seq<Use>, answers: seq<bool>, id: string, at: int) {
    exists i :: 0 <= i < |uses| && i < |answers| && answers[i] && uses[i] == Use(id, at)
  }

  /** When a use was last recorded, the memory kept the connections recorded lately, each with its last time. */
  ghost predicate Remembers(last: map<string, int>, uses: seq<Use>, answers: seq<bool>, now: int) {
    && (forall id :: id in last ==> now - last[id] < RECORD_INTERVAL && RecordedAt(uses, answers, id, last[id]))
    && (forall i :: 0 <= i < |uses| && i < |answers| && answers[i] && now - uses[i].at < RECORD_INTERVAL ==>
                      uses[i].id in last && last[uses[i].id] >= uses[i].at)
  }

  lemma RecordedBefore(uses: seq<Use>, answers: seq<bool>, use: Use, due: bool, id: string, at: int)
    requires |answers| == |uses|
    ensures RecordedAt(uses + [use], answers + [due], id, at) <==>
            RecordedAt(uses, answers, id, at) || (due && use == Use(id, at))
  {
    var us, rs := uses + [use], answers + [due];
    assert forall i :: 0 <= i < |uses| ==> us[i] == uses[i] && rs[i] == answers[i];
    assert us[|uses|] == use && rs[|uses|] == due;
  }

  /** A use that is recorded, after the uses before it. */
  lemma RemembersMore(last: map<string, int>, uses: seq<Use>, answers: seq<bool>, now: int, use: Use)
    requires |answers| == |uses| && Remembers(last, uses, answers, now) && now <= use.at && !Fresh(last, use.id, use.at)
    requires forall i :: 0 <= i < |uses| ==> uses[i].at <= use.at
    ensures Remembers(Asked(last, use.id, use.at).0, uses + [use], answers + [true], use.at)
  {
    var kept, us, rs := Asked(last, use.id, use.at).0, uses + [use], answers + [true];
    forall id | id in kept ensures use.at - kept[id] < RECORD_INTERVAL && RecordedAt(us, rs, id, kept[id]) {
      RecordedBefore(uses, answers, use, true, id, kept[id]);
    }
    forall i | 0 <= i < |us| && rs[i] && use.at - us[i].at < RECORD_INTERVAL
      ensures us[i].id in kept && kept[us[i].id] >= us[i].at
    {
      if i < |uses| {
        assert uses[i] == us[i] && answers[i];
      }
    }
  }

  /** A use that is not recorded changes nothing. */
  lemma RemembersStill(last: map<string, int>, uses: seq<Use>, answers: seq<bool>, now: int, use: Use)
    requires |answers| == |uses| && Remembers(last, uses, answers, now)
    ensures Remembers(last, uses + [use], answers + [false], now)
  {
    forall id | id in last ensures RecordedAt(uses + [use], answers + [false], id, last[id]) {
      RecordedBefore(uses, answers, use, false, id, last[id]);
    }
  }

  /** The time of the last use that was recorded. */
  function LastTime(uses: seq<Use>, answers: seq<bool>, from: int): int {
    var k := LastRecorded(answers);
    if 0 <= k < |uses| then uses[k].at else from
  }

  ghost predicate Remembered(uses: seq<Use>, from: int) {
    && |Answers(map[], uses)| == |uses|
    && Remembers(After(map[], uses), uses, Answers(map[], uses), LastTime(uses, Answers(map[], uses), from))
  }

  lemma RememberedOneMore(uses: seq<Use>, use: Use, from: int)
    requires Remembered(uses, from) && from <= use.at && forall i :: 0 <= i < |uses| ==> uses[i].at <= use.at
    ensures Remembered(uses + [use], from)
  {
    var last, answers := After(map[], uses), Answers(map[], uses);
    OneMoreUse(map[], uses, use);
    if Fresh(last, use.id, use.at) {
      RemembersStill(last, uses, answers, LastTime(uses, answers, from), use);
    } else {
      RemembersMore(last, uses, answers, LastTime(uses, answers, from), use);
    }
  }

  lemma {:induction false} RunRemembered(uses: seq<Use>, from: int)
    requires InOrder(uses, from)
    ensures Remembered(uses, from)
  {
    if uses == [] {
    } else {
      var before, use := uses[..|uses| - 1], uses[|uses| - 1];
      assert uses == before + [use];
      assert uses[|before|] == use && forall i :: 0 <= i < |before| ==> before[i] == uses[i];
      RunRemembered(before, from);
      RememberedOneMore(before, use, from);
    }
  }

  /**
   After any run of a new throttle, the memory holds exactly the connections of which a use was recorded in the
   minute up to the last use that was recorded at all.
   */
  lemma OnlyRecentKept(uses: seq<Use>, from: int, id: string)
    requires InOrder(uses, from) && uses != []
    ensures |Answers(map[], uses)| == |uses|
    ensures var k := LastRecorded(Answers(map[], uses));
            k >= 0 && (id in After(map[], uses) <==> RecordedLately(uses, Answers(map[], uses), id, uses[k].at))
  {
    RunRemembered(uses, from);
    RecordedExactlyWhenDue(uses, from, 0);
    assert 0 <= LastRecorded(Answers(map[], uses));
  }
}
