/** Forgetting idle keys is invisible, and what the limiter lets through is bounded. */
module RateLimitTheorems {
  import opened Base
  import opened RateLimit

  // ---- Runs ----

  datatype Call = Call(key: string, at: int)

  /** Calls reach the limiter in the order of their clock readings, none before from. */
  predicate InOrder(calls: seq<Call>, from: int) {
    && (forall i :: 0 <= i < |calls| ==> from <= calls[i].at)
    && (forall i, j :: 0 <= i < j < |calls| ==> calls[i].at <= calls[j].at)
  }

  function Answers(l: Limit, mem: Memory, calls: seq<Call>): seq<Answer>
    decreases |calls|
  {
    if calls == [] then []
    else
      var r := Allowed(l, mem, calls[0].key, calls[0].at);
      [r.1] + Answers(l, r.0, calls[1..])
  }

  /** A new limiter. */
  const NEW := Memory(map[], None)

  // ---- The limiter that never forgets ----

  type Table = map<string, Tokens>

  function Lookup(l: Limit, table: Table, key: string, now: int): Tokens {
    if key in table then table[key] else Full(l, now)
  }

  function Kept(l: Limit, table: Table, call: Call): (Table, Answer) {
    var r := Reserve(l, Lookup(l, table, call.key, call.at), call.at);
    (table[call.key := r.0], r.1)
  }

  function After(l: Limit, table: Table, calls: seq<Call>): Table
    decreases |calls|
  {
    if calls == [] then table else After(l, Kept(l, table, calls[0]).0, calls[1..])
  }

  function KeptAnswers(l: Limit, table: Table, calls: seq<Call>): seq<Answer>
    decreases |calls|
  {
    if calls == [] then []
    else
      var r := Kept(l, table, calls[0]);
      [r.1] + KeptAnswers(l, r.0, calls[1..])
  }

  // ---- Arithmetic of the period ----

  lemma AtLeastFactor(a: int, b: int)
    requires a > 0 && b > 0
    ensures a * b >= a && a * b >= b
  {
  }

  lemma AtMostZero(x: int, p: int)
    requires p > 0 && x * p < p
    ensures x <= 0
  {
    if x > 0 {
      AtLeastFactor(x, p);
    }
  }

  lemma Distribute(a: int, b: int, c: int, p: int)
    ensures (a - b - c) * p == a * p - b * p - c * p
  {
  }

  lemma Quotient(n: int, p: int)
    requires p > 0
    ensures n == (n / p) * p + n % p && 0 <= n % p < p
  {
  }

  lemma QuotientIs(n: int, p: int, q: int)
    requires p > 0 && q * p <= n < q * p + p
    ensures n / p == q
  {
    Quotient(n, p);
    Distribute(n / p, q, 0, p);
    Distribute(q, n / p, 0, p);
    AtMostZero(n / p - q, p);
    AtMostZero(q - n / p, p);
  }

  /** Every limit that the configuration accepts fills a bucket within a minute, long before it counts as idle. */
  lemma ConfiguredIsWorkable(perMinute: int)
    requires Configured(perMinute)
    ensures Workable(LimitOf(perMinute)) && LimitOf(perMinute).capacity < IDLE_TTL
  {
    var p := LimitOf(perMinute).period;
    Quotient(MINUTE, perMinute);
    AtLeastFactor(perMinute, p);
  }

  /** A minute holds perMinute whole periods. */
  lemma PeriodsPerMinute(perMinute: int)
    requires Configured(perMinute)
    ensures MINUTE / LimitOf(perMinute).period == perMinute
  {
    var p := LimitOf(perMinute).period;
    ConfiguredIsWorkable(perMinute);
    Quotient(MINUTE, perMinute);
    QuotientIs(MINUTE, p, perMinute);
  }

  // ---- Forgetting is invisible ----

  predicate TokensValid(l: Limit, t: Tokens, now: int) {
    0 <= t.credit <= l.capacity && t.at <= now
  }

  /** What was forgotten would be full by now. */
  ghost predicate Agree(l: Limit, mem: Memory, table: Table, now: int) {
    && (forall key :: key in mem.buckets ==> key in table)
    && (forall key :: key in table ==>
                        && TokensValid(l, table[key], now)
                        && if key in mem.buckets then mem.buckets[key] == Bucket(table[key], table[key].at)
                           else table[key].at + l.capacity <= now)
  }

  lemma SweepAgrees(l: Limit, mem: Memory, table: Table, before: int, now: int)
    requires Workable(l) && Agree(l, mem, table, before) && before <= now
    ensures Agree(l, Swept(mem, now), table, now)
  {
  }

  lemma CallAgrees(l: Limit, mem: Memory, table: Table, before: int, call: Call)
    requires Workable(l) && Agree(l, mem, table, before) && before <= call.at
    ensures var a, b := Allowed(l, mem, call.key, call.at), Kept(l, table, call);
            a.1 == b.1 && Agree(l, a.0, b.0, call.at)
  {
    SweepAgrees(l, mem, table, before, call.at);
  }

  lemma {:induction false} RunAgrees(l: Limit, mem: Memory, table: Table, now: int, calls: seq<Call>)
    requires Workable(l) && Agree(l, mem, table, now) && InOrder(calls, now)
    ensures Answers(l, mem, calls) == KeptAnswers(l, table, calls)
    decreases |calls|
  {
    if calls != [] {
      CallAgrees(l, mem, table, now, calls[0]);
      RunAgrees(l, Allowed(l, mem, calls[0].key, calls[0].at).0, Kept(l, table, calls[0]).0, calls[0].at, calls[1..]);
    }
  }

  /** For every configured limit and every run, a new limiter answers exactly as one that never forgets a key. */
  lemma ForgettingIsInvisible(l: Limit, calls: seq<Call>, from: int)
    requires Workable(l) && InOrder(calls, from)
    ensures Answers(l, NEW, calls) == KeptAnswers(l, map[], calls)
  {
    RunAgrees(l, NEW, map[], from, calls);
  }

  // ---- Memory ----

  function MemoryAfter(l: Limit, mem: Memory, calls: seq<Call>): Memory
    decreases |calls|
  {
    if calls == [] then mem else MemoryAfter(l, Allowed(l, mem, calls[0].key, calls[0].at).0, calls[1..])
  }

  /** Every key was seen not long before the last sweep, and that was not long ago. */
  ghost predicate Bounded(mem: Memory, now: int) {
    match mem.lastSweep
    case None => mem.buckets == map[]
    case Some(swept) =>
      && swept <= now < swept + SWEEP_INTERVAL
      && forall key :: key in mem.buckets ==> swept - IDLE_TTL <= mem.buckets[key].lastSeen <= now
  }

  function LastOf(calls: seq<Call>, now: int): int { if calls == [] then now else calls[|calls| - 1].at }

  lemma {:induction false} RunBounded(l: Limit, mem: Memory, now: int, calls: seq<Call>)
    requires Workable(l) && Bounded(mem, now) && InOrder(calls, now)
    ensures Bounded(MemoryAfter(l, mem, calls), LastOf(calls, now))
    decreases |calls|
  {
    if calls != [] {
      var next := Allowed(l, mem, calls[0].key, calls[0].at).0;
      assert LastOf(calls[1..], calls[0].at) == LastOf(calls, now);
      RunBounded(l, next, calls[0].at, calls[1..]);
    }
  }

  /** After any run, the keys in memory are those seen in the last eleven minutes at most. */
  lemma MemoryBounded(l: Limit, calls: seq<Call>, from: int)
    requires Workable(l) && InOrder(calls, from)
    ensures var after := MemoryAfter(l, NEW, calls).buckets;
            forall key :: key in after ==> LastOf(calls, from) - after[key].lastSeen < 11 * 60 * SECOND
  {
    RunBounded(l, NEW, from, calls);
  }

  // ---- What is let through ----

  /** What a key has to spend at a moment. */
  function Credit(l: Limit, table: Table, key: string, now: int): int {
    Refilled(l, Lookup(l, table, key, now), now)
  }

  ghost predicate TableValid(l: Limit, table: Table, now: int) {
    forall key :: key in table ==> TokensValid(l, table[key], now)
  }

  /** The calls of a key that are let through. */
  function Admitted(l: Limit, table: Table, calls: seq<Call>, key: string): nat
    decreases |calls|
  {
    if calls == [] then 0
    else
      var r := Kept(l, table, calls[0]);
      (if calls[0].key == key && r.1.allowed then 1 else 0) + Admitted(l, r.0, calls[1..], key)
  }

  /** The credit that the admitted calls of a key take. */
  function Spent(l: Limit, table: Table, calls: seq<Call>, key: string): int
    decreases |calls|
  {
    if calls == [] then 0
    else
      var r := Kept(l, table, calls[0]);
      (if calls[0].key == key && r.1.allowed then l.period else 0) + Spent(l, r.0, calls[1..], key)
  }

  lemma {:induction false} SpentIsAdmitted(l: Limit, table: Table, calls: seq<Call>, key: string)
    ensures Spent(l, table, calls, key) == Admitted(l, table, calls, key) * l.period
    decreases |calls|
  {
    if calls != [] {
      var next := Kept(l, table, calls[0]).0;
      SpentIsAdmitted(l, next, calls[1..], key);
      Distribute(Admitted(l, next, calls[1..], key), -1, 0, l.period);
    }
  }

  /** Every admitted call is paid for, from the credit at the start or from the time that passes. */
  lemma {:induction false} AdmittedPaid(l: Limit, table: Table, calls: seq<Call>, key: string, now: int, end: int)
    requires Workable(l) && TableValid(l, table, now) && InOrder(calls, now) && now <= end
    requires forall i :: 0 <= i < |calls| ==> calls[i].at <= end
    ensures Spent(l, table, calls, key) <= Credit(l, table, key, now) + end - now
    decreases |calls|
  {
    if calls != [] {
      AdmittedPaid(l, Kept(l, table, calls[0]).0, calls[1..], key, calls[0].at, end);
    }
  }

  lemma {:induction false} AfterValid(l: Limit, table: Table, calls: seq<Call>, now: int, end: int)
    requires Workable(l) && TableValid(l, table, now) && InOrder(calls, now) && now <= end
    requires forall i :: 0 <= i < |calls| ==> calls[i].at <= end
    ensures TableValid(l, After(l, table, calls), end)
    decreases |calls|
  {
    if calls != [] {
      AfterValid(l, Kept(l, table, calls[0]).0, calls[1..], calls[0].at, end);
    }
  }

  lemma {:induction false} AnswersSplit(l: Limit, table: Table, before: seq<Call>, window: seq<Call>)
    ensures KeptAnswers(l, table, before + window)
            == KeptAnswers(l, table, before) + KeptAnswers(l, After(l, table, before), window)
    ensures |KeptAnswers(l, table, before)| == |before|
    decreases |before|
  {
    if before == [] {
      assert before + window == window;
    } else {
      assert (before + window)[1..] == before[1..] + window;
      AnswersSplit(l, Kept(l, table, before[0]).0, before[1..], window);
    }
  }

  /** How many calls of a key were answered with yes. */
  function CountAllowed(calls: seq<Call>, answers: seq<Answer>, key: string): nat
    decreases |calls|
  {
    if calls == [] || answers == [] then 0
    else (if calls[0].key == key && answers[0].allowed then 1 else 0) + CountAllowed(calls[1..], answers[1..], key)
  }

  lemma {:induction false} AdmittedAreAllowed(l: Limit, table: Table, calls: seq<Call>, key: string)
    ensures CountAllowed(calls, KeptAnswers(l, table, calls), key) == Admitted(l, table, calls, key)
    decreases |calls|
  {
    if calls != [] {
      var r := Kept(l, table, calls[0]);
      AdmittedAreAllowed(l, r.0, calls[1..], key);
      assert KeptAnswers(l, table, calls)[1..] == KeptAnswers(l, r.0, calls[1..]);
    }
  }

  lemma AdmittedInWindow(l: Limit, before: seq<Call>, window: seq<Call>, from: int, key: string)
    requires Workable(l) && InOrder(before + window, from)
    ensures |Answers(l, NEW, before + window)| >= |before|
    ensures CountAllowed(window, Answers(l, NEW, before + window)[|before|..], key)
            == Admitted(l, After(l, map[], before), window, key)
  {
    ForgettingIsInvisible(l, before + window, from);
    AnswersSplit(l, map[], before, window);
    AdmittedAreAllowed(l, After(l, map[], before), window, key);
  }

  lemma WindowPaid(l: Limit, before: seq<Call>, window: seq<Call>, from: int, key: string, start: int, end: int)
    requires Workable(l) && InOrder(before, from) && InOrder(window, start) && window != []
    requires forall i :: 0 <= i < |before| ==> before[i].at <= window[0].at
    requires forall i :: 0 <= i < |window| ==> window[i].at <= end
    ensures Spent(l, After(l, map[], before), window, key) <= l.capacity + end - start
  {
    var first := window[0].at;
    if before == [] {
      AdmittedPaid(l, map[], window, key, start, end);
    } else {
      assert from <= before[0].at <= first;
      AfterValid(l, map[], before, from, first);
      AdmittedPaid(l, After(l, map[], before), window, key, first, end);
    }
  }

  /** So many calls of a period each fit into a capacity of n periods and some time. */
  lemma CountBound(count: int, n: int, period: int, span: int)
    requires period > 0 && span >= 0 && count * period <= n * period + span
    ensures count <= n + span / period
  {
    var q := span / period;
    Quotient(span, period);
    Distribute(count, n, q, period);
    AtMostZero(count - n - q, period);
  }

  /**
   Whatever came before, the calls of a key that a new limiter lets through from start to end are at most
   perMinute, plus one for each whole period in between.
   */
  lemma WindowBound(l: Limit, before: seq<Call>, window: seq<Call>, from: int, key: string, start: int, end: int)
    requires Workable(l) && l.capacity == l.perMinute * l.period
    requires InOrder(before + window, from) && start <= end
    requires forall i :: 0 <= i < |window| ==> start <= window[i].at <= end
    ensures |Answers(l, NEW, before + window)| >= |before|
    ensures CountAllowed(window, Answers(l, NEW, before + window)[|before|..], key)
            <= l.perMinute + (end - start) / l.period
  {
    AdmittedInWindow(l, before, window, from, key);
    var table := After(l, map[], before);
    SpentIsAdmitted(l, table, window, key);
    if window != [] {
      var all := before + window;
      assert forall i :: 0 <= i < |before| ==> all[i] == before[i];
      assert forall i :: 0 <= i < |window| ==> all[|before| + i] == window[i];
      WindowPaid(l, before, window, from, key, start, end);
    }
    CountBound(Admitted(l, table, window, key), l.perMinute, l.period, end - start);
  }

  /** In any minute, a new limiter lets through at most twice its limit for a key. */
  lemma MinuteBound(perMinute: int, before: seq<Call>, window: seq<Call>, from: int, key: string, start: int)
    requires Configured(perMinute) && InOrder(before + window, from)
    requires forall i :: 0 <= i < |window| ==> start <= window[i].at <= start + MINUTE
    ensures var answers := Answers(LimitOf(perMinute), NEW, before + window);
            |answers| >= |before| && CountAllowed(window, answers[|before|..], key) <= 2 * perMinute
  {
    ConfiguredIsWorkable(perMinute);
    PeriodsPerMinute(perMinute);
    WindowBound(LimitOf(perMinute), before, window, from, key, start, start + MINUTE);
  }

  // ---- Recovery ----

  /** From now on, both tables give every key the same credit. */
  ghost predicate SameCredit(l: Limit, a: Table, b: Table, now: int) {
    forall key, t :: t >= now ==> Credit(l, a, key, t) == Credit(l, b, key, t)
  }

  lemma SameStep(l: Limit, a: Table, b: Table, now: int, call: Call)
    requires Workable(l) && SameCredit(l, a, b, now) && now <= call.at
    ensures Kept(l, a, call).1 == Kept(l, b, call).1
    ensures SameCredit(l, Kept(l, a, call).0, Kept(l, b, call).0, call.at)
  {
    var x, y := Kept(l, a, call).0, Kept(l, b, call).0;
    assert Credit(l, a, call.key, call.at) == Credit(l, b, call.key, call.at);
    forall key, t | t >= call.at ensures Credit(l, x, key, t) == Credit(l, y, key, t) {
      assert key != call.key ==> Credit(l, a, key, t) == Credit(l, b, key, t);
    }
  }

  lemma {:induction false} SameCreditSameAnswers(l: Limit, a: Table, b: Table, now: int, calls: seq<Call>)
    requires Workable(l) && SameCredit(l, a, b, now) && InOrder(calls, now)
    ensures KeptAnswers(l, a, calls) == KeptAnswers(l, b, calls)
    decreases |calls|
  {
    if calls != [] {
      SameStep(l, a, b, now, calls[0]);
      SameCreditSameAnswers(l, Kept(l, a, calls[0]).0, Kept(l, b, calls[0]).0, calls[0].at, calls[1..]);
    }
  }

  lemma RejectedIsForgotten(l: Limit, table: Table, now: int, call: Call, later: seq<Call>)
    requires Workable(l) && TableValid(l, table, now) && now <= call.at && !Kept(l, table, call).1.allowed
    requires InOrder(later, call.at)
    ensures KeptAnswers(l, Kept(l, table, call).0, later) == KeptAnswers(l, table, later)
  {
    SameCreditSameAnswers(l, Kept(l, table, call).0, table, call.at, later);
  }

  /** Calls that let nothing through for a key leave its credit to the time that passes. */
  lemma {:induction false} NothingSpent(l: Limit, table: Table, now: int, calls: seq<Call>, key: string, t: int)
    requires Workable(l) && TableValid(l, table, now) && InOrder(calls, now) && now <= t
    requires Admitted(l, table, calls, key) == 0 && forall i :: 0 <= i < |calls| ==> calls[i].at <= t
    ensures Credit(l, After(l, table, calls), key, t) == Credit(l, table, key, t)
    decreases |calls|
  {
    if calls != [] {
      var next := Kept(l, table, calls[0]).0;
      assert Credit(l, next, key, t) == Credit(l, table, key, t);
      NothingSpent(l, next, calls[0].at, calls[1..], key, t);
    }
  }

  lemma KeptDelayIsExact(l: Limit, table: Table, now: int, call: Call, between: seq<Call>, again: int)
    requires Workable(l) && TableValid(l, table, now) && now <= call.at && !Kept(l, table, call).1.allowed
    requires InOrder(between, call.at) && call.at <= again && forall i :: 0 <= i < |between| ==> between[i].at <= again
    requires Admitted(l, Kept(l, table, call).0, between, call.key) == 0
    ensures var r := Kept(l, table, call);
            Kept(l, After(l, r.0, between), Call(call.key, again)).1.allowed <==> again >= call.at + r.1.delay
    ensures 0 < Kept(l, table, call).1.delay
  {
    var r := Kept(l, table, call);
    NothingSpent(l, r.0, call.at, between, call.key, again);
  }

  // ---- The same of the limiter that forgets ----

  lemma PartsOrdered(a: seq<Call>, b: seq<Call>, from: int)
    requires InOrder(a + b, from)
    ensures InOrder(a, from) && InOrder(b, LastOf(a, from))
  {
    var all := a + b;
    forall i | 0 <= i < |a| ensures a[i] == all[i] {
    }
    forall i | 0 <= i < |b| ensures b[i] == all[|a| + i] && LastOf(a, from) <= b[i].at {
      assert b[i] == all[|a| + i];
    }
    forall i, j | 0 <= i < j < |b| ensures b[i].at <= b[j].at {
      assert b[i] == all[|a| + i] && b[j] == all[|a| + j];
    }
  }

  lemma WholeOrdered(a: seq<Call>, b: seq<Call>, from: int)
    requires InOrder(a, from) && InOrder(b, LastOf(a, from))
    ensures InOrder(a + b, from)
  {
    var all, last := a + b, LastOf(a, from);
    forall i | 0 <= i < |all|
      ensures from <= all[i].at && (i < |a| ==> all[i].at <= last) && (i >= |a| ==> last <= all[i].at)
    {
      assert all[i] == if i < |a| then a[i] else b[i - |a|];
    }
    forall i, j | 0 <= i < j < |all| ensures all[i].at <= all[j].at {
      if j < |a| {
        assert all[i] == a[i] && all[j] == a[j];
      } else if i >= |a| {
        assert all[i] == b[i - |a|] && all[j] == b[j - |a|];
      }
    }
  }

  /** The table of the limiter that never forgets, before a call of a run. */
  lemma TableBefore(l: Limit, before: seq<Call>, rest: seq<Call>, from: int)
    requires Workable(l) && InOrder(before + rest, from)
    ensures TableValid(l, After(l, map[], before), LastOf(before, from)) && InOrder(rest, LastOf(before, from))
    ensures Answers(l, NEW, before + rest)
            == KeptAnswers(l, map[], before) + KeptAnswers(l, After(l, map[], before), rest)
    ensures |KeptAnswers(l, map[], before)| == |before|
  {
    PartsOrdered(before, rest, from);
    AfterValid(l, map[], before, from, LastOf(before, from));
    ForgettingIsInvisible(l, before + rest, from);
    AnswersSplit(l, map[], before, rest);
  }

  lemma FirstAnswer(l: Limit, table: Table, call: Call, rest: seq<Call>)
    ensures KeptAnswers(l, table, [call] + rest)
            == [Kept(l, table, call).1] + KeptAnswers(l, Kept(l, table, call).0, rest)
  {
    assert ([call] + rest)[1..] == rest;
  }

  lemma InOrderEarlier(calls: seq<Call>, late: int, early: int)
    requires InOrder(calls, late) && early <= late
    ensures InOrder(calls, early)
  {
  }

  lemma {:induction false} AnswerEach(l: Limit, table: Table, calls: seq<Call>)
    ensures |KeptAnswers(l, table, calls)| == |calls|
    decreases |calls|
  {
    if calls != [] {
      AnswerEach(l, Kept(l, table, calls[0]).0, calls[1..]);
    }
  }

  /**
   A rejected call is invisible, although it counts as seen and may sweep: without it, all other calls of the run, of
   all keys, are answered the same.
   */
  lemma RejectedIsInvisible(l: Limit, before: seq<Call>, call: Call, later: seq<Call>, from: int)
    requires Workable(l) && InOrder(before + ([call] + later), from)
    ensures var answers, without := Answers(l, NEW, before + ([call] + later)), Answers(l, NEW, before + later);
            && |answers| == |before| + 1 + |later| && |without| == |before| + |later|
            && (!answers[|before|].allowed ==>
                  answers == without[..|before|] + [answers[|before|]] + without[|before|..])
  {
    var at, table := LastOf(before, from), After(l, map[], before);
    TableBefore(l, before, [call] + later, from);
    PartsOrdered([call], later, at);
    assert [call][0] == call;
    InOrderEarlier(later, LastOf([call], at), at);
    PartsOrdered(before, [call] + later, from);
    WholeOrdered(before, later, from);
    TableBefore(l, before, later, from);
    FirstAnswer(l, table, call, later);
    AnswerEach(l, table, later);
    AnswerEach(l, Kept(l, table, call).0, later);
    if !Kept(l, table, call).1.allowed {
      RejectedIsForgotten(l, table, at, call, later);
    }
  }

  /** A call, some calls after it, and one more of the same key. */
  function Retried(before: seq<Call>, call: Call, between: seq<Call>, again: int): seq<Call> {
    before + ([call] + (between + [Call(call.key, again)]))
  }

  /** No call of the key among those between was answered with yes. */
  predicate NoneAllowed(answers: seq<Answer>, before: seq<Call>, between: seq<Call>, key: string) {
    && |answers| >= |before| + 1 + |between|
    && CountAllowed(between, answers[|before| + 1..|before| + 1 + |between|], key) == 0
  }

  lemma Laid(a: seq<Answer>, x: Answer, b: seq<Answer>, y: Answer)
    ensures var all := a + ([x] + (b + [y]));
            && |all| == |a| + 2 + |b| && all[|a|] == x && all[|a| + 1..|a| + 1 + |b|] == b && all[|a| + 1 + |b|] == y
  {
  }

  /** The answers of such a run, by the table of the limiter that never forgets. */
  lemma RetriedAnswers(l: Limit, before: seq<Call>, call: Call, between: seq<Call>, again: int, from: int)
    requires Workable(l) && InOrder(Retried(before, call, between, again), from)
    ensures var answers := Answers(l, NEW, Retried(before, call, between, again));
            var r := Kept(l, After(l, map[], before), call);
            && |answers| == |before| + 2 + |between| && answers[|before|] == r.1
            && answers[|before| + 1..|before| + 1 + |between|] == KeptAnswers(l, r.0, between)
            && answers[|before| + 1 + |between|] == Kept(l, After(l, r.0, between), Call(call.key, again)).1
  {
    var table, last := After(l, map[], before), Call(call.key, again);
    var r := Kept(l, table, call);
    TableBefore(l, before, [call] + (between + [last]), from);
    FirstAnswer(l, table, call, between + [last]);
    AnswersSplit(l, r.0, between, [last]);
    FirstAnswer(l, After(l, r.0, between), last, []);
    assert [last] + [] == [last];
    AnswerEach(l, map[], before);
    AnswerEach(l, r.0, between);
    Laid(KeptAnswers(l, map[], before), r.1, KeptAnswers(l, r.0, between), Kept(l, After(l, r.0, between), last).1);
  }

  lemma RetriedInOrder(before: seq<Call>, call: Call, between: seq<Call>, again: int, from: int)
    requires InOrder(Retried(before, call, between, again), from)
    ensures LastOf(before, from) <= call.at <= again && InOrder(between, call.at)
    ensures forall i :: 0 <= i < |between| ==> between[i].at <= again
  {
    var last := [Call(call.key, again)];
    PartsOrdered(before, [call] + (between + last), from);
    PartsOrdered([call], between + last, LastOf(before, from));
    assert [call][0] == call;
    PartsOrdered(between, last, call.at);
    assert last[0].at == again;
  }

  /**
   The delay that a rejected call is given is exact: as long as no other call of the key is let through, the next
   one is let through exactly if that delay has passed.
   */
  lemma DelayIsExact(l: Limit, before: seq<Call>, call: Call, between: seq<Call>, again: int, from: int)
    requires Workable(l) && InOrder(Retried(before, call, between, again), from)
    ensures var answers := Answers(l, NEW, Retried(before, call, between, again));
            && |answers| == |before| + 2 + |between|
            && (!answers[|before|].allowed && NoneAllowed(answers, before, between, call.key) ==>
                  && 0 < answers[|before|].delay
                  && (answers[|before| + 1 + |between|].allowed <==> again >= call.at + answers[|before|].delay))
  {
    RetriedAnswers(l, before, call, between, again, from);
    RetriedInOrder(before, call, between, again, from);
    TableBefore(l, before, [call] + (between + [Call(call.key, again)]), from);
    var table := After(l, map[], before);
    AdmittedAreAllowed(l, Kept(l, table, call).0, between, call.key);
    if !Kept(l, table, call).1.allowed && Admitted(l, Kept(l, table, call).0, between, call.key) == 0 {
      KeptDelayIsExact(l, table, LastOf(before, from), call, between, again);
    }
  }

  /** The whole seconds of the Retry-After header. */
  function RetryAfterSeconds(delay: int): int {
    var seconds := (delay + SECOND - 1) / SECOND;
    if seconds < 1 then 1 else seconds
  }

  /** Waiting the announced seconds suffices, and no smaller whole number of seconds does. */
  lemma RetryAfterSuffices(l: Limit, before: seq<Call>, call: Call, between: seq<Call>, seconds: nat, from: int)
    requires Workable(l) && InOrder(Retried(before, call, between, call.at + seconds * SECOND), from)
    ensures var answers := Answers(l, NEW, Retried(before, call, between, call.at + seconds * SECOND));
            && |answers| == |before| + 2 + |between|
            && (!answers[|before|].allowed && NoneAllowed(answers, before, between, call.key) ==>
                  (answers[|before| + 1 + |between|].allowed <==>
                       seconds >= RetryAfterSeconds(answers[|before|].delay)))
  {
    DelayIsExact(l, before, call, between, call.at + seconds * SECOND, from);
  }

  // ---- What has to be let through ----

  /** What a key can spend at the end is at least what it could spend without calls, less what they took. */
  lemma {:induction false} CreditAtLeast(l: Limit, table: Table, calls: seq<Call>, key: string, now: int, end: int)
    requires Workable(l) && TableValid(l, table, now) && InOrder(calls, now) && now <= end
    requires forall i :: 0 <= i < |calls| ==> calls[i].at <= end
    ensures var unspent := Credit(l, table, key, now) + end - now;
            Credit(l, After(l, table, calls), key, end)
            >= (if unspent < l.capacity then unspent else l.capacity) - Spent(l, table, calls, key)
    decreases |calls|
  {
    if calls != [] {
      CreditAtLeast(l, Kept(l, table, calls[0]).0, calls[1..], key, calls[0].at, end);
    }
  }

  /** A key whose calls of the window took less than the limit has a token left. */
  lemma CountTooFew(count: int, n: int, period: int, credit: int)
    requires period > 0 && credit >= n * period - count * period && credit < period
    ensures count >= n
  {
    Distribute(n, count, 0, period);
    AtMostZero(n - count, period);
  }

  lemma {:induction false} AfterSplit(l: Limit, table: Table, before: seq<Call>, window: seq<Call>)
    ensures After(l, table, before + window) == After(l, After(l, table, before), window)
    decreases |before|
  {
    if before == [] {
      assert before + window == window;
    } else {
      assert (before + window)[1..] == before[1..] + window;
      AfterSplit(l, Kept(l, table, before[0]).0, before[1..], window);
    }
  }

  /** The credit at the end of a window that is as long as a bucket takes to fill. */
  lemma CreditAfterWindow(l: Limit, before: seq<Call>, window: seq<Call>, from: int, key: string, start: int, end: int)
    requires Workable(l) && InOrder(before, from) && InOrder(window, start)
    requires from <= start && end == start + l.capacity
    requires forall i :: 0 <= i < |before| ==> before[i].at <= start
    requires forall i :: 0 <= i < |window| ==> window[i].at <= end
    ensures Credit(l, After(l, map[], before + window), key, end)
            >= l.capacity - Spent(l, After(l, map[], before), window, key)
  {
    AfterValid(l, map[], before, from, start);
    AfterSplit(l, map[], before, window);
    CreditAtLeast(l, After(l, map[], before), window, key, start, end);
  }

  lemma {:induction false} CountPrefix(calls: seq<Call>, answers: seq<Answer>, more: seq<Answer>, key: string)
    requires |answers| == |calls|
    ensures CountAllowed(calls, answers + more, key) == CountAllowed(calls, answers, key)
    decreases |calls|
  {
    if calls != [] {
      assert (answers + more)[1..] == answers[1..] + more;
      CountPrefix(calls[1..], answers[1..], more, key);
    }
  }

  /** The answers of a window and of the call after it, by the table of the limiter that never forgets. */
  lemma WindowAnswers(l: Limit, before: seq<Call>, window: seq<Call>, call: Call, from: int)
    requires Workable(l) && InOrder(before + (window + [call]), from)
    ensures var answers, table := Answers(l, NEW, before + (window + [call])), After(l, map[], before);
            && |answers| == |before| + |window| + 1
            && CountAllowed(window, answers[|before|..], call.key) == Admitted(l, table, window, call.key)
            && answers[|before| + |window|] == Kept(l, After(l, table, window), call).1
  {
    var table := After(l, map[], before);
    TableBefore(l, before, window + [call], from);
    AnswersSplit(l, table, window, [call]);
    FirstAnswer(l, After(l, table, window), call, []);
    assert [call] + [] == [call];
    var first, last := KeptAnswers(l, table, window), KeptAnswers(l, After(l, table, window), [call]);
    assert Answers(l, NEW, before + (window + [call]))[|before|..] == first + last;
    CountPrefix(window, first, last, call.key);
    AdmittedAreAllowed(l, table, window, call.key);
  }

  /** The order of the parts of such a run. */
  lemma WindowInOrder(before: seq<Call>, window: seq<Call>, call: Call, from: int, start: int)
    requires InOrder(before + (window + [call]), from)
    requires forall i :: 0 <= i < |window| ==> start <= window[i].at
    ensures InOrder(before, from) && InOrder(window, start) && from <= call.at
    ensures forall i :: 0 <= i < |window| ==> window[i].at <= call.at
  {
    var rest := window + [call];
    PartsOrdered(before, rest, from);
    PartsOrdered(window, [call], LastOf(before, from));
    assert rest[|window|] == call && forall i :: 0 <= i < |window| ==> rest[i] == window[i];
    assert (before + rest)[|before| + |window|] == call;
  }

  /**
   A new limiter rejects a call only if it let perMinute calls of its key through in the time that perMinute tokens
   take, up to the call, which is at most a minute. before are the calls until then, window those since.
   */
  lemma RejectedOnlyWhenUsed(perMinute: int, before: seq<Call>, window: seq<Call>, call: Call, from: int)
    requires Configured(perMinute) && InOrder(before + (window + [call]), from)
    requires forall i :: 0 <= i < |before| ==> before[i].at <= call.at - perMinute * (60 * SECOND / perMinute)
    requires forall i :: 0 <= i < |window| ==> call.at - perMinute * (60 * SECOND / perMinute) < window[i].at
    ensures perMinute * (60 * SECOND / perMinute) <= 60 * SECOND
    ensures var answers := Answers(LimitOf(perMinute), NEW, before + (window + [call]));
            && |answers| == |before| + |window| + 1
            && (!answers[|before| + |window|].allowed ==>
                  CountAllowed(window, answers[|before|..], call.key) >= perMinute)
  {
    var l := LimitOf(perMinute);
    var start, table := call.at - l.capacity, After(l, map[], before);
    ConfiguredIsWorkable(perMinute);
    WindowAnswers(l, before, window, call, from);
    WindowInOrder(before, window, call, from, start);
    var early := if from <= start then from else start;
    InOrderEarlier(before, from, early);
    CreditAfterWindow(l, before, window, early, call.key, start, call.at);
    AfterSplit(l, map[], before, window);
    SpentIsAdmitted(l, table, window, call.key);
    if !Kept(l, After(l, table, window), call).1.allowed {
      CountTooFew(Admitted(l, table, window, call.key), perMinute, l.period,
                  Credit(l, After(l, table, window), call.key, call.at));
    }
  }

  /** How many of the calls are of a key. */
  function CountKey(calls: seq<Call>, key: string): nat {
    if calls == [] then 0 else (if calls[0].key == key then 1 else 0) + CountKey(calls[1..], key)
  }

  lemma {:induction false} AtMostAll(calls: seq<Call>, answers: seq<Answer>, key: string)
    ensures CountAllowed(calls, answers, key) <= CountKey(calls, key)
    decreases |calls|
  {
    if calls != [] && answers != [] {
      AtMostAll(calls[1..], answers[1..], key);
    }
  }

  /** How many calls there were by a moment. */
  lemma {:induction false} SplitAt(calls: seq<Call>, from: int, start: int) returns (k: nat)
    requires InOrder(calls, from)
    ensures k <= |calls|
    ensures forall i :: 0 <= i < k ==> calls[i].at <= start
    ensures forall i :: k <= i < |calls| ==> start < calls[i].at
  {
    k := |calls|;
    if calls != [] && start < calls[|calls| - 1].at {
      k := SplitAt(calls[..|calls| - 1], from, start);
      assert forall i :: 0 <= i < |calls| - 1 ==> calls[..|calls| - 1][i] == calls[i];
    }
  }

  lemma {:induction false} CountSuffix(calls: seq<Call>, k: nat, key: string)
    requires k <= |calls|
    ensures CountKey(calls[k..], key) <= CountKey(calls, key)
    decreases |calls|
  {
    if k > 0 {
      CountSuffix(calls[1..], k - 1, key);
      assert calls[1..][k - 1..] == calls[k..];
    }
  }

  /** Until a key has made perMinute calls, a new limiter lets all of its calls through, whatever other keys do. */
  lemma FirstCallsPass(perMinute: int, calls: seq<Call>, call: Call, from: int)
    requires Configured(perMinute) && InOrder(calls + [call], from) && CountKey(calls, call.key) < perMinute
    ensures var answers := Answers(LimitOf(perMinute), NEW, calls + [call]);
            |answers| == |calls| + 1 && answers[|calls|].allowed
  {
    PartsOrdered(calls, [call], from);
    var k := SplitAt(calls, from, call.at - perMinute * (60 * SECOND / perMinute));
    var before, window := calls[..k], calls[k..];
    assert calls + [call] == before + (window + [call]);
    CountSuffix(calls, k, call.key);
    RejectedOnlyWhenUsed(perMinute, before, window, call, from);
    AtMostAll(window, Answers(LimitOf(perMinute), NEW, calls + [call])[|before|..], call.key);
  }
}
