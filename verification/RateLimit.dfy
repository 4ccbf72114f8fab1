/**
 The per-key limiter that forgets idle keys (internal/platform/ratelimit/ratelimit.go). The token bucket it
 uses per key is an exact one: it holds perMinute tokens, starts full, and gains one each period. Credit is
 counted in nanoseconds, a period for each token.
 */
module RateLimit {
  import opened Base

  const IDLE_TTL := 10 * MINUTE
  const SWEEP_INTERVAL := MINUTE

  /** Limits that the configuration accepts. */
  const MAX_PER_MINUTE := 10_000

  // ---- One bucket ----

  // period is the time to gain one token; capacity is the credit of a full bucket.
  datatype Limit = Limit(perMinute: int, period: int, capacity: int)

  datatype Tokens = Tokens(credit: int, at: int)

  datatype Answer = Answer(allowed: bool, delay: int)

  predicate Configured(perMinute: int) { 1 <= perMinute <= MAX_PER_MINUTE }

  /** The period is a whole number of nanoseconds, rounded down. */
  function LimitOf(perMinute: int): Limit
    requires Configured(perMinute)
  {
    var period := MINUTE / perMinute;
    Limit(perMinute, period, perMinute * period)
  }

  /** A bucket fills up in a minute at most, and holds a token when full. */
  predicate Workable(l: Limit) { 0 < l.period <= l.capacity <= MINUTE }

  function Full(l: Limit, now: int): Tokens { Tokens(l.capacity, now) }

  function Refilled(l: Limit, t: Tokens, now: int): int {
    var gained := t.credit + if now < t.at then 0 else now - t.at;
    if gained > l.capacity then l.capacity else gained
  }

  /** Takes a token, or says how long it takes until there is one and takes none. */
  function Reserve(l: Limit, t: Tokens, now: int): (r: (Tokens, Answer)) {
    var credit := Refilled(l, t, now);
    if credit < l.period then (Tokens(credit, now), Answer(false, l.period - credit))
    else (Tokens(credit - l.period, now), Answer(true, 0))
  }

  // ---- The limiter as a value ----

  datatype Bucket = Bucket(limiter: Tokens, lastSeen: int)

  // lastSweep is None before the first call.
  datatype Memory = Memory(buckets: map<string, Bucket>, lastSweep: Option<int>)

  predicate SweepDue(lastSweep: Option<int>, now: int) { lastSweep.None? || now - lastSweep.value >= SWEEP_INTERVAL }

  /** The keys not seen for longer than the idle time. */
  function Idle(buckets: map<string, Bucket>, now: int): set<string> {
    set key | key in buckets && now - buckets[key].lastSeen > IDLE_TTL
  }

  function Swept(mem: Memory, now: int): Memory {
    if SweepDue(mem.lastSweep, now) then Memory(mem.buckets - Idle(mem.buckets, now), Some(now)) else mem
  }

  function TokensOf(l: Limit, buckets: map<string, Bucket>, key: string, now: int): Tokens {
    if key in buckets then buckets[key].limiter else Full(l, now)
  }

  function Allowed(l: Limit, mem: Memory, key: string, now: int): (Memory, Answer) {
    var swept := Swept(mem, now);
    var r := Reserve(l, TokensOf(l, swept.buckets, key, now), now);
    (swept.(buckets := swept.buckets[key := Bucket(r.0, now)]), r.1)
  }

  // ---- The limiter in place ----

  class Limiter {
    const perMinute: int
    var buckets: map<string, Bucket>
    var lastSweep: Option<int>

    constructor (perMinute: int)
      requires Configured(perMinute)
      ensures this.perMinute == perMinute && buckets == map[] && lastSweep == None
    {
      this.perMinute, buckets, lastSweep := perMinute, map[], None;
    }

    function View(): Memory
      reads this
    {
      Memory(buckets, lastSweep)
    }

    /** Forgets the idle keys, once in a while. */
    method Sweep(now: int)
      modifies this
      ensures View() == Swept(old(View()), now)
    {
      if lastSweep.Some? && now - lastSweep.value < SWEEP_INTERVAL {
        return;
      }
      lastSweep := Some(now);
      var all := buckets;
      var todo := all.Keys;
      while todo != {}
        invariant todo <= all.Keys
        invariant buckets == all - (Idle(all, now) - todo)
        invariant lastSweep == Some(now)
        decreases todo
      {
        var key: string :| key in todo;
        if now - all[key].lastSeen > IDLE_TTL {
          buckets := buckets - {key};
        }
        todo := todo - {key};
      }
      assert Idle(all, now) - {} == Idle(all, now);
    }

    /** Whether a call for the key may proceed now; if not, how long to wait. */
    method Allow(key: string, now: int) returns (r: Answer)
      requires Configured(perMinute)
      modifies this
      ensures (View(), r) == Allowed(LimitOf(perMinute), old(View()), key, now)
    {
      Sweep(now);
      ghost var swept := buckets;
      if key !in buckets {
        buckets := buckets[key := Bucket(Full(LimitOf(perMinute), now), now)];
      }
      var b := buckets[key];
      var reserved := Reserve(LimitOf(perMinute), b.limiter, now);
      buckets := buckets[key := Bucket(reserved.0, now)];
      assert buckets == swept[key := Bucket(reserved.0, now)];
      if reserved.1.delay > 0 {
        return Answer(false, reserved.1.delay);
      }
      return Answer(true, 0);
    }
  }
}
