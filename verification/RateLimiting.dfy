/**
 The two rate limiters: a sliding-window log that evicts in place, and a Redis
 counter whose expiry is refreshed on every attempt.
 */
module RateLimiting {
  import opened Prelude

  datatype Decision = Allowed | Denied(retryAfterSeconds: int)

  datatype Call = Call(key: string, at: real)

  /** What Redis keeps under one key: the INCR counter and the moment it expires. */
  datatype Counter = Counter(count: nat, expiresAt: real)

  /** A stretch of time; the flags say which of its two ends belong to it. */
  datatype Interval = Interval(lo: real, hi: real, withLo: bool, withHi: bool) {
    predicate Has(t: real) {
      && (lo < t || (withLo && t == lo))
      && (t < hi || (withHi && t == hi))
    }

    /** No two of its points lie a whole window apart: it is shorter, or just as long without one of its ends. */
    predicate Fits(window: int) {
      hi - lo < window as real || (hi - lo == window as real && !(withLo && withHi))
    }
  }

  // ---------------------------------------------------------------------
  // Sliding-window log: one call on one bucket
  // ---------------------------------------------------------------------

  function Evict(bucket: seq<real>, cutoff: real): (live: seq<real>)
    ensures |live| <= |bucket|
  {
    if bucket != [] && bucket[0] <= cutoff then Evict(bucket[1..], cutoff) else bucket
  }

  function BucketStep(max: int, window: int, bucket: seq<real>, now: real): (seq<real>, Decision)
    requires max >= 1
  {
    var live := Evict(bucket, now - window as real);
    if |live| >= max then
      (live, Denied(Max(1, Truncate(window as real - (now - live[0])))))
    else
      (live + [now], Allowed)
  }

  class InMemoryRateLimiter {
    const maxRequests: int
    const windowSeconds: int
    var buckets: map<string, seq<real>>

    constructor (max: int, window: int)
      requires max >= 1
      ensures maxRequests == max && windowSeconds == window && buckets == map[]
    {
      maxRequests, windowSeconds, buckets := max, window, map[];
    }

    function Bucket(key: string): seq<real>
      reads this
    {
      if key in buckets then buckets[key] else []
    }

    method Check(key: string, now: real) returns (decision: Decision)
      requires maxRequests >= 1
      modifies this`buckets
      ensures var (bucket, answer) := BucketStep(maxRequests, windowSeconds, old(Bucket(key)), now);
              buckets == old(buckets)[key := bucket] && decision == answer
    {
      if key !in buckets {
        buckets := buckets[key := []];
      }
      var cutoff := now - windowSeconds as real;
      while buckets[key] != [] && buckets[key][0] <= cutoff
        invariant key in buckets && buckets == old(buckets)[key := buckets[key]]
        invariant Evict(buckets[key], cutoff) == Evict(old(Bucket(key)), cutoff)
        decreases |Bucket(key)|
      {
        buckets := buckets[key := buckets[key][1..]];
      }
      if |buckets[key]| >= maxRequests {
        decision := Denied(Max(1, Truncate(windowSeconds as real - (now - buckets[key][0]))));
      } else {
        buckets := buckets[key := buckets[key] + [now]];
        decision := Allowed;
      }
    }
  }

  // ---------------------------------------------------------------------
  // Redis counter: one call on one key
  // ---------------------------------------------------------------------

  /** `edge` says what Redis does at the very instant of expiry; it is left free. */
  predicate Gone(entry: Option<Counter>, now: real, edge: bool) {
    entry.None? || now > entry.value.expiresAt || (now == entry.value.expiresAt && edge)
  }

  /** INCR and EXPIRE run on every attempt, also on a denied one. */
  function CounterStep(window: int, entry: Option<Counter>, now: real, edge: bool): Counter {
    Counter(if Gone(entry, now, edge) then 1 else entry.value.count + 1, now + window as real)
  }

  class RedisRateLimiter {
    const maxRequests: int
    const windowSeconds: int
    var store: map<string, Counter>

    constructor (max: int, window: int)
      ensures maxRequests == max && windowSeconds == window && store == map[]
    {
      maxRequests, windowSeconds, store := max, window, map[];
    }

    function Entry(key: string): Option<Counter>
      reads this
    {
      if key in store then Some(store[key]) else None
    }

    /** `ttl` is the server's reply to the TTL command, sent only when the call is denied. */
    method Check(key: string, now: real, edge: bool, ttl: int) returns (decision: Decision)
      modifies this`store
      ensures var counter := CounterStep(windowSeconds, old(Entry(key)), now, edge);
              && store == old(store)[key := counter]
              && decision == if counter.count > maxRequests then Denied(Max(1, ttl)) else Allowed
    {
      var count := if Gone(Entry(key), now, edge) then 1 else store[key].count + 1;
      store := store[key := Counter(count, now + windowSeconds as real)];
      if count > maxRequests {
        decision := Denied(Max(1, ttl));
      } else {
        decision := Allowed;
      }
    }
  }

  // ---------------------------------------------------------------------
  // Runs
  // ---------------------------------------------------------------------

  ghost predicate Nondecreasing(times: seq<real>) {
    forall i, j :: 0 <= i < j < |times| ==> times[i] <= times[j]
  }

  /** All calls made for one key: its bucket and the answers so far. */
  function BucketRun(max: int, window: int, times: seq<real>): (r: (seq<real>, seq<bool>))
    requires max >= 1
    ensures |r.1| == |times|
  {
    if times == [] then ([], []) else
      var n := |times| - 1;
      var before := BucketRun(max, window, times[..n]);
      var after := BucketStep(max, window, before.0, times[n]);
      (after.0, before.1 + [after.1.Allowed?])
  }

  /** The same calls answered from a log that never evicts anything. */
  function Unevicted(max: int, window: int, times: seq<real>): (allowed: seq<bool>)
    ensures |allowed| == |times|
  {
    if times == [] then [] else
      var n := |times| - 1;
      var before := Unevicted(max, window, times[..n]);
      before + [CountAfter(times[..n], before, times[n] - window as real) < max]
  }

  function RedisRun(max: int, window: int, times: seq<real>, edges: seq<bool>): (r: (Option<Counter>, seq<bool>))
    requires |edges| == |times|
    ensures |r.1| == |times|
    ensures r.0.Some? <==> times != []
    ensures times != [] ==> r.0.value.expiresAt == times[|times| - 1] + window as real
  {
    if times == [] then (None, []) else
      var n := |times| - 1;
      var before := RedisRun(max, window, times[..n], edges[..n]);
      var counter := CounterStep(window, before.0, times[n], edges[n]);
      (Some(counter), before.1 + [counter.count <= max])
  }

  /** Number of admitted calls later than `cutoff`. */
  function CountAfter(times: seq<real>, allowed: seq<bool>, cutoff: real): nat
    requires |times| == |allowed|
  {
    if |times| == 0 then 0 else
      var n := |times| - 1;
      CountAfter(times[..n], allowed[..n], cutoff) + if allowed[n] && times[n] > cutoff then 1 else 0
  }

  /** Number of admitted calls in an interval. */
  function CountWithin(times: seq<real>, allowed: seq<bool>, iv: Interval): nat
    requires |times| == |allowed|
  {
    if |times| == 0 then 0 else
      var n := |times| - 1;
      CountWithin(times[..n], allowed[..n], iv) + if allowed[n] && iv.Has(times[n]) then 1 else 0
  }

  // ---------------------------------------------------------------------
  // Eviction is unobservable
  // ---------------------------------------------------------------------

  /** What every reachable bucket looks like at time `now`. */
  ghost predicate ValidBucket(max: int, bucket: seq<real>, now: real) {
    |bucket| <= max && Nondecreasing(bucket) && forall i :: 0 <= i < |bucket| ==> bucket[i] <= now
  }

  lemma {:induction false} EvictFacts(bucket: seq<real>, cutoff: real)
    ensures var live := Evict(bucket, cutoff);
            && (live != [] ==> live[0] > cutoff)
            && (bucket != [] && bucket[0] <= cutoff ==> |live| < |bucket|)
            && (bucket != [] && bucket[0] > cutoff ==> live == bucket)
  {
    if bucket == [] || bucket[0] > cutoff {
    } else {
      EvictFacts(bucket[1..], cutoff);
    }
  }

  lemma {:induction false} EvictKeepsValid(max: int, bucket: seq<real>, now: real, cutoff: real)
    requires ValidBucket(max, bucket, now)
    ensures ValidBucket(max, Evict(bucket, cutoff), now)
  {
    if bucket == [] || bucket[0] > cutoff {
    } else {
      EvictKeepsValid(max, bucket[1..], now, cutoff);
    }
  }

  lemma {:induction false} EvictTwice(bucket: seq<real>, early: real, late: real)
    requires early <= late
    ensures Evict(Evict(bucket, early), late) == Evict(bucket, late)
  {
    if bucket == [] || bucket[0] > early {
    } else {
      EvictTwice(bucket[1..], early, late);
    }
  }

  lemma {:induction false} EvictAppend(bucket: seq<real>, now: real, cutoff: real)
    requires forall i :: 0 <= i < |bucket| ==> bucket[i] <= now
    ensures |Evict(bucket + [now], cutoff)| == |Evict(bucket, cutoff)| + if now > cutoff then 1 else 0
  {
    if bucket == [] {
      assert bucket + [now] == [now];
      assert [now][1..] == [];
    } else if bucket[0] <= cutoff {
      assert (bucket + [now])[1..] == bucket[1..] + [now];
      EvictAppend(bucket[1..], now, cutoff);
    }
  }

  lemma {:induction false} BucketRunValid(max: int, window: int, times: seq<real>, now: real)
    requires max >= 1 && Nondecreasing(times + [now])
    ensures ValidBucket(max, BucketRun(max, window, times).0, now)
  {
    if times == [] {
    } else {
      var n := |times| - 1;
      assert times[..n] + [times[n]] == times;
      assert Nondecreasing(times) by { assert times == (times + [now])[..n + 1]; }
      assert times[n] <= now by { assert (times + [now])[n] == times[n] && (times + [now])[n + 1] == now; }
      BucketRunValid(max, window, times[..n], times[n]);
      EvictKeepsValid(max, BucketRun(max, window, times[..n]).0, times[n], times[n] - window as real);
    }
  }

  lemma InOrderBefore(times: seq<real>)
    requires times != [] && Nondecreasing(times)
    ensures Nondecreasing(times[..|times| - 1])
    ensures |times| > 1 ==> times[|times| - 2] <= times[|times| - 1]
  {
  }

  /** What the last call does to the live entries of its bucket. */
  lemma LiveStep(max: int, window: int, times: seq<real>, cutoff: real)
    requires max >= 1 && times != [] && Nondecreasing(times) && cutoff >= times[|times| - 1] - window as real
    ensures var n := |times| - 1;
            |Evict(BucketRun(max, window, times).0, cutoff)|
            == |Evict(BucketRun(max, window, times[..n]).0, cutoff)|
               + if BucketRun(max, window, times).1[n] && times[n] > cutoff then 1 else 0
  {
    var n := |times| - 1;
    var bucket, now := BucketRun(max, window, times[..n]).0, times[n];
    EvictTwice(bucket, now - window as real, cutoff);
    assert times[..n] + [now] == times;
    BucketRunValid(max, window, times[..n], now);
    EvictKeepsValid(max, bucket, now, now - window as real);
    EvictAppend(Evict(bucket, now - window as real), now, cutoff);
  }

  /** And to their number among all admitted calls. */
  lemma CountStep(max: int, window: int, times: seq<real>, cutoff: real)
    requires max >= 1 && times != []
    ensures var n := |times| - 1;
            CountAfter(times, BucketRun(max, window, times).1, cutoff)
            == CountAfter(times[..n], BucketRun(max, window, times[..n]).1, cutoff)
               + if BucketRun(max, window, times).1[n] && times[n] > cutoff then 1 else 0
  {
    var n := |times| - 1;
    assert BucketRun(max, window, times).1[..n] == BucketRun(max, window, times[..n]).1;
  }

  lemma {:induction false} LiveCount(max: int, window: int, times: seq<real>, cutoff: real)
    requires max >= 1 && Nondecreasing(times)
    requires times != [] ==> cutoff >= times[|times| - 1] - window as real
    ensures var (bucket, allowed) := BucketRun(max, window, times);
            |Evict(bucket, cutoff)| == CountAfter(times, allowed, cutoff)
  {
    if times == [] {
    } else {
      InOrderBefore(times);
      LiveCount(max, window, times[..|times| - 1], cutoff);
      LiveStep(max, window, times, cutoff);
      CountStep(max, window, times, cutoff);
    }
  }

  lemma {:induction false} LogPrefix(max: int, window: int, times: seq<real>, k: nat)
    requires max >= 1 && k <= |times|
    ensures BucketRun(max, window, times[..k]).1 == BucketRun(max, window, times).1[..k]
  {
    if k == |times| {
      assert times[..k] == times;
    } else {
      var n := |times| - 1;
      LogPrefix(max, window, times[..n], k);
      assert times[..n][..k] == times[..k];
    }
  }

  lemma LastDecision(max: int, window: int, times: seq<real>)
    requires max >= 1 && times != []
    ensures var n := |times| - 1;
            BucketRun(max, window, times).1[n]
            <==> |Evict(BucketRun(max, window, times[..n]).0, times[n] - window as real)| < max
  {
  }

  lemma LiveBefore(max: int, window: int, times: seq<real>)
    requires max >= 1 && times != [] && Nondecreasing(times)
    ensures var n := |times| - 1;
            |Evict(BucketRun(max, window, times[..n]).0, times[n] - window as real)|
            == CountAfter(times[..n], BucketRun(max, window, times[..n]).1, times[n] - window as real)
  {
    InOrderBefore(times);
    LiveCount(max, window, times[..|times| - 1], times[|times| - 1] - window as real);
  }

  /** The last call is admitted exactly when fewer than `max` admitted calls lie in the window before it. */
  lemma LastLogAnswer(max: int, window: int, times: seq<real>)
    requires max >= 1 && times != [] && Nondecreasing(times)
    ensures var n := |times| - 1;
            BucketRun(max, window, times).1[n]
            <==> CountAfter(times[..n], BucketRun(max, window, times[..n]).1, times[n] - window as real) < max
  {
    LastDecision(max, window, times);
    LiveBefore(max, window, times);
  }

  /** Every decision equals that of a log that never evicts. */
  lemma {:induction false} EvictionUnobservable(max: int, window: int, times: seq<real>)
    requires max >= 1 && Nondecreasing(times)
    ensures BucketRun(max, window, times).1 == Unevicted(max, window, times)
  {
    if times == [] {
    } else {
      EvictionUnobservable(max, window, times[..|times| - 1]);
      LastLogAnswer(max, window, times);
      LogPrefix(max, window, times, |times| - 1);
    }
  }

  /** Call `i` is admitted exactly when fewer than `max` admitted calls lie in the window before it. */
  ghost predicate AnsweredByWindow(max: int, window: int, times: seq<real>, allowed: seq<bool>, i: nat)
    requires i < |times| == |allowed|
  {
    allowed[i] <==> CountAfter(times[..i], allowed[..i], times[i] - window as real) < max
  }

  lemma AnsweredInPrefix(max: int, window: int, times: seq<real>, allowed: seq<bool>, i: nat, n: nat)
    requires i < n <= |times| == |allowed|
    ensures AnsweredByWindow(max, window, times, allowed, i)
            <==> AnsweredByWindow(max, window, times[..n], allowed[..n], i)
  {
    assert times[..n][..i] == times[..i] && allowed[..n][..i] == allowed[..i];
  }

  lemma {:induction false} LogAnswer(max: int, window: int, times: seq<real>, i: nat)
    requires max >= 1 && i < |times| && Nondecreasing(times)
    ensures AnsweredByWindow(max, window, times, BucketRun(max, window, times).1, i)
  {
    var n := |times| - 1;
    LogPrefix(max, window, times, n);
    if i == n {
      LastLogAnswer(max, window, times);
    } else {
      LogAnswer(max, window, times[..n], i);
      AnsweredInPrefix(max, window, times, BucketRun(max, window, times).1, i, n);
    }
  }

  // ---------------------------------------------------------------------
  // The window bound
  // ---------------------------------------------------------------------

  lemma {:induction false} WithinIsAfter(times: seq<real>, allowed: seq<bool>, iv: Interval, cutoff: real)
    requires |times| == |allowed| && forall t :: iv.Has(t) ==> t > cutoff
    ensures CountWithin(times, allowed, iv) <= CountAfter(times, allowed, cutoff)
  {
    if times == [] {
    } else {
      var n := |times| - 1;
      WithinIsAfter(times[..n], allowed[..n], iv, cutoff);
    }
  }

  /** Every interval that fits in the window holds at most `max` admitted calls. */
  lemma {:induction false} WindowBound(max: int, window: int, times: seq<real>, iv: Interval)
    requires max >= 1 && Nondecreasing(times) && iv.Fits(window)
    ensures CountWithin(times, BucketRun(max, window, times).1, iv) <= max
  {
    if times == [] {
    } else {
      var n := |times| - 1;
      var before := BucketRun(max, window, times[..n]).1;
      var after := BucketRun(max, window, times).1;
      assert after[..n] == before;
      WindowBound(max, window, times[..n], iv);
      if after[n] && iv.Has(times[n]) {
        LogAnswer(max, window, times, n);
        WithinIsAfter(times[..n], before, iv, times[n] - window as real);
      }
    }
  }

  // ---------------------------------------------------------------------
  // Where the window bound ends
  // ---------------------------------------------------------------------

  function Repeat<T>(x: T, k: nat): seq<T> {
    seq(k, _ => x)
  }

  lemma RepeatOnce<T>(s: seq<T>, x: T, k: nat)
    ensures s + Repeat(x, k + 1) == s + Repeat(x, k) + [x]
    ensures s + Repeat(x, 0) == s
  {
  }

  lemma {:induction false} CountRepeat(times: seq<real>, allowed: seq<bool>, x: real, k: nat, iv: Interval)
    requires |times| == |allowed|
    ensures CountWithin(times + Repeat(x, k), allowed + Repeat(true, k), iv)
            == CountWithin(times, allowed, iv) + if iv.Has(x) then k else 0
  {
    if k == 0 {
      assert times + Repeat(x, k) == times && allowed + Repeat(true, k) == allowed;
    } else {
      var n := |times| + k - 1;
      assert (times + Repeat(x, k))[..n] == times + Repeat(x, k - 1);
      assert (allowed + Repeat(true, k))[..n] == allowed + Repeat(true, k - 1);
      CountRepeat(times, allowed, x, k - 1, iv);
    }
  }

  lemma CountNext(times: seq<real>, allowed: seq<bool>, now: real, iv: Interval)
    requires |times| == |allowed|
    ensures CountWithin(times + [now], allowed + [true], iv)
            == CountWithin(times, allowed, iv) + if iv.Has(now) then 1 else 0
  {
    assert (times + [now])[..|times|] == times && (allowed + [true])[..|times|] == allowed;
  }

  /** One more admitted call, with everything it leads to spelled out. */
  lemma AdmittedNext(max: int, window: int, times: seq<real>, bucket: seq<real>, allowed: seq<bool>, now: real,
                     longer: seq<real>, after: seq<real>, answers: seq<bool>)
    requires max >= 1 && BucketRun(max, window, times) == (bucket, allowed)
    requires |Evict(bucket, now - window as real)| < max
    requires longer == times + [now] && answers == allowed + [true]
    requires after == Evict(bucket, now - window as real) + [now]
    ensures BucketRun(max, window, longer) == (after, answers)
  {
    assert longer[..|times|] == times;
  }

  /** As long as there is room and nothing to evict, calls at one moment are all admitted. */
  lemma {:induction false} AdmitMany(
    max: int, window: int, times: seq<real>, bucket: seq<real>, allowed: seq<bool>, x: real, k: nat)
    requires max >= 1 && window > 0 && |bucket| + k <= max
    requires BucketRun(max, window, times) == (bucket, allowed)
    requires bucket != [] ==> bucket[0] > x - window as real
    ensures BucketRun(max, window, times + Repeat(x, k)) == (bucket + Repeat(x, k), allowed + Repeat(true, k))
  {
    if k == 0 {
      RepeatOnce(times, x, 0);
      RepeatOnce(bucket, x, 0);
      RepeatOnce(allowed, true, 0);
    } else {
      AdmitMany(max, window, times, bucket, allowed, x, k - 1);
      var held := bucket + Repeat(x, k - 1);
      assert Evict(held, x - window as real) == held;
      RepeatOnce(times, x, k - 1);
      RepeatOnce(bucket, x, k - 1);
      RepeatOnce(allowed, true, k - 1);
      AdmittedNext(max, window, times + Repeat(x, k - 1), held, allowed + Repeat(true, k - 1), x,
                   times + Repeat(x, k), bucket + Repeat(x, k), allowed + Repeat(true, k));
    }
  }

  lemma {:induction false} EvictAll(bucket: seq<real>, cutoff: real)
    requires forall i :: 0 <= i < |bucket| ==> bucket[i] <= cutoff
    ensures Evict(bucket, cutoff) == []
  {
    if bucket == [] {
    } else {
      EvictAll(bucket[1..], cutoff);
    }
  }

  /** `max` calls at `a`, one a window later, and `max - 1` at `y`. */
  function Bursts(max: int, window: int, a: real, y: real): seq<real>
    requires max >= 1
  {
    Repeat(a, max) + [a + window as real] + Repeat(y, max - 1)
  }

  lemma BurstIsAdmitted(max: int, window: int, a: real)
    requires max >= 1 && window > 0
    ensures BucketRun(max, window, Repeat(a, max)) == (Repeat(a, max), Repeat(true, max))
  {
    AdmitMany(max, window, [], [], [], a, max);
    assert [] + Repeat(a, max) == Repeat(a, max) && [] + Repeat(true, max) == Repeat(true, max);
  }

  lemma FirstBurst(max: int, window: int, a: real)
    requires max >= 1 && window > 0
    ensures BucketRun(max, window, Repeat(a, max) + [a + window as real])
            == ([a + window as real], Repeat(true, max) + [true])
  {
    var later := a + window as real;
    var first, yes := Repeat(a, max), Repeat(true, max);
    BurstIsAdmitted(max, window, a);
    EvictAll(first, a);
    assert [] + [later] == [later];
    AdmittedNext(max, window, first, first, yes, later, first + [later], [later], yes + [true]);
  }

  /** All of them are admitted, because the call a window later evicts `max` entries and takes up one place. */
  lemma BurstsAreAdmitted(max: int, window: int, a: real, y: real)
    requires max >= 1 && window > 0 && y < a + 2.0 * window as real
    ensures BucketRun(max, window, Bursts(max, window, a, y)).1
            == Repeat(true, max) + [true] + Repeat(true, max - 1)
  {
    FirstBurst(max, window, a);
    AdmitMany(max, window, Repeat(a, max) + [a + window as real], [a + window as real], Repeat(true, max) + [true],
              y, max - 1);
  }

  lemma CountBurst(x: real, k: nat, iv: Interval)
    ensures CountWithin(Repeat(x, k), Repeat(true, k), iv) == if iv.Has(x) then k else 0
  {
    CountRepeat([], [], x, k, iv);
    assert [] + Repeat(x, k) == Repeat(x, k) && [] + Repeat(true, k) == Repeat(true, k);
  }

  lemma CountMore(times: seq<real>, allowed: seq<bool>, x: real, y: real, k: nat, iv: Interval)
    requires |times| == |allowed|
    ensures CountWithin(times + [x] + Repeat(y, k), allowed + [true] + Repeat(true, k), iv)
            == CountWithin(times, allowed, iv) + (if iv.Has(x) then 1 else 0) + (if iv.Has(y) then k else 0)
  {
    CountNext(times, allowed, x, iv);
    CountRepeat(times + [x], allowed + [true], y, k, iv);
  }

  lemma BurstsWithin(max: int, window: int, a: real, y: real, iv: Interval)
    requires max >= 1 && window > 0 && y < a + 2.0 * window as real
    ensures CountWithin(Bursts(max, window, a, y), BucketRun(max, window, Bursts(max, window, a, y)).1, iv)
            == (if iv.Has(a) then max else 0) + (if iv.Has(a + window as real) then 1 else 0)
               + (if iv.Has(y) then max - 1 else 0)
  {
    BurstsAreAdmitted(max, window, a, y);
    CountBurst(a, max, iv);
    CountMore(Repeat(a, max), Repeat(true, max), a + window as real, y, max - 1, iv);
  }

  /** An interval that does not fit can hold as many as two windows allow. */
  lemma HoldsTwice(max: int, window: int, iv: Interval, a: real)
    requires max >= 1 && window > 0 && iv.Has(a) && iv.Has(a + window as real)
    ensures exists times :: Nondecreasing(times) && CountWithin(times, BucketRun(max, window, times).1, iv) == 2 * max
  {
    var times := Bursts(max, window, a, a + window as real);
    BurstsWithin(max, window, a, a + window as real, iv);
    assert Nondecreasing(times);
    assert CountWithin(times, BucketRun(max, window, times).1, iv) == 2 * max;
  }

  /** For calls in clock order the bound holds of exactly the intervals that fit in the window. */
  lemma IntervalBoundIsExact(max: int, window: int, iv: Interval)
    requires max >= 1 && window > 0
    ensures (forall times :: Nondecreasing(times) ==> CountWithin(times, BucketRun(max, window, times).1, iv) <= max)
            <==> iv.Fits(window)
  {
    if iv.Fits(window) {
      forall times | Nondecreasing(times) ensures CountWithin(times, BucketRun(max, window, times).1, iv) <= max {
        WindowBound(max, window, times, iv);
      }
    } else {
      HoldsTwice(max, window, iv, iv.lo + (iv.hi - iv.lo - window as real) / 2.0);
    }
  }

  lemma {:induction false} CountSplit(
    times: seq<real>, allowed: seq<bool>, whole: Interval, left: Interval, right: Interval)
    requires |times| == |allowed| && forall t :: whole.Has(t) ==> left.Has(t) || right.Has(t)
    ensures CountWithin(times, allowed, whole) <= CountWithin(times, allowed, left) + CountWithin(times, allowed, right)
  {
    if times == [] {
    } else {
      var n := |times| - 1;
      CountSplit(times[..n], allowed[..n], whole, left, right);
    }
  }

  /** With both of its ends, an interval of the window's length holds up to twice `max`, and may hold as many. */
  lemma ClosedIntervalHoldsTwice(max: int, window: int, lo: real)
    requires max >= 1 && window > 0
    ensures var iv := Interval(lo, lo + window as real, true, true);
            && (forall times :: Nondecreasing(times)
                                ==> CountWithin(times, BucketRun(max, window, times).1, iv) <= 2 * max)
            && (exists times :: Nondecreasing(times)
                                && CountWithin(times, BucketRun(max, window, times).1, iv) == 2 * max)
  {
    var hi := lo + window as real;
    var iv, left, right := Interval(lo, hi, true, true), Interval(lo, hi, true, false), Interval(hi, hi, true, true);
    forall times | Nondecreasing(times) ensures CountWithin(times, BucketRun(max, window, times).1, iv) <= 2 * max {
      WindowBound(max, window, times, left);
      WindowBound(max, window, times, right);
      CountSplit(times, BucketRun(max, window, times).1, iv, left, right);
    }
    HoldsTwice(max, window, iv, lo);
  }

  /** A limiter of one call remembers the last one it admitted, which is the latest, in whatever order they come. */
  lemma {:induction false} LoneEntry(window: int, times: seq<real>)
    requires window > 0
    ensures var (bucket, allowed) := BucketRun(1, window, times);
            && |bucket| <= 1
            && forall i :: 0 <= i < |times| && allowed[i] ==> bucket != [] && times[i] <= bucket[0]
  {
    if times == [] {
    } else {
      LoneEntry(window, times[..|times| - 1]);
      var bucket := BucketRun(1, window, times[..|times| - 1]).0;
      assert bucket != [] ==> bucket[1..] == [];
    }
  }

  lemma {:induction false} NoneWithin(times: seq<real>, allowed: seq<bool>, iv: Interval)
    requires |times| == |allowed|
    requires forall i :: 0 <= i < |times| && allowed[i] ==> !iv.Has(times[i])
    ensures CountWithin(times, allowed, iv) == 0
  {
    if times == [] {
    } else {
      NoneWithin(times[..|times| - 1], allowed[..|times| - 1], iv);
    }
  }

  lemma {:induction false} SingleCallBound(window: int, times: seq<real>, iv: Interval)
    requires window > 0 && iv.Fits(window)
    ensures CountWithin(times, BucketRun(1, window, times).1, iv) <= 1
  {
    if times == [] {
    } else {
      var n := |times| - 1;
      var (bucket, before) := BucketRun(1, window, times[..n]);
      var after := BucketRun(1, window, times).1;
      assert after[..n] == before;
      SingleCallBound(window, times[..n], iv);
      LoneEntry(window, times[..n]);
      if after[n] && iv.Has(times[n]) {
        assert bucket != [] ==> bucket[0] <= times[n] - window as real;
        NoneWithin(times[..n], before, iv);
      }
    }
  }

  /**
   The bound survives calls out of clock order for a limit of one call, and for no other: a call a
   window late makes room for `max` more, and earlier clock readings handled after it take that room.
   */
  lemma OrderNeededUnlessOne(max: int, window: int)
    requires max >= 1 && window > 0
    ensures (forall times: seq<real>, iv: Interval ::
               iv.Fits(window) ==> CountWithin(times, BucketRun(max, window, times).1, iv) <= max)
            <==> max == 1
  {
    if max == 1 {
      forall times: seq<real>, iv: Interval | iv.Fits(window)
        ensures CountWithin(times, BucketRun(max, window, times).1, iv) <= max
      {
        SingleCallBound(window, times, iv);
      }
    } else {
      var half, iv := window as real / 2.0, Interval(0.0, window as real, true, false);
      BurstsWithin(max, window, 0.0, half, iv);
      assert iv.Fits(window) && 2 * max - 1 > max;
    }
  }

  // ---------------------------------------------------------------------
  // Retry-After
  // ---------------------------------------------------------------------

  /** How long until the oldest live entry leaves the window. */
  function TrueWait(window: int, bucket: seq<real>, now: real): real
    requires Evict(bucket, now - window as real) != []
  {
    window as real - (now - Evict(bucket, now - window as real)[0])
  }

  /** The advertised delay is the true wait rounded down, but never below one second. */
  lemma RetryAfterBound(max: int, window: int, bucket: seq<real>, now: real)
    requires max >= 1 && BucketStep(max, window, bucket, now).1.Denied?
    ensures Evict(bucket, now - window as real) != []
    ensures var wait := TrueWait(window, bucket, now);
            var r := BucketStep(max, window, bucket, now).1.retryAfterSeconds;
            && 0.0 < wait < r as real + 1.0
            && 1 <= r
            && (wait >= 1.0 ==> r as real <= wait)
  {
    EvictFacts(bucket, now - window as real);
  }

  /** With no call in between, a retry at `later` is admitted exactly when the true wait has passed. */
  lemma RetryAdmittedExactlyAfterWait(max: int, window: int, times: seq<real>, now: real, later: real)
    requires max >= 1 && now <= later && Nondecreasing(times + [now])
    requires BucketStep(max, window, BucketRun(max, window, times).0, now).1.Denied?
    ensures var bucket := BucketRun(max, window, times).0;
            var denied := BucketStep(max, window, bucket, now);
            var retried := BucketStep(max, window, denied.0, later).1;
            && Evict(bucket, now - window as real) != []
            && (retried.Allowed? <==> later >= now + TrueWait(window, bucket, now))
            && (later >= now + denied.1.retryAfterSeconds as real + 1.0 ==> retried.Allowed?)
  {
    var bucket := BucketRun(max, window, times).0;
    BucketRunValid(max, window, times, now);
    RetryAfterBound(max, window, bucket, now);
    EvictFacts(bucket, now - window as real);
    EvictFacts(Evict(bucket, now - window as real), later - window as real);
  }

  // ---------------------------------------------------------------------
  // Which calls Redis admits
  // ---------------------------------------------------------------------

  /** Call `i` finds no counter: it is the first, or it follows a pause at which the key expired. */
  predicate StartsAfresh(window: int, times: seq<real>, edges: seq<bool>, i: nat)
    requires i < |times| == |edges|
  {
    || i == 0
    || times[i] - times[i - 1] > window as real
    || (times[i] - times[i - 1] == window as real && edges[i])
  }

  /** The call at which the burst of attempts that call `i` belongs to began. */
  function BurstStart(window: int, times: seq<real>, edges: seq<bool>, i: nat): (start: nat)
    requires i < |times| == |edges|
    ensures start <= i
  {
    if StartsAfresh(window, times, edges, i) then i else BurstStart(window, times, edges, i - 1)
  }

  lemma {:induction false} BurstStartIsLast(window: int, times: seq<real>, edges: seq<bool>, i: nat)
    requires i < |times| == |edges|
    ensures var start := BurstStart(window, times, edges, i);
            && StartsAfresh(window, times, edges, start)
            && forall j :: start < j <= i ==> !StartsAfresh(window, times, edges, j)
  {
    if StartsAfresh(window, times, edges, i) {
    } else {
      BurstStartIsLast(window, times, edges, i - 1);
    }
  }

  /** Call `i` is one of the first `max` attempts of its burst. */
  predicate IsEarly(max: int, window: int, times: seq<real>, edges: seq<bool>, i: nat)
    requires i < |times| == |edges|
  {
    i - BurstStart(window, times, edges, i) < max
  }

  /** The counter is the number of attempts in the burst, and call `i` is answered by it alone. */
  lemma {:induction false} CounterIsBurst(max: int, window: int, times: seq<real>, edges: seq<bool>, i: nat)
    requires i < |times| == |edges|
    ensures var (entry, allowed) := RedisRun(max, window, times[..i + 1], edges[..i + 1]);
            && entry.value.count == i - BurstStart(window, times, edges, i) + 1
            && (allowed[i] <==> IsEarly(max, window, times, edges, i))
  {
    assert times[..i + 1][..i] == times[..i] && edges[..i + 1][..i] == edges[..i];
    if i == 0 {
    } else {
      CounterIsBurst(max, window, times, edges, i - 1);
    }
  }

  /** The answers that let through the first `max` attempts of each burst. */
  predicate FollowsBursts(max: int, window: int, times: seq<real>, edges: seq<bool>, allowed: seq<bool>)
    requires |allowed| <= |times| == |edges|
  {
    forall i {:trigger allowed[i]} :: 0 <= i < |allowed| ==> (allowed[i] <==> IsEarly(max, window, times, edges, i))
  }

  lemma {:induction false} RedisPrefix(max: int, window: int, times: seq<real>, edges: seq<bool>, k: nat)
    requires k <= |times| == |edges|
    ensures RedisRun(max, window, times[..k], edges[..k]).1 == RedisRun(max, window, times, edges).1[..k]
  {
    if k == |times| {
      assert times[..k] == times && edges[..k] == edges;
    } else {
      var n := |times| - 1;
      RedisPrefix(max, window, times[..n], edges[..n], k);
      assert times[..n][..k] == times[..k] && edges[..n][..k] == edges[..k];
    }
  }

  lemma RedisFollowsBursts(max: int, window: int, times: seq<real>, edges: seq<bool>)
    requires |times| == |edges|
    ensures FollowsBursts(max, window, times, edges, RedisRun(max, window, times, edges).1)
  {
    var allowed := RedisRun(max, window, times, edges).1;
    forall i | 0 <= i < |times| ensures allowed[i] <==> IsEarly(max, window, times, edges, i) {
      CounterIsBurst(max, window, times, edges, i);
      RedisPrefix(max, window, times, edges, i + 1);
    }
  }

  /**
   In every run, in any order, Redis admits a call exactly when one of the last `max` calls up to
   that one, itself included, started afresh.
   */
  lemma RedisAdmitsExactly(max: int, window: int, times: seq<real>, edges: seq<bool>, i: nat)
    requires i < |times| == |edges|
    ensures RedisRun(max, window, times, edges).1[i]
            <==> exists j: nat :: j <= i < j + max && StartsAfresh(window, times, edges, j)
  {
    RedisFollowsBursts(max, window, times, edges);
    BurstStartIsLast(window, times, edges, i);
    assert IsEarly(max, window, times, edges, i) == RedisRun(max, window, times, edges).1[i];
  }

  /** So a client that never pauses for a whole window is shut out for good after its first `max` calls. */
  lemma RedisStarvesSteadyClient(max: int, window: int, times: seq<real>, edges: seq<bool>, i: nat)
    requires i < |times| == |edges|
    requires forall j :: 0 < j <= i ==> times[j] - times[j - 1] < window as real
    ensures RedisRun(max, window, times, edges).1[i] <==> i < max
  {
    RedisAdmitsExactly(max, window, times, edges, i);
    assert StartsAfresh(window, times, edges, 0);
  }

  // ---------------------------------------------------------------------
  // Redis admits no more than the log
  // ---------------------------------------------------------------------

  lemma {:induction false} NoneAfterLast(times: seq<real>, allowed: seq<bool>, cutoff: real)
    requires |times| == |allowed|
    requires forall i :: 0 <= i < |times| ==> times[i] <= cutoff
    ensures CountAfter(times, allowed, cutoff) == 0
  {
    if times == [] {
    } else {
      NoneAfterLast(times[..|times| - 1], allowed[..|times| - 1], cutoff);
    }
  }

  lemma {:induction false} CountAfterMonotone(times: seq<real>, allowed: seq<bool>, early: real, late: real)
    requires |times| == |allowed| && early <= late
    ensures CountAfter(times, allowed, late) <= CountAfter(times, allowed, early)
  {
    if times == [] {
    } else {
      CountAfterMonotone(times[..|times| - 1], allowed[..|times| - 1], early, late);
    }
  }

  lemma CountAfterNext(times: seq<real>, allowed: seq<bool>, i: nat, cutoff: real)
    requires i < |allowed| <= |times|
    ensures CountAfter(times[..i + 1], allowed[..i + 1], cutoff)
            == CountAfter(times[..i], allowed[..i], cutoff) + if allowed[i] && times[i] > cutoff then 1 else 0
  {
    assert times[..i + 1][..i] == times[..i] && allowed[..i + 1][..i] == allowed[..i];
  }

  /** A burst begins when nothing that was admitted before it lies in the window any more. */
  lemma NothingBeforeBurst(window: int, times: seq<real>, edges: seq<bool>, allowed: seq<bool>, i: nat, cutoff: real)
    requires i <= |allowed| <= |times| == |edges| && i < |times| && Nondecreasing(times)
    requires StartsAfresh(window, times, edges, i) && cutoff >= times[i] - window as real
    ensures CountAfter(times[..i], allowed[..i], cutoff) == 0
  {
    if i == 0 {
    } else {
      NoneAfterLast(times[..i], allowed[..i], cutoff);
    }
  }

  /** The attempts of a burst are more than those, admitted or not, in the window before the last of them. */
  lemma {:induction false} BurstCoversWindow(
    window: int, times: seq<real>, edges: seq<bool>, allowed: seq<bool>, i: nat)
    requires i <= |allowed| <= |times| == |edges| && i < |times| && Nondecreasing(times)
    ensures CountAfter(times[..i], allowed[..i], times[i] - window as real) <= i - BurstStart(window, times, edges, i)
  {
    var cutoff := times[i] - window as real;
    if StartsAfresh(window, times, edges, i) {
      NothingBeforeBurst(window, times, edges, allowed, i, cutoff);
    } else {
      BurstCoversWindow(window, times, edges, allowed, i - 1);
      CountAfterMonotone(times[..i - 1], allowed[..i - 1], times[i - 1] - window as real, cutoff);
      CountAfterNext(times, allowed, i - 1, cutoff);
    }
  }

  /** Fed the same calls on one clock, whatever Redis admits the in-memory limiter admits too. */
  lemma RedisRefinesLog(max: int, window: int, times: seq<real>, edges: seq<bool>)
    requires max >= 1 && |edges| == |times| && Nondecreasing(times)
    ensures forall i :: 0 <= i < |times| && RedisRun(max, window, times, edges).1[i]
                        ==> BucketRun(max, window, times).1[i]
  {
    var redis, log := RedisRun(max, window, times, edges).1, BucketRun(max, window, times).1;
    RedisFollowsBursts(max, window, times, edges);
    forall i | 0 <= i < |times| && redis[i] ensures log[i] {
      LogAnswer(max, window, times, i);
      BurstCoversWindow(window, times, edges, log, i);
    }
  }

  lemma {:induction false} CountWithinMonotone(times: seq<real>, fewer: seq<bool>, more: seq<bool>, iv: Interval)
    requires |times| == |fewer| == |more|
    requires forall i :: 0 <= i < |times| && fewer[i] ==> more[i]
    ensures CountWithin(times, fewer, iv) <= CountWithin(times, more, iv)
  {
    if times == [] {
    } else {
      var n := |times| - 1;
      CountWithinMonotone(times[..n], fewer[..n], more[..n], iv);
    }
  }

  /** So the Redis limiter inherits the window bound. */
  lemma RedisWindowBound(max: int, window: int, times: seq<real>, edges: seq<bool>, iv: Interval)
    requires max >= 1 && |edges| == |times| && Nondecreasing(times) && iv.Fits(window)
    ensures CountWithin(times, RedisRun(max, window, times, edges).1, iv) <= max
  {
    RedisRefinesLog(max, window, times, edges);
    WindowBound(max, window, times, iv);
    CountWithinMonotone(times, RedisRun(max, window, times, edges).1, BucketRun(max, window, times).1, iv);
  }

  // ---------------------------------------------------------------------
  // When the log admits everything, and when the two limiters agree
  // ---------------------------------------------------------------------

  /** Number of attempts later than `cutoff`, admitted or not. */
  function AttemptsAfter(times: seq<real>, cutoff: real): nat {
    if |times| == 0 then 0 else
      var n := |times| - 1;
      AttemptsAfter(times[..n], cutoff) + if times[n] > cutoff then 1 else 0
  }

  /** Call `i` comes on top of fewer than `max` others in the window before it. */
  predicate WithinLimit(max: int, window: int, times: seq<real>, i: nat)
    requires i < |times|
  {
    AttemptsAfter(times[..i], times[i] - window as real) < max
  }

  predicate AllAdmitted(allowed: seq<bool>) {
    forall i :: 0 <= i < |allowed| ==> allowed[i]
  }

  lemma {:induction false} AdmittedAttempts(times: seq<real>, allowed: seq<bool>, cutoff: real)
    requires |times| == |allowed| && AllAdmitted(allowed)
    ensures CountAfter(times, allowed, cutoff) == AttemptsAfter(times, cutoff)
  {
    if times == [] {
    } else {
      AdmittedAttempts(times[..|times| - 1], allowed[..|times| - 1], cutoff);
    }
  }

  lemma {:induction false} FirstDenied(allowed: seq<bool>) returns (i: nat)
    requires !AllAdmitted(allowed)
    ensures i < |allowed| && !allowed[i] && AllAdmitted(allowed[..i])
  {
    if allowed[0] {
      var k := FirstDenied(allowed[1..]);
      i := k + 1;
      assert allowed[..i] == [allowed[0]] + allowed[1..][..k];
    } else {
      i := 0;
    }
  }

  /** The log admits a whole run exactly when no call comes on top of `max` others in the window before it. */
  lemma LogAdmitsAllExactly(max: int, window: int, times: seq<real>)
    requires max >= 1 && Nondecreasing(times)
    ensures AllAdmitted(BucketRun(max, window, times).1)
            <==> forall i :: 0 <= i < |times| ==> WithinLimit(max, window, times, i)
  {
    var allowed := BucketRun(max, window, times).1;
    if AllAdmitted(allowed) {
      forall i | 0 <= i < |times| ensures WithinLimit(max, window, times, i) {
        LogAnswer(max, window, times, i);
        AdmittedAttempts(times[..i], allowed[..i], times[i] - window as real);
      }
    } else {
      var i := FirstDenied(allowed);
      LogAnswer(max, window, times, i);
      AdmittedAttempts(times[..i], allowed[..i], times[i] - window as real);
      assert !WithinLimit(max, window, times, i);
    }
  }

  /**
   The first `max` attempts of each burst, seen up to call `i` through the window of a later moment:
   all of the current ones if the window reaches back to the start of the burst, and fewer if not.
   */
  lemma {:induction false} BurstWithinWindow(
    max: int, window: int, times: seq<real>, edges: seq<bool>, allowed: seq<bool>, i: nat, cutoff: real)
    requires max >= 1 && i < |allowed| <= |times| == |edges| && Nondecreasing(times)
    requires FollowsBursts(max, window, times, edges, allowed)
    requires cutoff >= times[BurstStart(window, times, edges, i)] - window as real
    ensures var start := BurstStart(window, times, edges, i);
            var admitted := if i - start < max then i - start + 1 else max;
            var count := CountAfter(times[..i + 1], allowed[..i + 1], cutoff);
            if cutoff < times[start] then count == admitted else count < admitted
  {
    CountAfterNext(times, allowed, i, cutoff);
    if StartsAfresh(window, times, edges, i) {
      NothingBeforeBurst(window, times, edges, allowed, i, cutoff);
    } else {
      BurstWithinWindow(max, window, times, edges, allowed, i - 1, cutoff);
    }
  }

  lemma RoomWithinBurst(
    max: int, window: int, times: seq<real>, edges: seq<bool>, allowed: seq<bool>, last: nat, i: nat)
    requires max >= 1 && last + 1 == i <= |allowed| <= |times| == |edges| && i < |times| && Nondecreasing(times)
    requires FollowsBursts(max, window, times, edges, allowed) && !StartsAfresh(window, times, edges, i)
    ensures CountAfter(times[..i], allowed[..i], times[i] - window as real) < max
            <==> || IsEarly(max, window, times, edges, i)
                 || times[i] - times[BurstStart(window, times, edges, i)] >= window as real
  {
    var start := BurstStart(window, times, edges, i);
    assert start == BurstStart(window, times, edges, last) && times[start] <= times[i];
    BurstWithinWindow(max, window, times, edges, allowed, last, times[i] - window as real);
  }

  /** After those, the log has room for call `i` if its burst is short or a window old. */
  lemma RoomAfterBurst(max: int, window: int, times: seq<real>, edges: seq<bool>, allowed: seq<bool>, i: nat)
    requires max >= 1 && i <= |allowed| <= |times| == |edges| && i < |times| && Nondecreasing(times)
    requires FollowsBursts(max, window, times, edges, allowed)
    ensures CountAfter(times[..i], allowed[..i], times[i] - window as real) < max
            <==> || IsEarly(max, window, times, edges, i)
                 || times[i] - times[BurstStart(window, times, edges, i)] >= window as real
  {
    if StartsAfresh(window, times, edges, i) {
      NothingBeforeBurst(window, times, edges, allowed, i, times[i] - window as real);
    } else {
      RoomWithinBurst(max, window, times, edges, allowed, i - 1, i);
    }
  }

  /** Unless its burst has room for it, call `i` comes less than a window after the burst began. */
  predicate BurstIsYoung(max: int, window: int, times: seq<real>, edges: seq<bool>, i: nat)
    requires i < |times| == |edges|
  {
    || IsEarly(max, window, times, edges, i)
    || times[i] - times[BurstStart(window, times, edges, i)] < window as real
  }

  lemma AgreeOnNext(max: int, window: int, times: seq<real>, edges: seq<bool>, i: nat)
    requires max >= 1 && i < |times| == |edges| && Nondecreasing(times)
    requires BucketRun(max, window, times).1[..i] == RedisRun(max, window, times, edges).1[..i]
    ensures BucketRun(max, window, times).1[i] == RedisRun(max, window, times, edges).1[i]
            <==> BurstIsYoung(max, window, times, edges, i)
  {
    LogAnswer(max, window, times, i);
    RedisFollowsBursts(max, window, times, edges);
    RoomAfterBurst(max, window, times, edges, RedisRun(max, window, times, edges).1, i);
  }

  lemma {:induction false} FirstDifference(a: seq<bool>, b: seq<bool>) returns (i: nat)
    requires |a| == |b| && a != b
    ensures i < |a| && a[i] != b[i] && a[..i] == b[..i]
  {
    if a[0] != b[0] {
      i := 0;
    } else {
      var k := FirstDifference(a[1..], b[1..]);
      i := k + 1;
      assert a[..i] == [a[0]] + a[1..][..k] && b[..i] == [b[0]] + b[1..][..k];
    }
  }

  /**
   The two limiters give the same answers to a run of calls in clock order exactly when every call beyond
   the first `max` of its burst comes less than a window after the burst began.
   */
  lemma LimitersAgreeExactly(max: int, window: int, times: seq<real>, edges: seq<bool>)
    requires max >= 1 && |times| == |edges| && Nondecreasing(times)
    ensures BucketRun(max, window, times).1 == RedisRun(max, window, times, edges).1
            <==> forall i :: 0 <= i < |times| ==> BurstIsYoung(max, window, times, edges, i)
  {
    var log, redis := BucketRun(max, window, times).1, RedisRun(max, window, times, edges).1;
    if log == redis {
      forall i | 0 <= i < |times| ensures BurstIsYoung(max, window, times, edges, i) {
        AgreeOnNext(max, window, times, edges, i);
      }
    } else {
      var i := FirstDifference(log, redis);
      AgreeOnNext(max, window, times, edges, i);
    }
  }

  /** So for every limit and window the log admits some call that Redis denies. */
  lemma RedisIsStricter(max: int, window: int)
    requires max >= 1 && window > 0
    ensures exists times: seq<real>, edges: seq<bool>, i: nat ::
              && i < |times| == |edges| && Nondecreasing(times)
              && BucketRun(max, window, times).1[i] && !RedisRun(max, window, times, edges).1[i]
  {
    var times := Repeat(0.0, max) + [window as real / 2.0, window as real];
    var edges := seq(max + 2, _ => false);
    assert Nondecreasing(times);
    BurstStartIsLast(window, times, edges, max + 1);
    assert !BurstIsYoung(max, window, times, edges, max + 1);
    LimitersAgreeExactly(max, window, times, edges);
    RedisRefinesLog(max, window, times, edges);
    var i: nat :| i < |times| && RedisRun(max, window, times, edges).1[i] != BucketRun(max, window, times).1[i];
    assert BucketRun(max, window, times).1[i] && !RedisRun(max, window, times, edges).1[i];
  }

  // ---------------------------------------------------------------------
  // Many keys
  // ---------------------------------------------------------------------

  /** A run over all keys, as a sequence of `Check` calls leaves it. */
  function LimiterRun(max: int, window: int, calls: seq<Call>): (r: (map<string, seq<real>>, seq<bool>))
    requires max >= 1
    ensures |r.1| == |calls|
  {
    if calls == [] then (map[], []) else
      var n := |calls| - 1;
      var before := LimiterRun(max, window, calls[..n]);
      var key := calls[n].key;
      var after := BucketStep(max, window, if key in before.0 then before.0[key] else [], calls[n].at);
      (before.0[key := after.0], before.1 + [after.1.Allowed?])
  }

  function TimesOf(calls: seq<Call>, key: string): seq<real> {
    if calls == [] then [] else
      var n := |calls| - 1;
      TimesOf(calls[..n], key) + if calls[n].key == key then [calls[n].at] else []
  }

  function AnswersOf(calls: seq<Call>, allowed: seq<bool>, key: string): seq<bool>
    requires |allowed| == |calls|
  {
    if calls == [] then [] else
      var n := |calls| - 1;
      AnswersOf(calls[..n], allowed[..n], key) + if calls[n].key == key then [allowed[n]] else []
  }

  /** The limiter treats each key as if no other key existed. */
  lemma {:induction false} KeysAreIndependent(max: int, window: int, calls: seq<Call>, key: string)
    requires max >= 1
    ensures var (buckets, allowed) := LimiterRun(max, window, calls);
            var (bucket, answers) := BucketRun(max, window, TimesOf(calls, key));
            && bucket == (if key in buckets then buckets[key] else [])
            && answers == AnswersOf(calls, allowed, key)
  {
    if calls == [] {
    } else {
      var n := |calls| - 1;
      KeysAreIndependent(max, window, calls[..n], key);
      assert LimiterRun(max, window, calls).1[..n] == LimiterRun(max, window, calls[..n]).1;
      if calls[n].key == key {
        var times := TimesOf(calls, key);
        assert times[..|times| - 1] == TimesOf(calls[..n], key);
      } else {
        assert TimesOf(calls, key) == TimesOf(calls[..n], key);
      }
    }
  }

  lemma {:induction false} TimesOfNondecreasing(calls: seq<Call>, key: string)
    requires forall i, j :: 0 <= i < j < |calls| ==> calls[i].at <= calls[j].at
    ensures Nondecreasing(TimesOf(calls, key))
    ensures calls != [] ==> forall i :: 0 <= i < |TimesOf(calls, key)|
                                        ==> TimesOf(calls, key)[i] <= calls[|calls| - 1].at
  {
    if calls == [] {
    } else {
      TimesOfNondecreasing(calls[..|calls| - 1], key);
    }
  }

  /** The window bound for every key of a mixed run. */
  lemma WindowBoundPerKey(max: int, window: int, calls: seq<Call>, key: string, iv: Interval)
    requires max >= 1 && iv.Fits(window)
    requires forall i, j :: 0 <= i < j < |calls| ==> calls[i].at <= calls[j].at
    ensures var answers := AnswersOf(calls, LimiterRun(max, window, calls).1, key);
            && |answers| == |TimesOf(calls, key)|
            && CountWithin(TimesOf(calls, key), answers, iv) <= max
  {
    TimesOfNondecreasing(calls, key);
    KeysAreIndependent(max, window, calls, key);
    WindowBound(max, window, TimesOf(calls, key), iv);
  }
}
