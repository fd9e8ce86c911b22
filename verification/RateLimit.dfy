/** The fixed window and the token bucket, and what they admit over whole runs of requests. */
module RateLimit {

  datatype Window = Window(start: int, count: nat)

  datatype Bucket = Bucket(tokens: real, lastRefillAt: int)

  datatype Outcome<S> = Outcome(next: S, admitted: bool)

  function ConsumeWindow(w: Window, limit: nat, windowMs: int, now: int): Outcome<Window> {
    var current := if now - w.start >= windowMs then Window(now, 0) else w;
    if current.count >= limit then Outcome(current, false)
    else Outcome(current.(count := current.count + 1), true)
  }

  function Refilled(b: Bucket, refillPerSecond: real, capacity: real, now: int): real {
    var elapsedMs := if now > b.lastRefillAt then now - b.lastRefillAt else 0;
    var tokens := b.tokens + elapsedMs as real / 1000.0 * refillPerSecond;
    if tokens < capacity then tokens else capacity
  }

  function ConsumeBucket(b: Bucket, refillPerSecond: real, capacity: real, now: int): Outcome<Bucket> {
    var tokens := Refilled(b, refillPerSecond, capacity, now);
    if tokens < 1.0 then Outcome(Bucket(tokens, now), false)
    else Outcome(Bucket(tokens - 1.0, now), true)
  }

  ghost predicate NonDecreasing(times: seq<int>) {
    forall i, j :: 0 <= i < j < |times| ==> times[i] <= times[j]
  }

  // ---- Fixed window ----

  function RunWindow(w: Window, limit: nat, windowMs: int, times: seq<int>): Window
    decreases |times|
  {
    if times == [] then w
    else ConsumeWindow(RunWindow(w, limit, windowMs, times[..|times| - 1]), limit, windowMs, times[|times| - 1]).next
  }

  function WindowAdmits(w: Window, limit: nat, windowMs: int, times: seq<int>): nat
    decreases |times|
  {
    if times == [] then 0
    else
      var front := times[..|times| - 1];
      WindowAdmits(w, limit, windowMs, front)
      + if ConsumeWindow(RunWindow(w, limit, windowMs, front), limit, windowMs, times[|times| - 1]).admitted then 1 else 0
  }

  /** Any half-open interval one window long holds at most one reset: before it the old counter admits
      at most the limit, after it the new counter does. */
  lemma {:induction false} WindowProgress(w: Window, limit: nat, windowMs: int, times: seq<int>, from: int)
    requires windowMs > 0 && w.count <= limit
    requires NonDecreasing(times) && forall t <- times :: from <= t < from + windowMs
    ensures var after, admits := RunWindow(w, limit, windowMs, times), WindowAdmits(w, limit, windowMs, times);
            && after.count <= limit
            && ((after == w.(count := after.count) && admits + w.count == after.count)
                || (from <= after.start && admits <= limit + after.count))
    decreases |times|
  {
    if times == [] {
    } else {
      var last := |times| - 1;
      assert forall t <- times[..last] :: t in times;
      assert times[last] in times;
      WindowProgress(w, limit, windowMs, times[..last], from);
    }
  }

  lemma {:induction false} WindowCountBounded(w: Window, limit: nat, windowMs: int, times: seq<int>)
    requires w.count <= limit
    ensures RunWindow(w, limit, windowMs, times).count <= limit
    decreases |times|
  {
    if times == [] {
    } else {
      WindowCountBounded(w, limit, windowMs, times[..|times| - 1]);
    }
  }

  /** In any half-open interval of one window length, whatever came before, at most twice the limit
      is admitted. */
  lemma WindowAdmitsTwiceTheLimit(start: int, limit: nat, windowMs: int, before: seq<int>, times: seq<int>, from: int)
    requires windowMs > 0
    requires NonDecreasing(before) && NonDecreasing(times) && forall t <- times :: from <= t < from + windowMs
    ensures var w := RunWindow(Window(start, 0), limit, windowMs, before);
            WindowAdmits(w, limit, windowMs, times) <= 2 * limit
  {
    WindowCountBounded(Window(start, 0), limit, windowMs, before);
    WindowProgress(RunWindow(Window(start, 0), limit, windowMs, before), limit, windowMs, times, from);
  }

  function Lesser(a: int, b: int): int {
    if a < b then a else b
  }

  /** How many of the requests still fall into the window that is open. */
  function InOpenWindow(w: Window, windowMs: int, times: seq<int>): (r: nat)
    ensures r <= |times|
    decreases |times|
  {
    if times == [] then 0
    else
      InOpenWindow(w, windowMs, times[..|times| - 1]) + if times[|times| - 1] - w.start < windowMs then 1 else 0
  }

  lemma PrefixNonDecreasing(front: seq<int>, t: int)
    requires NonDecreasing(front + [t])
    ensures NonDecreasing(front)
    ensures front != [] ==> front[|front| - 1] <= t
  {
    var times := front + [t];
    assert times[|front|] == t;
    assert forall i :: 0 <= i < |front| ==> times[i] == front[i];
  }

  lemma {:induction false} LateRequestIsLast(w: Window, windowMs: int, times: seq<int>, t: int)
    requires NonDecreasing(times + [t])
    ensures t - w.start < windowMs ==> InOpenWindow(w, windowMs, times) == |times|
    decreases |times|
  {
    if times == [] {
    } else {
      hide NonDecreasing;
      var front, last := times[..|times| - 1], times[|times| - 1];
      assert front + [last] == times;
      PrefixNonDecreasing(times, t);
      LateRequestIsLast(w, windowMs, front, last);
    }
  }

  // The admissions and the counter after `total` requests of which `inOpen` fall into the open window.
  predicate Counted(w: Window, limit: nat, from: int, inOpen: nat, total: nat, admits: int, after: Window) {
    var first, rest := Lesser(inOpen, limit - w.count), Lesser(total - inOpen, limit);
    && admits == first + rest
    && after.count == (if inOpen == total then w.count + first else rest)
    && (if inOpen == total then after.start == w.start else from <= after.start)
  }

  lemma OneMoreCounted(w: Window, limit: nat, windowMs: int, from: int, inOpen: nat, total: nat, admits: int, before: Window, t: int)
    requires w.count <= limit && inOpen <= total && from <= t < from + windowMs
    requires Counted(w, limit, from, inOpen, total, admits, before)
    requires t - w.start < windowMs ==> inOpen == total
    ensures var o := ConsumeWindow(before, limit, windowMs, t);
            Counted(w, limit, from, inOpen + (if t - w.start < windowMs then 1 else 0), total + 1,
                    admits + (if o.admitted then 1 else 0), o.next)
  {
  }

  lemma OneMoreRequest(w: Window, limit: nat, windowMs: int, front: seq<int>, t: int)
    ensures var o := ConsumeWindow(RunWindow(w, limit, windowMs, front), limit, windowMs, t);
            && RunWindow(w, limit, windowMs, front + [t]) == o.next
            && WindowAdmits(w, limit, windowMs, front + [t])
            == WindowAdmits(w, limit, windowMs, front) + (if o.admitted then 1 else 0)
    ensures InOpenWindow(w, windowMs, front + [t]) == InOpenWindow(w, windowMs, front) + if t - w.start < windowMs then 1 else 0
  {
    assert (front + [t])[..|front|] == front;
  }

  /** The exact count in any half-open interval of one window length: those that still fall into the
      open window take what the limit leaves there, the rest fill one fresh window. */
  lemma {:induction false} WindowAdmitsExactly(w: Window, limit: nat, windowMs: int, times: seq<int>, from: int)
    requires windowMs > 0 && w.count <= limit
    requires NonDecreasing(times) && forall t <- times :: from <= t < from + windowMs
    ensures Counted(w, limit, from, InOpenWindow(w, windowMs, times), |times|,
                    WindowAdmits(w, limit, windowMs, times), RunWindow(w, limit, windowMs, times))
    decreases |times|
  {
    if times == [] {
    } else {
      hide RunWindow, WindowAdmits, InOpenWindow, Counted, ConsumeWindow, NonDecreasing;
      var front, t := times[..|times| - 1], times[|times| - 1];
      assert front + [t] == times && t in times;
      assert forall u <- front :: u in times;
      PrefixNonDecreasing(front, t);
      WindowAdmitsExactly(w, limit, windowMs, front, from);
      LateRequestIsLast(w, windowMs, front, t);
      OneMoreRequest(w, limit, windowMs, front, t);
      OneMoreCounted(w, limit, windowMs, from, InOpenWindow(w, windowMs, front), |front|,
                     WindowAdmits(w, limit, windowMs, front), RunWindow(w, limit, windowMs, front), t);
    }
  }

  /** So more than the limit is admitted iff a window boundary splits the requests and the two sides
      together have room for more. */
  lemma ExceedsLimitIff(w: Window, limit: nat, windowMs: int, times: seq<int>, from: int)
    requires windowMs > 0 && w.count <= limit
    requires NonDecreasing(times) && forall t <- times :: from <= t < from + windowMs
    ensures var before := InOpenWindow(w, windowMs, times);
            var after := |times| - before;
            WindowAdmits(w, limit, windowMs, times) > limit <==>
            && before > 0 && after > w.count
            && w.count < limit < before + after
  {
    WindowAdmitsExactly(w, limit, windowMs, times, from);
  }

  function Burst(n: nat, t: int): (times: seq<int>)
    ensures |times| == n && forall i :: 0 <= i < n ==> times[i] == t
  {
    seq(n, _ => t)
  }

  lemma {:induction false} BurstSplit(n: nat, k: nat, windowMs: int)
    ensures InOpenWindow(Window(0, 0), windowMs, Burst(n, windowMs - 1) + Burst(k, windowMs)) == n
    decreases n + k
  {
    var times := Burst(n, windowMs - 1) + Burst(k, windowMs);
    if k > 0 {
      assert times[..|times| - 1] == Burst(n, windowMs - 1) + Burst(k - 1, windowMs);
      BurstSplit(n, k - 1, windowMs);
    } else if n > 0 {
      assert times[..|times| - 1] == Burst(n - 1, windowMs - 1) + Burst(0, windowMs);
      BurstSplit(n - 1, 0, windowMs);
    }
  }

  /** The bound is reached for every limit: all requests at the end of one window, as many at the start
      of the next. */
  lemma TwiceTheLimitHappens(limit: nat, windowMs: int)
    requires windowMs > 1
    ensures WindowAdmits(Window(0, 0), limit, windowMs, Burst(limit, windowMs - 1) + Burst(limit, windowMs)) == 2 * limit
  {
    var first, second := Burst(limit, windowMs - 1), Burst(limit, windowMs);
    var times := first + second;
    BurstSplit(limit, limit, windowMs);
    WindowAdmitsExactly(Window(0, 0), limit, windowMs, times, windowMs - 1);
  }

  lemma {:induction false} RunWindowSplit(w: Window, limit: nat, windowMs: int, a: seq<int>, b: seq<int>)
    ensures RunWindow(w, limit, windowMs, a + b) == RunWindow(RunWindow(w, limit, windowMs, a), limit, windowMs, b)
    decreases |b|
  {
    hide ConsumeWindow;
    if b == [] {
      assert a + b == a;
    } else {
      var front := b[..|b| - 1];
      assert (a + b)[..|a + b| - 1] == a + front;
      RunWindowSplit(w, limit, windowMs, a, front);
    }
  }

  // ---- Token bucket ----

  function RunBucket(b: Bucket, refill: real, capacity: real, times: seq<int>): Bucket
    decreases |times|
  {
    if times == [] then b
    else ConsumeBucket(RunBucket(b, refill, capacity, times[..|times| - 1]), refill, capacity, times[|times| - 1]).next
  }

  function BucketAdmits(b: Bucket, refill: real, capacity: real, times: seq<int>): nat
    decreases |times|
  {
    if times == [] then 0
    else
      var front := times[..|times| - 1];
      BucketAdmits(b, refill, capacity, front)
      + if ConsumeBucket(RunBucket(b, refill, capacity, front), refill, capacity, times[|times| - 1]).admitted then 1 else 0
  }

  function Earned(refill: real, from: int, to: int): real {
    (to - from) as real / 1000.0 * refill
  }

  lemma EarnedAdds(refill: real, a: int, b: int, c: int)
    ensures Earned(refill, a, c) == Earned(refill, a, b) + Earned(refill, b, c)
  {
    assert (c - a) as real / 1000.0 == (b - a) as real / 1000.0 + (c - b) as real / 1000.0;
  }

  /** One request: tokens stay within capacity, and an admitted request is paid for. */
  lemma BucketStep(b: Bucket, refill: real, capacity: real, now: int)
    requires 0.0 <= b.tokens <= capacity && refill >= 0.0 && b.lastRefillAt <= now
    ensures var o := ConsumeBucket(b, refill, capacity, now);
            && 0.0 <= o.next.tokens <= capacity
            && o.next.lastRefillAt == now
            && o.next.tokens + (if o.admitted then 1.0 else 0.0) <= capacity
            && o.next.tokens + (if o.admitted then 1.0 else 0.0) <= b.tokens + Earned(refill, b.lastRefillAt, now)
  {
    assert Earned(refill, b.lastRefillAt, now) >= 0.0;
  }

  lemma {:induction false} BucketPays(b: Bucket, refill: real, capacity: real, times: seq<int>, from: int)
    requires 0.0 <= b.tokens <= capacity && refill >= 0.0
    requires b.lastRefillAt <= from && NonDecreasing(times) && forall t <- times :: from <= t
    ensures var after := RunBucket(b, refill, capacity, times);
            && 0.0 <= after.tokens <= capacity
            && (times != [] ==>
                  && after.lastRefillAt == times[|times| - 1]
                  && after.tokens + BucketAdmits(b, refill, capacity, times) as real
                     <= capacity + Earned(refill, times[0], times[|times| - 1]))
            && (times == [] ==> after == b)
    decreases |times|
  {
    hide ConsumeBucket, Earned;
    if times == [] {
    } else {
      var last := |times| - 1;
      var front := times[..last];
      assert forall t <- front :: t in times;
      assert times[last] in times;
      BucketPays(b, refill, capacity, front, from);
      var before := RunBucket(b, refill, capacity, front);
      BucketStep(before, refill, capacity, times[last]);
      if front == [] {
        assert Earned(refill, times[0], times[last]) == 0.0 by { EarnedAdds(refill, times[0], times[0], times[0]); }
      } else {
        EarnedAdds(refill, times[0], times[last - 1], times[last]);
      }
    }
  }

  /** A bucket that started full stays within its capacity, and any later stretch of requests is
      admitted at most capacity plus what the stretch's own duration earns. */
  lemma BucketAdmitsAtMostEarned(capacity: real, refill: real, start: int, before: seq<int>, times: seq<int>)
    requires capacity >= 0.0 && refill >= 0.0 && times != []
    requires NonDecreasing(before + times) && forall t <- before + times :: start <= t
    ensures var b := RunBucket(Bucket(capacity, start), refill, capacity, before);
            && 0.0 <= b.tokens <= capacity
            && BucketAdmits(b, refill, capacity, times) as real
               <= capacity + Earned(refill, times[0], times[|times| - 1])
  {
    hide ConsumeBucket, Earned;
    var all := before + times;
    assert forall i :: 0 <= i < |before| ==> before[i] == all[i];
    assert forall i :: 0 <= i < |times| ==> times[i] == all[|before| + i];
    assert forall t <- before :: t in all;
    BucketPays(Bucket(capacity, start), refill, capacity, before, start);
    var b := RunBucket(Bucket(capacity, start), refill, capacity, before);
    assert b.lastRefillAt <= times[0] by {
      assert times[0] in all;
      if before != [] {
        assert before[|before| - 1] == all[|before| - 1];
      }
    }
    BucketPays(b, refill, capacity, times, times[0]);
  }

  // ---- What a bucket lets through ----

  /** One request is admitted iff what is left and what has been earned since, up to the capacity, make a
      whole token, and that token is all it costs. */
  lemma BucketBalance(b: Bucket, refill: real, capacity: real, now: int)
    requires b.lastRefillAt <= now
    ensures var o, held := ConsumeBucket(b, refill, capacity, now), b.tokens + Earned(refill, b.lastRefillAt, now);
            var kept := if held < capacity then held else capacity;
            && (o.admitted <==> kept >= 1.0)
            && o.next.tokens == kept - (if o.admitted then 1.0 else 0.0)
            && o.next.lastRefillAt == now
  {
  }

  lemma SameInstantEarnsNothing(refill: real, t: int)
    ensures Earned(refill, t, t) == 0.0
  {
  }

  /** Requests at one instant are admitted one for each whole token in the bucket, and no more. */
  lemma {:induction false} BurstIsServed(b: Bucket, refill: real, capacity: real, n: nat, t: int)
    requires 0.0 <= b.tokens <= capacity && b.lastRefillAt == t
    ensures var served, after := Lesser(n, b.tokens.Floor), RunBucket(b, refill, capacity, Burst(n, t));
            && BucketAdmits(b, refill, capacity, Burst(n, t)) == served
            && after == Bucket(b.tokens - served as real, t)
    decreases n
  {
    hide ConsumeBucket, Earned;
    if n == 0 {
      assert Burst(0, t) == [];
    } else {
      var burst := Burst(n, t);
      assert burst[..n - 1] == Burst(n - 1, t) && burst[n - 1] == t;
      BurstIsServed(b, refill, capacity, n - 1, t);
      SameInstantEarnsNothing(refill, t);
      BucketBalance(RunBucket(b, refill, capacity, Burst(n - 1, t)), refill, capacity, t);
    }
  }

  /** A client that keeps to the rate is never refused: if every request comes at least one token's worth
      of time after the one before, all of them are admitted. */
  lemma {:induction false} SteadyRequestsAreServed(b: Bucket, refill: real, capacity: real, times: seq<int>)
    requires capacity >= 1.0 && b.tokens >= 0.0 && refill >= 0.0
    requires NonDecreasing(times)
    requires times != [] ==> b.lastRefillAt <= times[0] && Earned(refill, b.lastRefillAt, times[0]) >= 1.0
    requires forall i :: 0 <= i < |times| - 1 ==> Earned(refill, times[i], times[i + 1]) >= 1.0
    ensures BucketAdmits(b, refill, capacity, times) == |times|
    ensures var after := RunBucket(b, refill, capacity, times);
            && after.tokens >= 0.0
            && after.lastRefillAt == if times == [] then b.lastRefillAt else times[|times| - 1]
    decreases |times|
  {
    hide ConsumeBucket, Earned;
    if times == [] {
    } else {
      var last := |times| - 1;
      var front := times[..last];
      SteadyRequestsAreServed(b, refill, capacity, front);
      BucketBalance(RunBucket(b, refill, capacity, front), refill, capacity, times[last]);
    }
  }

  class WindowCounter {
    var windowStart: int
    var count: nat

    constructor (now: int)
      ensures windowStart == now && count == 0
    {
      windowStart, count := now, 0;
    }

    method Consume(limit: nat, windowMs: int, now: int) returns (admitted: bool)
      modifies this
      ensures Outcome(Window(windowStart, count), admitted)
           == ConsumeWindow(old(Window(windowStart, count)), limit, windowMs, now)
    {
      if now - windowStart >= windowMs {
        windowStart := now;
        count := 0;
      }
      if count >= limit {
        return false;
      }
      count := count + 1;
      admitted := true;
    }
  }

  class TokenBucket {
    var tokens: real
    var lastRefillAt: int

    constructor (capacity: real, now: int)
      ensures tokens == capacity && lastRefillAt == now
    {
      tokens, lastRefillAt := capacity, now;
    }

    method Consume(refillPerSecond: real, capacity: real, now: int) returns (admitted: bool)
      modifies this
      ensures Outcome(Bucket(tokens, lastRefillAt), admitted)
           == ConsumeBucket(old(Bucket(tokens, lastRefillAt)), refillPerSecond, capacity, now)
    {
      var elapsedMs := if now > lastRefillAt then now - lastRefillAt else 0;
      var refill := elapsedMs as real / 1000.0 * refillPerSecond;
      tokens := if tokens + refill < capacity then tokens + refill else capacity;
      lastRefillAt := now;
      if tokens < 1.0 {
        return false;
      }
      tokens := tokens - 1.0;
      admitted := true;
    }
  }
}
