/** The fixed-window rate limiter, and how many calls any window-long stretch of time can see accepted. */
module RateLimiter {
  import opened Common

  datatype Bucket = Bucket(count: int, resetAt: int)

  datatype RateLimited = RateLimited(retryAfterMs: int)

  type Buckets = map<string, Bucket>

  /** Whether a call at `now` opens a new window. */
  predicate OpensWindow(buckets: Buckets, key: string, now: int) { key !in buckets || now >= buckets[key].resetAt }

  predicate Accepts(maxRequests: int, buckets: Buckets, key: string, now: int) {
    OpensWindow(buckets, key, now) || buckets[key].count < maxRequests
  }

  function After(maxRequests: int, windowMs: int, buckets: Buckets, key: string, now: int): Buckets {
    if OpensWindow(buckets, key, now) then buckets[key := Bucket(1, now + windowMs)]
    else if buckets[key].count >= maxRequests then buckets
    else buckets[key := Bucket(buckets[key].count + 1, buckets[key].resetAt)]
  }

  class RateLimiter {
    const maxRequests: int
    const windowMs: int
    var buckets: Buckets

    constructor (maxRequests: int, windowMs: int)
      ensures buckets == map[] && this.maxRequests == maxRequests && this.windowMs == windowMs
    {
      this.maxRequests := maxRequests;
      this.windowMs := windowMs;
      buckets := map[];
    }

    method Check(key: string, now: int) returns (r: Result<(), RateLimited>)
      modifies this
      ensures r.Ok? <==> Accepts(maxRequests, old(buckets), key, now)
      ensures buckets == After(maxRequests, windowMs, old(buckets), key, now)
      ensures r.Err? ==> key in buckets && r.error.retryAfterMs == buckets[key].resetAt - now > 0
    {
      if key !in buckets || now >= buckets[key].resetAt {
        buckets := buckets[key := Bucket(1, now + windowMs)];
        return Ok(());
      }
      var bucket := buckets[key];
      if bucket.count >= maxRequests {
        return Err(RateLimited(bucket.resetAt - now));
      }
      bucket := bucket.(count := bucket.count + 1);
      buckets := buckets[key := bucket];
      return Ok(());
    }
  }

  // ---- whole runs ----

  datatype Call = Call(key: string, now: int)

  function BucketsAfter(maxRequests: int, windowMs: int, calls: seq<Call>): Buckets {
    if calls == [] then map[]
    else
      var call := calls[|calls| - 1];
      After(maxRequests, windowMs, BucketsAfter(maxRequests, windowMs, calls[..|calls| - 1]), call.key, call.now)
  }

  /** The accepted calls for `key` at a time in `[from, from + windowMs)`. */
  function AcceptedIn(maxRequests: int, windowMs: int, calls: seq<Call>, key: string, from: int): nat {
    if calls == [] then 0
    else
      var front, call := calls[..|calls| - 1], calls[|calls| - 1];
      AcceptedIn(maxRequests, windowMs, front, key, from)
      + (if call.key == key && from <= call.now < from + windowMs
            && Accepts(maxRequests, BucketsAfter(maxRequests, windowMs, front), key, call.now)
         then 1 else 0)
  }

  /** The calls made for `key`. */
  function CallsFor(calls: seq<Call>, key: string): nat {
    if calls == [] then 0 else CallsFor(calls[..|calls| - 1], key) + (if calls[|calls| - 1].key == key then 1 else 0)
  }

  /** A window that opens at `t` lasts a window length and serves the first `maxRequests` calls in it and no others,
      the opening one included and served in any case, whatever other keys do meanwhile; after that the next call opens
      another. */
  lemma {:induction false} WindowServes(maxRequests: int, windowMs: int, calls: seq<Call>, key: string, t: int,
                                        more: seq<Call>, now: int)
    requires OpensWindow(BucketsAfter(maxRequests, windowMs, calls), key, t)
    requires forall i :: 0 <= i < |more| && more[i].key == key ==> more[i].now < t + windowMs
    ensures var buckets := BucketsAfter(maxRequests, windowMs, calls + [Call(key, t)] + more);
            && key in buckets && buckets[key] == Bucket(Min(1 + CallsFor(more, key), Max(1, maxRequests)), t + windowMs)
            && (now < t + windowMs ==>
                  (Accepts(maxRequests, buckets, key, now) <==> 1 + CallsFor(more, key) < maxRequests))
            && (now >= t + windowMs ==> Accepts(maxRequests, buckets, key, now) && OpensWindow(buckets, key, now))
    decreases |more|
  {
    var all := calls + [Call(key, t)] + more;
    if more == [] {
      assert all[..|all| - 1] == calls;
    } else {
      assert all[..|all| - 1] == calls + [Call(key, t)] + more[..|more| - 1];
      WindowServes(maxRequests, windowMs, calls, key, t, more[..|more| - 1], now);
    }
  }

  /** A key that was never called opens a window with its first call. */
  lemma {:induction false} FirstCallOpens(maxRequests: int, windowMs: int, calls: seq<Call>, key: string, t: int)
    requires CallsFor(calls, key) == 0
    ensures OpensWindow(BucketsAfter(maxRequests, windowMs, calls), key, t)
    ensures key !in BucketsAfter(maxRequests, windowMs, calls)
  {
    if calls != [] { FirstCallOpens(maxRequests, windowMs, calls[..|calls| - 1], key, t); }
  }

  predicate ClockForward(calls: seq<Call>) {
    forall i, j :: 0 <= i < j < |calls| ==> calls[i].now <= calls[j].now
  }

  /** What the bucket of `key` says about the `count` calls accepted in `[from, from + windowMs)` so far.
      A window that began before `from` spent at least one of its calls outside. */
  ghost predicate Accounted(maxRequests: int, windowMs: int, buckets: Buckets, key: string, from: int,
                            latest: Option<int>, count: nat)
  {
    if key !in buckets then count == 0
    else
      var Bucket(used, resetAt) := buckets[key];
      var start := resetAt - windowMs;
      && 1 <= used <= maxRequests
      && (latest.Some? ==> start <= latest.value)
      && (latest.Some? && latest.value < from ==> count == 0)
      && (start < from ==> count <= used - 1)
      && (from <= start < from + windowMs ==> count <= maxRequests - 1 + used)
      && (start >= from + windowMs ==> count <= 2 * maxRequests - 1)
  }

  lemma {:induction false} CallsAreAccounted(maxRequests: int, windowMs: int, calls: seq<Call>, key: string, from: int)
    requires windowMs > 0 && ClockForward(calls)
    ensures Accounted(Max(1, maxRequests), windowMs, BucketsAfter(maxRequests, windowMs, calls), key, from,
                      if calls == [] then None else Some(calls[|calls| - 1].now),
                      AcceptedIn(maxRequests, windowMs, calls, key, from))
  {
    if calls != [] { CallsAreAccounted(maxRequests, windowMs, calls[..|calls| - 1], key, from); }
  }

  /** The same for a window of length one, which is a single moment: all its calls fall into one bucket. */
  ghost predicate AccountedOnce(maxRequests: int, buckets: Buckets, key: string, from: int, latest: Option<int>,
                              count: nat) {
    if key !in buckets then count == 0
    else
      var Bucket(used, resetAt) := buckets[key];
      && 1 <= used <= maxRequests
      && (latest.Some? ==> resetAt - 1 <= latest.value)
      && (resetAt - 1 < from ==> count == 0)
      && (resetAt - 1 == from ==> count <= used)
      && count <= maxRequests
  }

  lemma {:induction false} MomentsAreAccounted(maxRequests: int, calls: seq<Call>, key: string, from: int)
    requires ClockForward(calls)
    ensures AccountedOnce(Max(1, maxRequests), BucketsAfter(maxRequests, 1, calls), key, from,
                          if calls == [] then None else Some(calls[|calls| - 1].now),
                          AcceptedIn(maxRequests, 1, calls, key, from))
  {
    if calls != [] { MomentsAreAccounted(maxRequests, calls[..|calls| - 1], key, from); }
  }

  /** The most calls one stretch of a window's length can see accepted: one fewer than two full windows, because windows
      start at least a window apart; one window's worth if the stretch is a single moment. A limit below one is one. */
  function Bound(maxRequests: int, windowMs: int): nat {
    if windowMs <= 0 then 0
    else if windowMs == 1 then Max(1, maxRequests)
    else 2 * Max(1, maxRequests) - 1
  }

  lemma {:induction false} NothingInEmptyStretch(maxRequests: int, windowMs: int, calls: seq<Call>, key: string,
                              from: int)
    requires windowMs <= 0
    ensures AcceptedIn(maxRequests, windowMs, calls, key, from) == 0
  {
    if calls != [] { NothingInEmptyStretch(maxRequests, windowMs, calls[..|calls| - 1], key, from); }
  }

  /** For every limit and window length, any half-open stretch of one window length stays within the bound. */
  lemma WindowBound(maxRequests: int, windowMs: int, calls: seq<Call>, key: string, from: int)
    requires ClockForward(calls)
    ensures AcceptedIn(maxRequests, windowMs, calls, key, from) <= Bound(maxRequests, windowMs)
  {
    if windowMs <= 0 {
      NothingInEmptyStretch(maxRequests, windowMs, calls, key, from);
    } else if windowMs == 1 {
      MomentsAreAccounted(maxRequests, calls, key, from);
    } else {
      CallsAreAccounted(maxRequests, windowMs, calls, key, from);
    }
  }

  function Burst(n: nat, t: int): seq<Call> { seq(n, _ => Call("k", t)) }

  /** Calls that fit into an open window are all accepted. */
  lemma {:induction false} BurstIsAccepted(maxRequests: int, windowMs: int, calls: seq<Call>, n: nat, t: int, from: int)
    requires var buckets := BucketsAfter(maxRequests, windowMs, calls);
             "k" in buckets && t < buckets["k"].resetAt && buckets["k"].count + n <= maxRequests
    requires from <= t < from + windowMs
    ensures var before, after := BucketsAfter(maxRequests, windowMs, calls),
        BucketsAfter(maxRequests, windowMs, calls + Burst(n, t));
            "k" in after && after["k"] == Bucket(before["k"].count + n, before["k"].resetAt)
    ensures AcceptedIn(maxRequests, windowMs, calls + Burst(n, t), "k", from)
         == AcceptedIn(maxRequests, windowMs, calls, "k", from) + n
    decreases n
  {
    hide BucketsAfter, AcceptedIn;
    if n == 0 {
      assert calls + Burst(0, t) == calls;
    } else {
      BurstIsAccepted(maxRequests, windowMs, calls, n - 1, t, from);
      assert calls + Burst(n, t) == calls + Burst(n - 1, t) + [Call("k", t)];
      CallIsAccepted(maxRequests, windowMs, calls + Burst(n - 1, t), t, from);
    }
  }

  /** A call into an open window with room left. */
  lemma CallIsAccepted(maxRequests: int, windowMs: int, calls: seq<Call>, t: int, from: int)
    requires var buckets := BucketsAfter(maxRequests, windowMs, calls);
             "k" in buckets && t < buckets["k"].resetAt && buckets["k"].count < maxRequests
    requires from <= t < from + windowMs
    ensures var before, after := BucketsAfter(maxRequests, windowMs, calls),
        BucketsAfter(maxRequests, windowMs, calls + [Call("k", t)]);
            "k" in after && after["k"] == Bucket(before["k"].count + 1, before["k"].resetAt)
    ensures AcceptedIn(maxRequests, windowMs, calls + [Call("k", t)], "k", from)
         == AcceptedIn(maxRequests, windowMs, calls, "k", from) + 1
  {
    var all := calls + [Call("k", t)];
    assert all[..|all| - 1] == calls && all[|all| - 1] == Call("k", t);
  }

  /** A run that meets the bound: one call, the rest of its window at the last moment, and a full window right after. */
  function TightRun(maxRequests: nat, windowMs: int): seq<Call>
    requires maxRequests >= 1
  {
    [Call("k", 0)] + Burst(maxRequests - 1, windowMs - 1) + [Call("k", windowMs)] + Burst(maxRequests - 1, windowMs)
  }

  /** A run and a stretch that meet the bound. */
  function Tightest(maxRequests: int, windowMs: int): (seq<Call>, int) {
    var limit := Max(1, maxRequests);
    if windowMs <= 0 then ([], 0)
    else if windowMs == 1 then ([Call("k", 0)] + Burst(limit - 1, 0), 0)
    else (TightRun(limit, windowMs), 1)
  }

  /** The bound cannot be improved for any limit and any window length. */
  lemma WindowBoundIsTight(maxRequests: int, windowMs: int)
    ensures var (calls, from) := Tightest(maxRequests, windowMs);
            ClockForward(calls) && AcceptedIn(maxRequests, windowMs, calls, "k", from) == Bound(maxRequests, windowMs)
  {
    var (calls, from) := Tightest(maxRequests, windowMs);
    LowLimitIsOne(maxRequests, windowMs, calls, "k", from);
    if windowMs == 1 {
      TightMoment(Max(1, maxRequests));
    } else if windowMs > 1 {
      TightStretch(Max(1, maxRequests), windowMs);
    }
  }

  ghost predicate CountsPositive(buckets: Buckets) { forall k :: k in buckets ==> buckets[k].count >= 1 }

  /** A limit below one still lets the call through that opens a window, and so acts as one. */
  lemma {:induction false} LowLimitIsOne(maxRequests: int, windowMs: int, calls: seq<Call>, key: string, from: int)
    ensures var limit := Max(1, maxRequests);
            && CountsPositive(BucketsAfter(maxRequests, windowMs, calls))
            && BucketsAfter(maxRequests, windowMs, calls) == BucketsAfter(limit, windowMs, calls)
            && AcceptedIn(maxRequests, windowMs, calls, key, from) == AcceptedIn(limit, windowMs, calls, key, from)
  {
    if calls != [] { LowLimitIsOne(maxRequests, windowMs, calls[..|calls| - 1], key, from); }
  }

  lemma TightMoment(maxRequests: nat)
    requires maxRequests >= 1
    ensures var calls := [Call("k", 0)] + Burst(maxRequests - 1, 0);
            ClockForward(calls) && AcceptedIn(maxRequests, 1, calls, "k", 0) == maxRequests
  {
    var first := [Call("k", 0)];
    assert first[..0] == [];
    assert BucketsAfter(maxRequests, 1, first) == map["k" := Bucket(1, 1)];
    assert AcceptedIn(maxRequests, 1, first, "k", 0) == 1;
    hide BucketsAfter, AcceptedIn;
    BurstIsAccepted(maxRequests, 1, first, maxRequests - 1, 0, 0);
  }

  lemma TightStretch(maxRequests: nat, windowMs: int)
    requires maxRequests >= 1 && windowMs >= 2
    ensures ClockForward(TightRun(maxRequests, windowMs))
    ensures AcceptedIn(maxRequests, windowMs, TightRun(maxRequests, windowMs), "k", 1) == 2 * maxRequests - 1
  {
    hide BucketsAfter, AcceptedIn, ClockForward;
    TightRunIsForward(maxRequests, windowMs);
    var first := [Call("k", 0)];
    FirstCallIsOutside(maxRequests, windowMs);
    BurstIsAccepted(maxRequests, windowMs, first, maxRequests - 1, windowMs - 1, 1);
    var full := first + Burst(maxRequests - 1, windowMs - 1);
    ReopenedIsAccepted(maxRequests, windowMs, full, 1);
    BurstIsAccepted(maxRequests, windowMs, full + [Call("k", windowMs)], maxRequests - 1, windowMs, 1);
  }

  lemma TightRunIsForward(maxRequests: nat, windowMs: int)
    requires maxRequests >= 1 && windowMs >= 2
    ensures ClockForward(TightRun(maxRequests, windowMs))
  {
    var run := TightRun(maxRequests, windowMs);
    forall i | 0 <= i < |run|
      ensures run[i].now == if i == 0 then 0 else if i < maxRequests then windowMs - 1 else windowMs {
    }
  }

  lemma FirstCallIsOutside(maxRequests: nat, windowMs: int)
    requires windowMs >= 2
    ensures BucketsAfter(maxRequests, windowMs, [Call("k", 0)]) == map["k" := Bucket(1, windowMs)]
    ensures AcceptedIn(maxRequests, windowMs, [Call("k", 0)], "k", 1) == 0
  {
    assert [Call("k", 0)][..0] == [];
  }

  /** A call at the end of a full window opens the next one. */
  lemma ReopenedIsAccepted(maxRequests: nat, windowMs: int, calls: seq<Call>, from: int)
    requires maxRequests >= 1 && from <= windowMs < from + windowMs
    requires var buckets := BucketsAfter(maxRequests, windowMs, calls);
             "k" in buckets && buckets["k"].resetAt == windowMs
    ensures var after := BucketsAfter(maxRequests, windowMs, calls + [Call("k", windowMs)]);
            "k" in after && after["k"] == Bucket(1, 2 * windowMs)
    ensures AcceptedIn(maxRequests, windowMs, calls + [Call("k", windowMs)], "k", from)
         == AcceptedIn(maxRequests, windowMs, calls, "k", from) + 1
  {
    var all := calls + [Call("k", windowMs)];
    assert all[..|all| - 1] == calls && all[|all| - 1] == Call("k", windowMs);
  }
}
