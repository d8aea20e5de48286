/** The sliding-window rate limiter of the auth endpoints (rust-core/src/http.rs). */
module RateLimits {
  /** Length of the window and calls allowed in it; times are in the clock's own unit. */
  datatype Config = Config(window: nat, max: nat)

  datatype Call = Call(key: string, now: nat)

  type Buckets = map<string, seq<nat>>

  predicate InWindow(c: Config, t: nat, now: nat) {
    (if now < t then 0 else now - t) < c.window
  }

  /** `retain`: the entries still inside the window, in order. */
  function Kept(c: Config, entries: seq<nat>, now: nat): seq<nat> {
    if |entries| == 0 then []
    else
      var last := entries[|entries| - 1];
      Kept(c, entries[..|entries| - 1], now) + (if InWindow(c, last, now) then [last] else [])
  }

  function Bucket(b: Buckets, key: string): seq<nat> {
    if key in b then b[key] else []
  }

  /** One call: whether it is let through, and the buckets after it. */
  function Check(c: Config, b: Buckets, call: Call): (bool, Buckets) {
    var kept := Kept(c, Bucket(b, call.key), call.now);
    if |kept| >= c.max then (false, b[call.key := kept])
    else (true, b[call.key := kept + [call.now]])
  }

  function Run(c: Config, calls: seq<Call>): Buckets {
    if |calls| == 0 then map[]
    else Check(c, Run(c, calls[..|calls| - 1]), calls[|calls| - 1]).1
  }

  predicate LetThrough(c: Config, calls: seq<Call>, i: nat)
    requires i < |calls|
  {
    Check(c, Run(c, calls[..i]), calls[i]).0
  }

  /** The times at which calls with this key were let through. */
  function Accepted(c: Config, calls: seq<Call>, key: string): seq<nat> {
    if |calls| == 0 then []
    else
      var n := |calls| - 1;
      Accepted(c, calls[..n], key) +
      (if calls[n].key == key && LetThrough(c, calls, n) then [calls[n].now] else [])
  }

  /** The clock of a run does not go back. */
  predicate Monotone(calls: seq<Call>) {
    forall i, j :: 0 <= i <= j < |calls| ==> calls[i].now <= calls[j].now
  }

  predicate NoLaterThan(times: seq<nat>, now: nat) {
    forall i :: 0 <= i < |times| ==> times[i] <= now
  }

  // ---- Dropped entries are not missed -------------------------------------------

  lemma {:induction false} KeptTwice(c: Config, entries: seq<nat>, now: nat, later: nat)
    requires now <= later && NoLaterThan(entries, now)
    ensures Kept(c, Kept(c, entries, now), later) == Kept(c, entries, later)
    ensures NoLaterThan(Kept(c, entries, now), now)
  {
    if |entries| > 0 {
      var front, last := entries[..|entries| - 1], entries[|entries| - 1];
      KeptTwice(c, front, now, later);
      if InWindow(c, last, now) {
        KeptSnoc(c, Kept(c, front, now), last, later);
      } else {
        assert Kept(c, entries, now) == Kept(c, front, now);
      }
    }
  }

  lemma KeptSnoc(c: Config, entries: seq<nat>, t: nat, now: nat)
    ensures Kept(c, entries + [t], now) == Kept(c, entries, now) + if InWindow(c, t, now) then [t] else []
  {
    var all := entries + [t];
    assert all[..|all| - 1] == entries;
  }

  lemma CheckBucket(c: Config, b: Buckets, call: Call, key: string, now: nat)
    requires NoLaterThan(Bucket(b, key), call.now) && call.now <= now
    ensures
      var r := Check(c, b, call);
      && NoLaterThan(Bucket(r.1, key), call.now)
      && Kept(c, Bucket(r.1, key), now)
         == Kept(c, Bucket(b, key), now) + if call.key == key && r.0 && InWindow(c, call.now, now) then [call.now] else []
  {
    hide InWindow;
    if call.key == key {
      var entries := Bucket(b, key);
      KeptTwice(c, entries, call.now, now);
      KeptSnoc(c, Kept(c, entries, call.now), call.now, now);
    }
  }

  /** For any time from now on, the bucket keeps exactly the accepted calls that still count. */
  lemma {:induction false} BucketHoldsAccepted(c: Config, calls: seq<Call>, key: string, now: nat)
    requires Monotone(calls) && forall i :: 0 <= i < |calls| ==> calls[i].now <= now
    ensures Kept(c, Bucket(Run(c, calls), key), now) == Kept(c, Accepted(c, calls, key), now)
    ensures NoLaterThan(Bucket(Run(c, calls), key), now) && NoLaterThan(Accepted(c, calls, key), now)
  {
    hide Check, Kept, InWindow, Bucket;
    if |calls| == 0 {
      assert Bucket(map[], key) == [] by {
        EmptyBucket(key);
      }
    } else {
      var n := |calls| - 1;
      var front, last := calls[..n], calls[n];
      BucketHoldsAccepted(c, front, key, last.now);
      BucketHoldsAccepted(c, front, key, now);
      CheckBucket(c, Run(c, front), last, key, now);
      var accepted := Accepted(c, front, key);
      if last.key == key && LetThrough(c, calls, n) {
        KeptSnoc(c, accepted, last.now, now);
      } else {
        assert Accepted(c, calls, key) == accepted;
      }
    }
  }

  lemma EmptyBucket(key: string)
    ensures Bucket(map[], key) == []
  {
  }

  /** A call is refused exactly when the last window already holds the allowed number. */
  lemma RefusedIffFull(c: Config, calls: seq<Call>, i: nat)
    requires Monotone(calls) && i < |calls|
    ensures !LetThrough(c, calls, i)
            <==> |Kept(c, Accepted(c, calls[..i], calls[i].key), calls[i].now)| >= c.max
  {
    BucketHoldsAccepted(c, calls[..i], calls[i].key, calls[i].now);
  }

  lemma NextCall(c: Config, calls: seq<Call>, call: Call)
    ensures LetThrough(c, calls + [call], |calls|) == Check(c, Run(c, calls), call).0
    ensures Run(c, calls + [call]) == Check(c, Run(c, calls), call).1
    ensures Monotone(calls + [call]) ==>
              (LetThrough(c, calls + [call], |calls|) <==> |Kept(c, Accepted(c, calls, call.key), call.now)| < c.max)
  {
    hide Check, Kept;
    var all := calls + [call];
    assert all[..|calls|] == calls && all[..|all| - 1] == calls;
    if Monotone(all) {
      RefusedIffFull(c, all, |calls|);
    }
  }

  // ---- No burst ------------------------------------------------------------------------

  /** How many of the times fall into [from, until). */
  function CountIn(times: seq<nat>, from: int, until: int): nat {
    if |times| == 0 then 0
    else CountIn(times[..|times| - 1], from, until) + (if from <= times[|times| - 1] < until then 1 else 0)
  }

  lemma {:induction false} CountWithinKept(c: Config, times: seq<nat>, from: int, until: int, now: nat)
    requires until - from <= c.window && from <= now < until && NoLaterThan(times, now)
    ensures CountIn(times, from, until) <= |Kept(c, times, now)|
  {
    if |times| > 0 {
      CountWithinKept(c, times[..|times| - 1], from, until, now);
    }
  }

  lemma {:induction false} KeptCounts(c: Config, times: seq<nat>, now: nat)
    requires NoLaterThan(times, now)
    ensures |Kept(c, times, now)| == CountIn(times, now - c.window + 1, now + 1)
  {
    if |times| > 0 {
      KeptCounts(c, times[..|times| - 1], now);
    }
  }

  /** Told in times alone: a call is refused iff at least `max` of its key were let through in the window that ends with it. */
  lemma RefusedIffWindowFull(c: Config, calls: seq<Call>, i: nat)
    requires Monotone(calls) && i < |calls|
    ensures !LetThrough(c, calls, i)
            <==> CountIn(Accepted(c, calls[..i], calls[i].key), calls[i].now - c.window + 1, calls[i].now + 1) >= c.max
  {
    hide LetThrough, Run, Accepted, Kept, CountIn, Bucket, InWindow;
    RefusedIffFull(c, calls, i);
    assert forall j :: 0 <= j < i ==> calls[..i][j] == calls[j];
    BucketHoldsAccepted(c, calls[..i], calls[i].key, calls[i].now);
    KeptCounts(c, Accepted(c, calls[..i], calls[i].key), calls[i].now);
  }

  lemma CountSnoc(times: seq<nat>, t: nat, from: int, until: int)
    ensures CountIn(times + [t], from, until) == CountIn(times, from, until) + if from <= t < until then 1 else 0
  {
    var all := times + [t];
    assert all[..|all| - 1] == times;
  }

  /** No stretch of time as long as the window contains more than `max` accepted calls of a key. */
  lemma {:induction false} NoBurst(c: Config, calls: seq<Call>, key: string, from: int, until: int)
    requires Monotone(calls) && until - from <= c.window
    ensures CountIn(Accepted(c, calls, key), from, until) <= c.max
  {
    if |calls| > 0 {
      var n := |calls| - 1;
      var front, last := calls[..n], calls[n];
      NoBurst(c, front, key, from, until);
      var before := Accepted(c, front, key);
      if last.key != key || !LetThrough(c, calls, n) {
        assert Accepted(c, calls, key) == before;
      } else {
        assert Accepted(c, calls, key) == before + [last.now];
        CountSnoc(before, last.now, from, until);
        if from <= last.now < until {
          BucketHoldsAccepted(c, front, key, last.now);
          RefusedIffFull(c, calls, n);
          CountWithinKept(c, before, from, until, last.now);
        }
      }
    }
  }
}

module RateLimiterRuntime {
  import opened RateLimits

  class RateLimiter {
    const config: Config
    var buckets: Buckets
    /** Every call so far. */
    ghost var calls: seq<Call>

    ghost predicate Valid()
      reads this
    {
      buckets == Run(config, calls)
    }

    constructor (window: nat, max: nat)
      ensures Valid() && config == Config(window, max) && calls == []
    {
      config := Config(window, max);
      buckets := map[];
      calls := [];
    }

    method Check(key: string, now: nat) returns (ok: bool)
      requires Valid()
      modifies this
      ensures Valid() && calls == old(calls) + [Call(key, now)]
      ensures ok <==> LetThrough(config, calls, |old(calls)|)
      ensures Monotone(calls) ==>
                (ok <==> |Kept(config, Accepted(config, old(calls), key), now)| < config.max)
    {
      hide LetThrough, Monotone, Accepted, Run;
      NextCall(config, calls, Call(key, now));
      calls := calls + [Call(key, now)];
      var entries := if key in buckets then buckets[key] else [];
      var kept: seq<nat> := [];
      for i := 0 to |entries|
        invariant kept == Kept(config, entries[..i], now)
      {
        assert entries[..i + 1][..i] == entries[..i];
        var elapsed := if now < entries[i] then 0 else now - entries[i];
        if elapsed < config.window {
          kept := kept + [entries[i]];
        }
      }
      assert entries[..|entries|] == entries;
      if |kept| >= config.max {
        buckets := buckets[key := kept];
        return false;
      }
      buckets := buckets[key := kept + [now]];
      return true;
    }
  }
}
