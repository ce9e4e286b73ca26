/**
 * The fixed-window limiter of src/lib/security/rateLimit.ts. The module-level
 * `store` map is the field `store` of a `RateLimiter`; `Date.now()` is the
 * parameter `now`. `Step` is the pure meaning of one call, and every property
 * is proved about `Step` (and about `Calls`, a run of calls).
 */
module RateLimit {
  /** One key's window: the calls counted so far and the time it closes. */
  datatype Window = Window(count: int, resetAt: int)

  datatype Decision = Decision(allowed: bool, remaining: int, resetAt: int)

  type Store = map<string, Window>

  /** A call that opens a fresh window: no entry yet, or the old one closed at or before `now`. */
  predicate OpensWindow(store: Store, key: string, now: int) {
    key !in store || store[key].resetAt <= now
  }

  /** The new store and the decision of `rateLimit(key, { limit, windowMs })` at time `now`. */
  function Step(store: Store, key: string, limit: int, windowMs: int, now: int): (Store, Decision) {
    if OpensWindow(store, key, now) then
      (store[key := Window(1, now + windowMs)], Decision(true, limit - 1, now + windowMs))
    else if store[key].count >= limit then
      (store, Decision(false, 0, store[key].resetAt))
    else
      var w := Window(store[key].count + 1, store[key].resetAt);
      (store[key := w], Decision(true, limit - w.count, w.resetAt))
  }

  class RateLimiter {
    var store: Store

    constructor()
      ensures store == map[]
    {
      store := map[];
    }

    /** `rateLimit` (lines 13-33). */
    method RateLimit(key: string, limit: int, windowMs: int, now: int) returns (d: Decision)
      modifies this
      ensures (store, d) == Step(old(store), key, limit, windowMs, now)
    {
      if key !in store || store[key].resetAt <= now {
        store := store[key := Window(1, now + windowMs)];
        return Decision(true, limit - 1, now + windowMs);
      }
      var existing := store[key];
      if existing.count >= limit {
        return Decision(false, 0, existing.resetAt);
      }
      existing := existing.(count := existing.count + 1);
      store := store[key := existing];
      d := Decision(true, limit - existing.count, existing.resetAt);
    }
  }

  // ---------------------------------------------------------------------------
  // One call

  /** A new or expired key restarts at count 1, closing `windowMs` after `now`; the call is allowed. */
  lemma NewWindow(store: Store, key: string, limit: int, windowMs: int, now: int)
    requires OpensWindow(store, key, now)
    ensures var (s, d) := Step(store, key, limit, windowMs, now);
      s[key] == Window(1, now + windowMs) &&
      d.allowed && d.remaining == limit - 1 && d.resetAt == now + windowMs
  {
  }

  /** A full open window denies the call with nothing remaining and leaves the store as it was. */
  lemma Denied(store: Store, key: string, limit: int, windowMs: int, now: int)
    requires !OpensWindow(store, key, now) && store[key].count >= limit
    ensures var (s, d) := Step(store, key, limit, windowMs, now);
      s == store && !d.allowed && d.remaining == 0 && d.resetAt == store[key].resetAt
  {
  }

  /** Otherwise the count goes up by exactly one in the same window and `remaining` is what is left of the limit. */
  lemma Counted(store: Store, key: string, limit: int, windowMs: int, now: int)
    requires !OpensWindow(store, key, now) && store[key].count < limit
    ensures var (s, d) := Step(store, key, limit, windowMs, now);
      s[key].count == store[key].count + 1 && s[key].resetAt == store[key].resetAt &&
      d.allowed && d.remaining == limit - s[key].count && d.resetAt == store[key].resetAt
  {
  }

  /** A call is allowed exactly when it opens a window or the open window is below the limit. */
  lemma AllowedIff(store: Store, key: string, limit: int, windowMs: int, now: int)
    ensures Step(store, key, limit, windowMs, now).1.allowed <==>
            OpensWindow(store, key, now) || store[key].count < limit
  {
  }

  /** Only the entry of `key` can change, and after the call it exists. */
  lemma OnlyKeyChanges(store: Store, key: string, limit: int, windowMs: int, now: int, other: string)
    requires other != key
    ensures var s := Step(store, key, limit, windowMs, now).0;
      key in s && (other in s <==> other in store) && (other in store ==> s[other] == store[other])
  {
  }

  /** Every stored count is between 1 and the limit. */
  predicate Bounded(store: Store, limit: int) {
    forall k | k in store :: 1 <= store[k].count <= limit
  }

  /** With a limit of at least 1 the bound is kept, and `remaining` lies in 0..limit-1. */
  lemma StepKeepsBounded(store: Store, key: string, limit: int, windowMs: int, now: int)
    requires limit >= 1 && Bounded(store, limit)
    ensures var (s, d) := Step(store, key, limit, windowMs, now);
      Bounded(s, limit) && 0 <= d.remaining <= limit - 1
  {
  }

  // ---------------------------------------------------------------------------
  // A run of calls for one key

  /** The store after calls at the given times, and how many of them were allowed. */
  function Calls(store: Store, key: string, limit: int, windowMs: int, times: seq<int>): (Store, nat)
    decreases |times|
  {
    if times == [] then (store, 0)
    else
      var (s1, d) := Step(store, key, limit, windowMs, times[0]);
      var (s2, n) := Calls(s1, key, limit, windowMs, times[1..]);
      (s2, n + if d.allowed then 1 else 0)
  }

  function Min(a: int, b: int): int {
    if a <= b then a else b
  }

  /**
   * Calls made before an open window closes are allowed until the limit is
   * reached and denied from then on; the window's end does not move.
   */
  lemma {:induction false} WithinWindow(store: Store, key: string, limit: int, windowMs: int, times: seq<int>)
    requires key in store && store[key].count <= limit
    requires forall i | 0 <= i < |times| :: times[i] < store[key].resetAt
    ensures var (s, n) := Calls(store, key, limit, windowMs, times);
      n == Min(|times|, limit - store[key].count) &&
      key in s && s[key].resetAt == store[key].resetAt
    decreases |times|
  {
    if times != [] {
      var s1 := Step(store, key, limit, windowMs, times[0]).0;
      assert key in s1 && s1[key].resetAt == store[key].resetAt;
      assert s1[key].count <= limit;
      WithinWindow(s1, key, limit, windowMs, times[1..]);
    }
  }

  /**
   * At most `limit` calls per key are allowed in one window: of the calls from
   * the one that opens a window up to that window's end, exactly the first
   * `limit` are allowed.
   */
  lemma AtMostLimitPerWindow(store: Store, key: string, limit: int, windowMs: int, times: seq<int>)
    requires limit >= 1 && |times| >= 1 && OpensWindow(store, key, times[0])
    requires forall i | 1 <= i < |times| :: times[i] < times[0] + windowMs
    ensures Calls(store, key, limit, windowMs, times).1 == Min(|times|, limit)
  {
    var s1 := Step(store, key, limit, windowMs, times[0]).0;
    assert s1[key] == Window(1, times[0] + windowMs);
    WithinWindow(s1, key, limit, windowMs, times[1..]);
  }
}
