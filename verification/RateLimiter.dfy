/** The sliding-window limiter, with the full history of admitted requests as its specification. */
module RateLimiter {
  import opened Collections

  /** How many of the times in `h` lie in the half-open interval (after, upTo]. */
  function CountWithin(h: seq<int>, after: int, upTo: int): nat
  {
    if h == [] then 0
    else CountWithin(h[..|h| - 1], after, upTo) + if after < h[|h| - 1] <= upTo then 1 else 0
  }

  /** Every request in `h` found fewer than `max` admitted requests in the window that ends with it. */
  ghost predicate Admitted(h: seq<int>, window: nat, max: nat)
  {
    forall i :: 0 <= i < |h| ==> CountWithin(h[..i], h[i] - window, h[i]) < max
  }

  /** A history that the limiter admitted holds at most `max` requests in any interval of the window's length,
      wherever that interval starts. */
  lemma {:induction false} AnyWindowHoldsAtMost(h: seq<int>, window: nat, max: nat, after: int)
    requires Sorted(h) && Admitted(h, window, max)
    ensures CountWithin(h, after, after + window) <= max
  {
    if h != [] {
      var front, last := h[..|h| - 1], h[|h| - 1];
      if after < last <= after + window {
        assert CountWithin(h[..|h| - 1], last - window, last) < max;
        EarlierWindowHoldsMore(front, last - window, last, after, after + window);
      } else {
        FrontAdmitted(h, window, max);
        hide Admitted;
        AnyWindowHoldsAtMost(front, window, max, after);
      }
    }
  }

  lemma FrontAdmitted(h: seq<int>, window: nat, max: nat)
    requires h != [] && Admitted(h, window, max)
    ensures Admitted(h[..|h| - 1], window, max)
  {
    hide CountWithin;
    var front := h[..|h| - 1];
    forall i | 0 <= i < |front|
      ensures CountWithin(front[..i], front[i] - window, front[i]) < max
    {
      assert front[..i] == h[..i] && front[i] == h[i];
    }
  }

  lemma {:induction false} EarlierWindowHoldsMore(h: seq<int>, after: int, upTo: int, after': int, upTo': int)
    requires forall i :: 0 <= i < |h| ==> h[i] <= upTo
    requires after <= after'
    ensures CountWithin(h, after', upTo') <= CountWithin(h, after, upTo)
  {
    if h != [] {
      EarlierWindowHoldsMore(h[..|h| - 1], after, upTo, after', upTo');
    }
  }

  /** Dropping hits at or before the cutoff from the front of a sorted history leaves exactly the hits inside
      the window, so counting what is left counts the window. */
  lemma {:induction false} CountAfterDrop(h: seq<int>, dropped: nat, after: int, upTo: int)
    requires dropped <= |h|
    requires forall i :: 0 <= i < dropped ==> h[i] <= after
    requires forall i :: dropped <= i < |h| ==> after < h[i] <= upTo
    ensures CountWithin(h, after, upTo) == |h| - dropped
  {
    if h != [] {
      var front := h[..|h| - 1];
      if dropped == |h| {
        CountAfterDrop(front, dropped - 1, after, upTo);
      } else {
        CountAfterDrop(front, dropped, after, upTo);
      }
    }
  }

  lemma AdmittedSnoc(h: seq<int>, t: int, window: nat, max: nat)
    requires Admitted(h, window, max) && CountWithin(h, t - window, t) < max
    ensures Admitted(h + [t], window, max)
  {
    forall i | 0 <= i < |h + [t]|
      ensures CountWithin((h + [t])[..i], (h + [t])[i] - window, (h + [t])[i]) < max
    {
      if i < |h| {
        assert (h + [t])[..i] == h[..i];
      } else {
        assert (h + [t])[..i] == h;
      }
    }
  }

  type Log = map<string, seq<int>>

  function At(log: Log, key: string): seq<int>
  {
    if key in log then log[key] else []
  }

  /** `hits` is what is left of the history `h` of a key after some hits were dropped that are outside the
      window that ends at `clock`. */
  ghost predicate Remembers(hits: seq<int>, h: seq<int>, window: nat, max: nat, clock: int)
  {
    && Sorted(h)
    && (forall i :: 0 <= i < |h| ==> h[i] <= clock)
    && Admitted(h, window, max)
    && |hits| <= |h|
    && hits == h[|h| - |hits|..]
    && forall i :: 0 <= i < |h| - |hits| ==> h[i] <= clock - window
  }

  /** `r` is `hits` without a front part that lies at or before the cutoff. */
  ghost predicate Dropped(r: seq<int>, hits: seq<int>, cutoff: int)
  {
    && |r| <= |hits|
    && r == hits[|hits| - |r|..]
    && (forall i :: 0 <= i < |hits| - |r| ==> hits[i] <= cutoff)
    && (r != [] ==> r[0] > cutoff)
  }

  lemma DropKeepsMemory(r: seq<int>, hits: seq<int>, h: seq<int>, window: nat, max: nat, clock: int, now: int)
    requires Remembers(hits, h, window, max, clock) && clock <= now
    requires Dropped(r, hits, now - window)
    ensures Remembers(r, h, window, max, now)
  {
  }

  lemma HitsCountTheWindow(r: seq<int>, h: seq<int>, window: nat, max: nat, now: int)
    requires Remembers(r, h, window, max, now) && (r != [] ==> r[0] > now - window)
    ensures CountWithin(h, now - window, now) == |r|
  {
    forall i | |h| - |r| <= i < |h|
      ensures now - window < h[i] <= now
    {
      assert h[|h| - |r|] == r[0];
    }
    CountAfterDrop(h, |h| - |r|, now - window, now);
  }

  lemma AdmitKeepsMemory(r: seq<int>, h: seq<int>, window: nat, max: nat, now: int)
    requires Remembers(r, h, window, max, now) && CountWithin(h, now - window, now) < max
    ensures Remembers(r + [now], h + [now], window, max, now)
  {
    AdmittedSnoc(h, now, window, max);
  }

  method DropExpired(hits: seq<int>, cutoff: int) returns (r: seq<int>)
    ensures Dropped(r, hits, cutoff)
  {
    r := hits;
    ghost var n := 0;
    while |r| > 0 && r[0] <= cutoff
      invariant n <= |hits| && r == hits[n..]
      invariant forall i :: 0 <= i < n ==> hits[i] <= cutoff
    {
      r, n := r[1..], n + 1;
    }
  }

  /** Decides one request of one key from the remembered hits; `h` is the key's history. */
  method Decide(hits: seq<int>, ghost h: seq<int>, window: nat, max: nat, ghost clock: int, now: int)
    returns (ok: bool, r: seq<int>)
    requires Remembers(hits, h, window, max, clock) && clock <= now
    ensures ok <==> CountWithin(h, now - window, now) < max
    ensures Remembers(r, h + if ok then [now] else [], window, max, now)
  {
    r := DropExpired(hits, now - window);
    DropKeepsMemory(r, hits, h, window, max, clock, now);
    HitsCountTheWindow(r, h, window, max, now);
    hide *;
    ok := |r| < max;
    if ok {
      AdmitKeepsMemory(r, h, window, max, now);
      r := r + [now];
    } else {
      assert h + [] == h;
    }
  }

  class SlidingWindow {
    const windowMs: nat
    const maxRequests: nat
    var buckets: Log
    /** Every admitted request of every key, never shortened. */
    ghost var history: Log
    ghost var clock: int

    ghost predicate Valid()
      reads this
    {
      forall key :: Remembers(At(buckets, key), At(history, key), windowMs, maxRequests, clock)
    }

    constructor (windowMs: nat, maxRequests: nat, now: int)
      ensures Valid() && history == map[] && clock == now
      ensures this.windowMs == windowMs && this.maxRequests == maxRequests
    {
      this.windowMs, this.maxRequests := windowMs, maxRequests;
      buckets, history, clock := map[], map[], now;
    }

    /** Admits the request exactly when fewer than `maxRequests` requests of the key were admitted in the
        window (now - windowMs, now], whatever was pruned before; no other key is affected. */
    method Allow(key: string, now: int) returns (ok: bool)
      requires Valid() && clock <= now
      modifies this
      ensures Valid() && clock == now
      ensures ok <==> CountWithin(old(At(history, key)), now - windowMs, now) < maxRequests
      ensures At(history, key) == old(At(history, key)) + if ok then [now] else []
      ensures forall k :: k != key ==> At(history, k) == old(At(history, k))
    {
      hide Remembers, CountWithin;
      var hits;
      ghost var h := At(history, key);
      ok, hits := Decide(At(buckets, key), h, windowMs, maxRequests, clock, now);
      AdvanceClock(now);
      Store(key, hits, h + if ok then [now] else []);
    }

    /** Time passing alone keeps every key valid. */
    ghost method AdvanceClock(now: int)
      requires Valid() && clock <= now
      modifies this`clock
      ensures Valid() && clock == now
    {
      clock := now;
    }

    method Store(key: string, hits: seq<int>, ghost h: seq<int>)
      requires Valid() && Remembers(hits, h, windowMs, maxRequests, clock)
      modifies this`buckets, this`history
      ensures Valid() && buckets == old(buckets)[key := hits] && history == old(history)[key := h]
    {
      hide Remembers;
      buckets, history := buckets[key := hits], history[key := h];
      assert forall k :: k != key ==> At(buckets, k) == old(At(buckets, k)) && At(history, k) == old(At(history, k));
    }

    /** However the calls were mixed: no interval of the window's length holds more than `maxRequests` admitted
        requests of a key. */
    lemma NoWindowOverflows(key: string, after: int)
      requires Valid()
      ensures CountWithin(At(history, key), after, after + windowMs) <= maxRequests
    {
      assert Remembers(At(buckets, key), At(history, key), windowMs, maxRequests, clock);
      AnyWindowHoldsAtMost(At(history, key), windowMs, maxRequests, after);
    }

    /** Cleaning up changes no history, hence no later answer of `Allow`. */
    method Cleanup(now: int)
      requires Valid() && clock <= now
      modifies this
      ensures Valid() && clock == now && history == old(history)
    {
      hide Remembers;
      AdvanceClock(now);
      var keys := buckets.Keys;
      while keys != {}
        invariant Valid() && clock == now && history == old(history)
        invariant keys <= buckets.Keys
        decreases keys
      {
        var key :| key in keys;
        var hits := DropExpired(buckets[key], now - windowMs);
        DropKeepsMemory(hits, buckets[key], At(history, key), windowMs, maxRequests, now, now);
        ghost var before := buckets;
        buckets := if hits == [] then buckets - {key} else buckets[key := hits];
        assert At(buckets, key) == hits && forall k :: k != key ==> At(buckets, k) == At(before, k);
        keys := keys - {key};
      }
    }
  }

  /** Requests with an API key are limited per key, the others per address. */
  class DualRateLimiter {
    const ipLimiter: SlidingWindow
    const keyLimiter: SlidingWindow

    ghost predicate Valid()
      reads this, ipLimiter, keyLimiter
    {
      ipLimiter != keyLimiter && ipLimiter.Valid() && keyLimiter.Valid()
    }

    constructor (windowMs: nat, perIp: nat, perKey: nat, now: int)
      ensures Valid() && fresh(ipLimiter) && fresh(keyLimiter)
      ensures ipLimiter.windowMs == keyLimiter.windowMs == windowMs && ipLimiter.clock == keyLimiter.clock == now
      ensures ipLimiter.maxRequests == perIp && keyLimiter.maxRequests == perKey
      ensures ipLimiter.history == keyLimiter.history == map[]
    {
      ipLimiter := new SlidingWindow(windowMs, perIp, now);
      keyLimiter := new SlidingWindow(windowMs, perKey, now);
    }

    /** A request counts against one limiter only: traffic with a key never uses up an address, nor the
        other way round. An empty key counts as no key. */
    method Allow(clientIp: string, keyId: string, now: int) returns (ok: bool)
      requires Valid() && ipLimiter.clock <= now && keyLimiter.clock <= now
      modifies ipLimiter, keyLimiter
      ensures Valid() && ipLimiter.clock <= now && keyLimiter.clock <= now
      ensures var (used, spared, key) := if keyId != "" then (keyLimiter, ipLimiter, "key:" + keyId)
                                         else (ipLimiter, keyLimiter, "ip:" + clientIp);
        && (ok <==> CountWithin(old(At(used.history, key)), now - used.windowMs, now) < used.maxRequests)
        && At(used.history, key) == old(At(used.history, key)) + (if ok then [now] else [])
        && (forall k :: k != key ==> At(used.history, k) == old(At(used.history, k)))
        && spared.history == old(spared.history)
    {
      hide Remembers, CountWithin;
      if keyId != "" {
        ok := keyLimiter.Allow("key:" + keyId, now);
      } else {
        ok := ipLimiter.Allow("ip:" + clientIp, now);
      }
    }

    method Cleanup(now: int)
      requires Valid() && ipLimiter.clock <= now && keyLimiter.clock <= now
      modifies ipLimiter, keyLimiter
      ensures Valid() && ipLimiter.clock == keyLimiter.clock == now
      ensures ipLimiter.history == old(ipLimiter.history) && keyLimiter.history == old(keyLimiter.history)
    {
      hide Remembers;
      ipLimiter.Cleanup(now);
      keyLimiter.Cleanup(now);
    }
  }
}
