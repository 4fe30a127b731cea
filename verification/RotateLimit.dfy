/** The limiter of session rotation: a fixed window per address, opened by the first request after the
    previous window ended. */
module RotateLimit {
  import opened Collections

  const WINDOW_MS := 60000

  datatype Entry = Entry(count: nat, windowStart: int)
  datatype Verdict = Verdict(allowed: bool, retryAfter: int)

  /** The window a request falls into: the stored one, or a new one if that is over. */
  function Window(entry: Option<Entry>, now: int): Entry
  {
    if entry.None? || now - entry.value.windowStart >= WINDOW_MS then Entry(0, now) else entry.value
  }

  function Decide(entry: Option<Entry>, limit: nat, now: int): (Entry, Verdict)
  {
    var e := Window(entry, now);
    if e.count >= limit then (e, Verdict(false, CeilSeconds(e.windowStart + WINDOW_MS - now)))
    else (e.(count := e.count + 1), Verdict(true, 0))
  }

  /** A refused caller that sends nothing else is allowed after `wait` milliseconds if and only if the window
      has ended by then; `retryAfter` is the least whole number of seconds for which that is so. */
  lemma RetryAfterIsExact(entry: Option<Entry>, limit: nat, now: int, wait: nat)
    requires limit > 0 && (entry.Some? ==> entry.value.windowStart <= now)
    requires !Decide(entry, limit, now).1.allowed
    ensures var (e, v) := Decide(entry, limit, now);
      && (Decide(Some(e), limit, now + wait).1.allowed <==> e.windowStart + WINDOW_MS <= now + wait)
      && 0 < v.retryAfter <= WINDOW_MS / 1000
      && Decide(Some(e), limit, now + 1000 * v.retryAfter).1.allowed
      && !Decide(Some(e), limit, now + 1000 * (v.retryAfter - 1)).1.allowed
  {
  }

  /** An allowed request with the start of the window it was counted in. */
  datatype Grant = Grant(at: int, windowStart: int)

  /** How many grants fell in the minute [from, from + WINDOW_MS). */
  function GrantsInMinute(h: seq<Grant>, from: int): nat
  {
    if h == [] then 0
    else GrantsInMinute(h[..|h| - 1], from) + if from <= h[|h| - 1].at < from + WINDOW_MS then 1 else 0
  }

  /** How many grants were counted in the window that starts at `start`. */
  function GrantsOf(h: seq<Grant>, start: int): nat
  {
    if h == [] then 0
    else GrantsOf(h[..|h| - 1], start) + if h[|h| - 1].windowStart == start then 1 else 0
  }

  /** Each grant lies in its window, the windows follow each other without overlap, and each was opened by a
      grant. */
  ghost predicate WellSpaced(h: seq<Grant>)
  {
    && (forall i :: 0 <= i < |h| ==> h[i].windowStart <= h[i].at < h[i].windowStart + WINDOW_MS)
    && (forall i, j :: 0 <= i < j < |h| ==>
          h[i].windowStart == h[j].windowStart || h[i].windowStart + WINDOW_MS <= h[j].windowStart)
    && forall i :: 0 <= i < |h| ==> IsOpened(h, h[i].windowStart)
  }

  ghost predicate IsOpened(h: seq<Grant>, start: int) { Opener(start) in h }

  /** The grant that opens a window. */
  function Opener(start: int): Grant { Grant(start, start) }

  /** How many grants of the window that starts at `start` came before `from`. */
  function GrantsBefore(h: seq<Grant>, start: int, from: int): nat
  {
    if h == [] then 0
    else
      var g := h[|h| - 1];
      GrantsBefore(h[..|h| - 1], start, from) + if g.windowStart == start && g.at < from then 1 else 0
  }

  /** Grants of an interval no longer than a window belong to at most two windows; what the earlier one granted
      before the interval does not count. */
  lemma {:induction false} CountByWindows(h: seq<Grant>, from: int, first: int, second: int)
    requires forall i :: 0 <= i < |h| && from <= h[i].at < from + WINDOW_MS ==> h[i].windowStart in [first, second]
    ensures GrantsInMinute(h, from) + GrantsBefore(h, first, from) <= GrantsOf(h, first) + GrantsOf(h, second)
    ensures first == second ==> GrantsInMinute(h, from) <= GrantsOf(h, first)
  {
    if h != [] {
      CountByWindows(h[..|h| - 1], from, first, second);
    }
  }

  lemma {:induction false} OpenerComesBefore(h: seq<Grant>, start: int, from: int)
    requires Opener(start) in h && start < from
    ensures GrantsBefore(h, start, from) > 0
  {
    if h[|h| - 1] != Opener(start) {
      OpenerComesBefore(h[..|h| - 1], start, from);
    }
  }

  /** No interval of 60 seconds, wherever it starts, holds twice the limit: if it reaches into two windows, the
      grant that opened the first one came before it. */
  lemma AnyMinuteHoldsLessThanTwiceTheLimit(h: seq<Grant>, limit: nat, from: int)
    requires WellSpaced(h) && limit > 0 && forall start :: GrantsOf(h, start) <= limit
    ensures GrantsInMinute(h, from) <= 2 * limit - 1
  {
    hide WellSpaced, GrantsOf, GrantsInMinute, GrantsBefore;
    if i, j :| 0 <= i < j < |h| && InMinute(h[i], from) && InMinute(h[j], from)
               && h[i].windowStart != h[j].windowStart {
      TwoWindows(h, limit, from, i, j);
    } else if i :| 0 <= i < |h| && InMinute(h[i], from) {
      OneWindow(h, from, i);
    } else {
      CountByWindows(h, from, from, from);
    }
  }

  predicate InMinute(g: Grant, from: int) { from <= g.at < from + WINDOW_MS }

  lemma AtMostTwoWindows(h: seq<Grant>, from: int, i: nat, j: nat, k: nat)
    requires WellSpaced(h) && i < |h| && j < |h| && k < |h|
    requires InMinute(h[i], from) && InMinute(h[j], from) && InMinute(h[k], from)
    requires h[i].windowStart != h[j].windowStart
    ensures h[k].windowStart == h[i].windowStart || h[k].windowStart == h[j].windowStart
  {
  }

  lemma Apart(h: seq<Grant>, i: nat, j: nat)
    requires WellSpaced(h) && i < |h| && j < |h|
    ensures h[i].windowStart <= h[i].at < h[i].windowStart + WINDOW_MS
    ensures i < j ==> h[i].windowStart == h[j].windowStart || h[i].windowStart + WINDOW_MS <= h[j].windowStart
    ensures j < i ==> h[i].windowStart == h[j].windowStart || h[j].windowStart + WINDOW_MS <= h[i].windowStart
    ensures Opener(h[i].windowStart) in h
  {
  }

  lemma TwoWindows(h: seq<Grant>, limit: nat, from: int, i: nat, j: nat)
    requires WellSpaced(h) && i < j < |h| && InMinute(h[i], from) && InMinute(h[j], from)
    requires h[i].windowStart != h[j].windowStart && forall start :: GrantsOf(h, start) <= limit
    ensures GrantsInMinute(h, from) <= 2 * limit - 1
  {
    hide WellSpaced, GrantsOf, GrantsInMinute, GrantsBefore;
    var first, second := h[i].windowStart, h[j].windowStart;
    forall k | 0 <= k < |h| && from <= h[k].at < from + WINDOW_MS
      ensures h[k].windowStart in [first, second]
    {
      AtMostTwoWindows(h, from, i, j, k);
      assert h[k].windowStart == [first, second][0] || h[k].windowStart == [first, second][1];
    }
    CountByWindows(h, from, first, second);
    assert GrantsOf(h, first) <= limit && GrantsOf(h, second) <= limit;
    Apart(h, i, j);
    Apart(h, j, i);
    OpenerComesBefore(h, first, from);
  }

  lemma OneWindow(h: seq<Grant>, from: int, i: nat)
    requires i < |h| && InMinute(h[i], from)
    requires forall i, j :: 0 <= i < j < |h| && InMinute(h[i], from) && InMinute(h[j], from) ==>
               h[i].windowStart == h[j].windowStart
    ensures GrantsInMinute(h, from) <= GrantsOf(h, h[i].windowStart)
  {
    forall k | 0 <= k < |h| && from <= h[k].at < from + WINDOW_MS
      ensures h[k].windowStart in [h[i].windowStart, h[i].windowStart]
    {
      assert InMinute(h[k], from) && (k < i || k == i || i < k);
    }
    CountByWindows(h, from, h[i].windowStart, h[i].windowStart);
  }

  // Runs of one address.

  /** The entry and the history after requests at the given times. */
  function After(limit: nat, times: seq<int>): (Option<Entry>, seq<Grant>)
  {
    if times == [] then (None, [])
    else
      var (entry, h) := After(limit, times[..|times| - 1]);
      var now := times[|times| - 1];
      var (e, v) := Decide(entry, limit, now);
      (Some(e), if v.allowed then h + [Grant(now, e.windowStart)] else h)
  }

  /** Every minute of every run. */
  lemma RunHoldsLessThanTwiceTheLimit(limit: nat, times: seq<int>, from: int)
    requires limit > 0 && Sorted(times)
    ensures GrantsInMinute(After(limit, times).1, from) <= 2 * limit - 1
  {
    var now := if times == [] then 0 else times[|times| - 1];
    RunTracks(limit, times, now);
    TracksWithinTheBound(After(limit, times).0, After(limit, times).1, limit, now, from);
  }

  lemma {:induction false} RunTracks(limit: nat, times: seq<int>, now: int)
    requires limit > 0 && Sorted(times) && (times != [] ==> times[|times| - 1] <= now)
    ensures Tracks(After(limit, times).0, After(limit, times).1, limit, now)
  {
    if times != [] {
      var front, last := times[..|times| - 1], times[|times| - 1];
      RunTracks(limit, front, last);
      hide Counts;
      DecideTracks(After(limit, front).0, After(limit, front).1, limit, last, last);
    }
  }

  function Repeat(times: seq<int>, t: int, n: nat): (r: seq<int>)
    ensures |r| == |times| + n
    ensures forall i :: 0 <= i < |r| ==> r[i] == if i < |times| then times[i] else t
  {
    if n == 0 then times else Repeat(times, t, n - 1) + [t]
  }

  function Burst(base: seq<Grant>, g: Grant, n: nat): seq<Grant>
  {
    if n == 0 then base else Burst(base, g, n - 1) + [g]
  }

  lemma {:induction false} BurstCounts(base: seq<Grant>, g: Grant, n: nat, from: int)
    ensures GrantsInMinute(Burst(base, g, n), from)
            == GrantsInMinute(base, from) + if from <= g.at < from + WINDOW_MS then n else 0
  {
    hide GrantsInMinute;
    if n > 0 {
      BurstCounts(base, g, n - 1, from);
      Snoc(Burst(base, g, n - 1), g, from, 0);
    }
  }

  lemma AfterSnoc(limit: nat, times: seq<int>, t: int)
    ensures var (entry, h) := After(limit, times); var (e, v) := Decide(entry, limit, t);
      After(limit, times + [t]) == (Some(e), if v.allowed then h + [Grant(t, e.windowStart)] else h)
  {
  }

  lemma ServedInside(e: Entry, limit: nat, t: int)
    requires t - e.windowStart < WINDOW_MS && e.count < limit
    ensures Decide(Some(e), limit, t) == (e.(count := e.count + 1), Verdict(true, 0))
  {
  }

  /** A request after the window is over opens the next one. */
  lemma Opens(limit: nat, times: seq<int>, t: int)
    requires limit > 0
    requires var entry := After(limit, times).0; entry.None? || t - entry.value.windowStart >= WINDOW_MS
    ensures After(limit, times + [t]) == (Some(Entry(1, t)), After(limit, times).1 + [Opener(t)])
  {
  }

  /** As long as the limit is not used up, requests inside the window are all granted. */
  lemma {:induction false} BurstIsServed(limit: nat, times: seq<int>, t: int, n: nat)
    requires var entry := After(limit, times).0;
      entry.Some? && t - entry.value.windowStart < WINDOW_MS && entry.value.count + n <= limit
    ensures var (entry, h) := After(limit, times); var e := entry.value;
      After(limit, Repeat(times, t, n))
      == (Some(Entry(e.count + n, e.windowStart)), Burst(h, Grant(t, e.windowStart), n))
  {
    hide After, Decide;
    if n > 0 {
      BurstIsServed(limit, times, t, n - 1);
      AfterSnoc(limit, Repeat(times, t, n - 1), t);
      var e := After(limit, times).0.value;
      ServedInside(Entry(e.count + (n - 1), e.windowStart), limit, t);
    }
  }

  /** The bound is reached: one request opens a window, a burst comes at its end and another one right after. */
  lemma TheBoundIsReached(limit: nat, start: int) returns (times: seq<int>, from: int)
    requires limit > 0
    ensures Sorted(times) && GrantsInMinute(After(limit, times).1, from) == 2 * limit - 1
  {
    hide Sorted, BurstTimes, After, Burst, GrantsInMinute;
    from := start + WINDOW_MS - 1;
    times := BurstTimes(start, limit - 1);
    BurstsAreSorted(start, limit - 1);
    BurstsAreServed(limit, start);
    CountBursts(Opener(start), Grant(from, start), Opener(start + WINDOW_MS), limit - 1, from);
  }

  function BurstTimes(start: int, n: nat): seq<int>
  {
    Repeat(Repeat([start], start + WINDOW_MS - 1, n) + [start + WINDOW_MS], start + WINDOW_MS, n)
  }

  lemma BurstsAreSorted(start: int, n: nat)
    ensures Sorted(BurstTimes(start, n))
  {
  }

  lemma BurstsAreServed(limit: nat, start: int)
    requires limit > 0
    ensures var late, next := Grant(start + WINDOW_MS - 1, start), Opener(start + WINDOW_MS);
      After(limit, BurstTimes(start, limit - 1)).1
      == Burst(Burst([Opener(start)], late, limit - 1) + [next], next, limit - 1)
  {
    hide After, Burst, Decide, Repeat;
    var from, next := start + WINDOW_MS - 1, start + WINDOW_MS;
    FirstBurst(limit, start);
    var late := Repeat([start], from, limit - 1);
    Opens(limit, late, next);
    BurstIsServed(limit, late + [next], next, limit - 1);
  }

  lemma FirstBurst(limit: nat, start: int)
    requires limit > 0
    ensures var late := Grant(start + WINDOW_MS - 1, start);
      After(limit, Repeat([start], late.at, limit - 1))
      == (Some(Entry(limit, start)), Burst([Opener(start)], late, limit - 1))
  {
    hide After, Burst, Decide, Repeat;
    FirstOpens(limit, start);
    BurstIsServed(limit, [start], start + WINDOW_MS - 1, limit - 1);
  }

  lemma FirstOpens(limit: nat, start: int)
    requires limit > 0
    ensures After(limit, [start]) == (Some(Entry(1, start)), [Opener(start)])
  {
    assert After(limit, []) == (None, []);
    hide Decide;
    Opens(limit, [], start);
    var none: seq<int>, nothing: seq<Grant> := [], [];
    assert none + [start] == [start] && nothing + [Opener(start)] == [Opener(start)];
  }

  lemma CountBursts(first: Grant, late: Grant, early: Grant, n: nat, from: int)
    requires !InMinute(first, from) && InMinute(late, from) && InMinute(early, from)
    ensures GrantsInMinute(Burst(Burst([first], late, n) + [early], early, n), from) == 2 * n + 1
  {
    assert GrantsInMinute([], from) == 0;
    assert [] + [first] == [first];
    hide GrantsInMinute, Burst;
    Snoc([], first, from, 0);
    BurstCounts([first], late, n, from);
    Snoc(Burst([first], late, n), early, from, 0);
    BurstCounts(Burst([first], late, n) + [early], early, n, from);
  }

  ghost predicate Slides(limit: nat)
  {
    forall times, from :: Sorted(times) ==> GrantsInMinute(After(limit, times).1, from) <= limit
  }

  /** The limiter keeps to its limit in every minute, as a sliding window would, only if the limit is one. */
  lemma SlidesIff(limit: nat)
    requires limit > 0
    ensures Slides(limit) <==> limit == 1
  {
    if limit == 1 {
      forall times, from | Sorted(times)
        ensures GrantsInMinute(After(limit, times).1, from) <= limit
      {
        RunHoldsLessThanTwiceTheLimit(limit, times, from);
      }
    } else {
      var times, from := TheBoundIsReached(limit, 0);
    }
  }

  lemma Snoc(h: seq<Grant>, g: Grant, from: int, start: int)
    ensures GrantsOf(h + [g], start) == GrantsOf(h, start) + if g.windowStart == start then 1 else 0
    ensures GrantsInMinute(h + [g], from)
            == GrantsInMinute(h, from) + if from <= g.at < from + WINDOW_MS then 1 else 0
  {
  }

  lemma SnocSpaced(h: seq<Grant>, g: Grant)
    requires WellSpaced(h) && g.windowStart <= g.at < g.windowStart + WINDOW_MS
    requires forall i :: 0 <= i < |h| ==>
               h[i].windowStart == g.windowStart || h[i].windowStart + WINDOW_MS <= g.windowStart
    requires g == Opener(g.windowStart) || Opener(g.windowStart) in h
    ensures WellSpaced(h + [g])
  {
  }

  /** `e` counts what the history `h` granted in its window, which is the last one. */
  ghost predicate Counts(e: Entry, h: seq<Grant>, limit: nat)
  {
    && WellSpaced(h)
    && (forall start :: GrantsOf(h, start) <= limit)
    && e.count == GrantsOf(h, e.windowStart)
    && forall i :: 0 <= i < |h| ==>
         h[i].windowStart == e.windowStart || h[i].windowStart + WINDOW_MS <= e.windowStart
  }

  /** `h` is the history of an address whose stored entry is `entry`. */
  ghost predicate Tracks(entry: Option<Entry>, h: seq<Grant>, limit: nat, clock: int)
  {
    match entry
    case None => h == []
    case Some(e) => Counts(e, h, limit) && e.count > 0 && e.windowStart <= clock
  }

  lemma NoGrantYet(h: seq<Grant>, start: int)
    requires forall i :: 0 <= i < |h| ==> h[i].windowStart != start
    ensures GrantsOf(h, start) == 0
  {
  }

  lemma WindowCounts(entry: Option<Entry>, h: seq<Grant>, limit: nat, clock: int, now: int)
    requires Tracks(entry, h, limit, clock) && clock <= now
    ensures var e := Window(entry, now);
      Counts(e, h, limit) && e.windowStart <= now < e.windowStart + WINDOW_MS && (e.count == 0 ==> e.windowStart == now)
  {
    NothingCounts(now, limit);
    hide GrantsOf, WellSpaced;
    if entry.None? || now - entry.value.windowStart >= WINDOW_MS {
      NoGrantYet(h, now);
    }
  }

  lemma NothingCounts(now: int, limit: nat)
    ensures Counts(Entry(0, now), [], limit)
  {
  }

  lemma OpenedIfCounted(h: seq<Grant>, start: int)
    requires WellSpaced(h) && GrantsOf(h, start) > 0
    ensures Opener(start) in h
  {
    if forall i :: 0 <= i < |h| ==> h[i].windowStart != start {
      NoGrantYet(h, start);
    }
  }

  lemma GrantCounts(e: Entry, h: seq<Grant>, limit: nat, now: int)
    requires Counts(e, h, limit) && e.count < limit && e.windowStart <= now < e.windowStart + WINDOW_MS
    requires e.count == 0 ==> e.windowStart == now
    ensures Counts(e.(count := e.count + 1), h + [Grant(now, e.windowStart)], limit)
  {
    hide GrantsOf, WellSpaced;
    if e.count > 0 {
      OpenedIfCounted(h, e.windowStart);
    }
    var g := Grant(now, e.windowStart);
    SnocSpaced(h, g);
    forall start
      ensures GrantsOf(h + [g], start) == GrantsOf(h, start) + if e.windowStart == start then 1 else 0
    {
      Snoc(h, g, 0, start);
    }
  }

  lemma Decided(entry: Option<Entry>, limit: nat, now: int)
    ensures var (e, v) := Decide(entry, limit, now); var w := Window(entry, now);
      v.allowed == (w.count < limit) && e == if v.allowed then w.(count := w.count + 1) else w
  {
  }

  lemma CountsTracks(e: Entry, h: seq<Grant>, limit: nat, now: int)
    requires Counts(e, h, limit) && e.count > 0 && e.windowStart <= now
    ensures Tracks(Some(e), h, limit, now)
  {
  }

  lemma TimePasses(entry: Option<Entry>, h: seq<Grant>, limit: nat, clock: int, now: int)
    requires Tracks(entry, h, limit, clock) && clock <= now
    ensures Tracks(entry, h, limit, now)
  {
  }

  /** The window a request at `now` falls into, as the history of grants tells it: that of the last grant until it is
      over. */
  ghost function OpenWindow(h: seq<Grant>, now: int): int
  {
    if h == [] || now >= h[|h| - 1].windowStart + WINDOW_MS then now else h[|h| - 1].windowStart
  }

  /** A request is allowed exactly if fewer than the limit were granted in the window it falls into. */
  lemma AllowedIff(entry: Option<Entry>, h: seq<Grant>, limit: nat, clock: int, now: int)
    requires Tracks(entry, h, limit, clock) && clock <= now && limit > 0
    ensures var (e, v) := Decide(entry, limit, now);
      && e.windowStart == OpenWindow(h, now)
      && (v.allowed <==> GrantsOf(h, OpenWindow(h, now)) < limit)
  {
    WindowCounts(entry, h, limit, clock, now);
    Decided(entry, limit, now);
    LastWindow(entry, h, limit, clock);
    hide GrantsOf, WellSpaced;
  }

  lemma LastWindow(entry: Option<Entry>, h: seq<Grant>, limit: nat, clock: int)
    requires Tracks(entry, h, limit, clock)
    ensures entry.None? <==> h == []
    ensures entry.Some? ==> h[|h| - 1].windowStart == entry.value.windowStart
  {
    if entry.Some? {
      OpenedIfCounted(h, entry.value.windowStart);
    }
  }

  lemma DecideTracks(entry: Option<Entry>, h: seq<Grant>, limit: nat, clock: int, now: int)
    requires Tracks(entry, h, limit, clock) && clock <= now && limit > 0
    ensures var (e, v) := Decide(entry, limit, now);
      Tracks(Some(e), if v.allowed then h + [Grant(now, e.windowStart)] else h, limit, now)
  {
    hide Tracks, Counts, Window, Decide;
    WindowCounts(entry, h, limit, clock, now);
    Decided(entry, limit, now);
    var e := Window(entry, now);
    if e.count < limit {
      GrantCounts(e, h, limit, now);
      CountsTracks(e.(count := e.count + 1), h + [Grant(now, e.windowStart)], limit, now);
    } else {
      CountsTracks(e, h, limit, now);
    }
  }

  lemma TracksWithinTheBound(entry: Option<Entry>, h: seq<Grant>, limit: nat, clock: int, from: int)
    requires Tracks(entry, h, limit, clock) && limit > 0
    ensures GrantsInMinute(h, from) <= 2 * limit - 1
  {
    if entry.Some? {
      hide WellSpaced, GrantsInMinute, GrantsOf;
      AnyMinuteHoldsLessThanTwiceTheLimit(h, limit, from);
    }
  }

  class RotateLimiter {
    const limit: nat
    var store: map<string, Entry>
    /** Every allowed request of every address. */
    ghost var history: map<string, seq<Grant>>
    ghost var clock: int

    function EntryOf(ip: string): Option<Entry>
      reads this
    {
      if ip in store then Some(store[ip]) else None
    }

    ghost function HistoryOf(ip: string): seq<Grant>
      reads this
    {
      if ip in history then history[ip] else []
    }

    ghost predicate Valid()
      reads this
    {
      limit > 0 && forall ip :: Tracks(EntryOf(ip), HistoryOf(ip), limit, clock)
    }

    /** The limit is positive: other settings fall back to five. */
    constructor (limit: nat, now: int)
      requires limit > 0
      ensures Valid() && history == map[] && clock == now && this.limit == limit
    {
      this.limit, store, history, clock := limit, map[], map[], now;
    }

    /** Counts the request and answers it; every minute of the resulting history, of every address, stays
        below twice the limit, and other addresses are not affected. */
    method Check(ip: string, now: int) returns (verdict: Verdict)
      requires Valid() && clock <= now
      modifies this
      ensures Valid() && clock == now
      ensures verdict == Decide(old(EntryOf(ip)), limit, now).1
      ensures EntryOf(ip) == Some(Decide(old(EntryOf(ip)), limit, now).0)
      ensures verdict.allowed <==> GrantsOf(old(HistoryOf(ip)), OpenWindow(old(HistoryOf(ip)), now)) < limit
      ensures HistoryOf(ip) == old(HistoryOf(ip))
                               + if verdict.allowed then [Grant(now, OpenWindow(old(HistoryOf(ip)), now))] else []
      ensures forall k :: k != ip ==> EntryOf(k) == old(EntryOf(k)) && HistoryOf(k) == old(HistoryOf(k))
      ensures forall k, from :: GrantsInMinute(HistoryOf(k), from) <= 2 * limit - 1
    {
      hide Tracks, GrantsInMinute, GrantsOf, OpenWindow;
      var entry := EntryOf(ip);
      AllowedIff(entry, HistoryOf(ip), limit, clock, now);
      DecideTracks(entry, HistoryOf(ip), limit, clock, now);
      if entry.None? || now - entry.value.windowStart >= WINDOW_MS {
        entry := Some(Entry(0, now));
      }
      var e := entry.value;
      ghost var h := HistoryOf(ip);
      if e.count >= limit {
        verdict := Verdict(false, CeilSeconds(e.windowStart + WINDOW_MS - now));
      } else {
        e := e.(count := e.count + 1);
        h := h + [Grant(now, e.windowStart)];
        verdict := Verdict(true, 0);
      }
      Store(ip, e, h, now);
      forall k, from
        ensures GrantsInMinute(HistoryOf(k), from) <= 2 * limit - 1
      {
        TracksWithinTheBound(EntryOf(k), HistoryOf(k), limit, clock, from);
      }
    }

    method Store(ip: string, e: Entry, ghost h: seq<Grant>, ghost now: int)
      requires Valid() && clock <= now && Tracks(Some(e), h, limit, now)
      modifies this
      ensures Valid() && clock == now && store == old(store)[ip := e] && history == old(history)[ip := h]
    {
      hide Tracks;
      forall k
        ensures Tracks(EntryOf(k), HistoryOf(k), limit, now)
      {
        TimePasses(EntryOf(k), HistoryOf(k), limit, clock, now);
      }
      store, history, clock := store[ip := e], history[ip := h], now;
      assert forall k :: k != ip ==> EntryOf(k) == old(EntryOf(k)) && HistoryOf(k) == old(HistoryOf(k));
    }
  }
}
