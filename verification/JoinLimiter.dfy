/** The per-address limiter for room joins: a deque per address, pruned at its head on every call,
    and every 256 calls a sweep over all addresses. */
module JoinLimiter {
  import opened HitLog

  const MAX_JOINS_PER_WINDOW := 30
  const JANITOR_EVERY := 256
  const MAP_SIZE_CAP := 50_000

  datatype Limiter = Limiter(buckets: Buckets, calls: nat)

  function Empty(): Limiter { Limiter(map[], 0) }

  // ----- specification

  /** `checked_sub` finds no cutoff in the minute after the least representable instant. */
  function Trimmed(ts: seq<Time>, now: Time): seq<Time> {
    if now < WINDOW then ts else Pruned(ts, now - WINDOW)
  }

  predicate JanitorDue(l: Limiter) { l.calls % JANITOR_EVERY == 0 }

  /** The map has grown past its cap and is cleared. */
  predicate Clears(l: Limiter) {
    JanitorDue(l) && |l.buckets| >= MAP_SIZE_CAP
  }

  function Swept(buckets: Buckets, now: Time): Buckets {
    map ip | ip in buckets && Trimmed(buckets[ip], now) != [] :: Trimmed(buckets[ip], now)
  }

  function AfterJanitor(l: Limiter, now: Time): Limiter {
    Limiter(
      if !JanitorDue(l) then l.buckets
      else if |l.buckets| >= MAP_SIZE_CAP then map[]
      else if now < WINDOW then l.buckets
      else Swept(l.buckets, now),
      (l.calls + 1) % 0x1_0000_0000_0000_0000)
  }

  predicate Admits(l: Limiter, ip: Ip, now: Time) {
    |Trimmed(Bucket(AfterJanitor(l, now).buckets, ip), now)| < MAX_JOINS_PER_WINDOW
  }

  function Checked(l: Limiter, ip: Ip, now: Time): Limiter {
    var j := AfterJanitor(l, now);
    j.(buckets := j.buckets[ip := AddIf(Trimmed(Bucket(j.buckets, ip), now), Admits(l, ip, now), now)])
  }

  // ----- implementation

  class IpBuckets {
    var buckets: Buckets
    var calls: nat

    function View(): Limiter
      reads this
    {
      Limiter(buckets, calls)
    }

    constructor ()
      ensures View() == Empty()
    {
      buckets, calls := map[], 0;
    }

    /** Pops expired times off the head. */
    method PopExpired(hits: seq<Time>, now: Time) returns (entry: seq<Time>)
      ensures entry == Trimmed(hits, now)
    {
      entry := hits;
      if now >= WINDOW {
        var cutoff := now - WINDOW;
        while entry != [] && entry[0] < cutoff
          invariant Pruned(entry, cutoff) == Pruned(hits, cutoff)
          decreases |entry|
        {
          assert Pruned(entry, cutoff) == Pruned(entry[1..], cutoff);
          entry := entry[1..];
        }
      }
    }

    /** Prunes every bucket and keeps those that still hold something. */
    method RetainRecent(now: Time) returns (kept: Buckets)
      ensures kept == Swept(buckets, now)
    {
      kept := map[];
      var todo := buckets.Keys;
      while todo != {}
        invariant todo <= buckets.Keys
        invariant forall ip :: ip in kept <==> ip in buckets && ip !in todo && Trimmed(buckets[ip], now) != []
        invariant forall ip | ip in kept :: kept[ip] == Trimmed(buckets[ip], now)
        decreases todo
      {
        var ip :| ip in todo;
        var hits := PopExpired(buckets[ip], now);
        if hits != [] {
          kept := kept[ip := hits];
        }
        todo := todo - {ip};
      }
    }

    method MaybeRunJanitor(now: Time)
      modifies this
      ensures View() == AfterJanitor(old(View()), now)
    {
      var n := calls;
      calls := (n + 1) % 0x1_0000_0000_0000_0000;
      if n % JANITOR_EVERY != 0 {
        return;
      }
      if |buckets| >= MAP_SIZE_CAP {
        buckets := map[];
        return;
      }
      if now >= WINDOW {
        buckets := RetainRecent(now);
      }
    }

    method CheckAt(ip: Ip, now: Time) returns (allowed: bool)
      modifies this
      ensures View() == Checked(old(View()), ip, now) && allowed == Admits(old(View()), ip, now)
    {
      MaybeRunJanitor(now);
      var entry := PopExpired(if ip in buckets then buckets[ip] else [], now);
      if |entry| >= MAX_JOINS_PER_WINDOW {
        buckets := buckets[ip := entry];
        return false;
      }
      buckets := buckets[ip := entry + [now]];
      allowed := true;
    }
  }

  // ----- agreement with the log

  /** In the minute after the least instant there is nothing to forget. */
  lemma TrimmedIsPruned(b: Buckets, log: seq<Hit>, ip: Ip, now: Time)
    requires Agrees(b, log, now)
    ensures Trimmed(Bucket(b, ip), now) == Pruned(Bucket(b, ip), now - WINDOW)
  {
    if now < WINDOW {
      TimesSinceOrigin(log, ip);
      var ts, kept := Times(log, ip), Bucket(b, ip);
      assert Remembers(kept, ts, now);
      if kept != [] {
        assert kept[0] == ts[|ts| - |kept|] >= 0;
      }
    }
  }

  lemma SweepTrims(l: Limiter, ip: Ip, now: Time)
    requires !Clears(l)
    ensures Bucket(AfterJanitor(l, now).buckets, ip) in {Bucket(l.buckets, ip), Trimmed(Bucket(l.buckets, ip), now)}
  {
    assert Pruned([], now - WINDOW) == [];
  }

  lemma JanitorForgetsNothing(l: Limiter, log: seq<Hit>, now: Time)
    requires Agrees(l.buckets, log, now)
    ensures Agrees(AfterJanitor(l, now).buckets, Kept(Clears(l), log), now)
  {
    var j, log' := AfterJanitor(l, now), Kept(Clears(l), log);
    forall ip: Ip ensures Remembers(Bucket(j.buckets, ip), Times(log', ip), now) {
      if !Clears(l) {
        assert Remembers(Bucket(l.buckets, ip), Times(log, ip), now);
        TrimmedIsPruned(l.buckets, log, ip, now);
        PruningCounts(l.buckets, log, ip, now);
        hide Times, Remembers, Trimmed;
        SweepTrims(l, ip, now);
      }
    }
  }

  /** One call: the decision is what counting the naive log decides, and the log stays in step. */
  lemma CallAgrees(l: Limiter, log: seq<Hit>, before: Time, ip: Ip, now: Time)
    requires Agrees(l.buckets, log, before) && before <= now && now >= 0
    ensures Admits(l, ip, now) == Allows(Kept(Clears(l), log), MAX_JOINS_PER_WINDOW, ip, now)
    ensures Agrees(Checked(l, ip, now).buckets, Logged(Kept(Clears(l), log), MAX_JOINS_PER_WINDOW, ip, now), now)
  {
    hide Agrees, AfterJanitor, Kept, Trimmed, Bucket, Pruned, Allows, Logged;
    AgreesLater(l.buckets, log, before, now);
    JanitorForgetsNothing(l, log, now);
    TrimmedIsPruned(AfterJanitor(l, now).buckets, Kept(Clears(l), log), ip, now);
    TakingAgrees(AfterJanitor(l, now).buckets, Kept(Clears(l), log), MAX_JOINS_PER_WINDOW, ip, now);
  }

  // ----- whole runs

  function Turns(l: Limiter, calls: seq<Call>): seq<Turn>
    decreases |calls|
  {
    if calls == [] then [] else
      var c := calls[0];
      [Turn(c.ip, c.now, Clears(l), Admits(l, c.ip, c.now))] + Turns(Checked(l, c.ip, c.now), calls[1..])
  }

  lemma {:induction false} RunAgrees(l: Limiter, log: seq<Hit>, before: Time, calls: seq<Call>)
    requires Agrees(l.buckets, log, before) && before >= 0 && Monotone(calls, before)
    ensures InOrder(Turns(l, calls), before) && LogDecides(Turns(l, calls), log, MAX_JOINS_PER_WINDOW)
    decreases |calls|
  {
    if calls != [] {
      var (c, kept) := (calls[0], Kept(Clears(l), log));
      CallAgrees(l, log, before, c.ip, c.now);
      hide Admits, Checked, Agrees, Allows, Clears, Logged;
      RunAgrees(Checked(l, c.ip, c.now), Logged(kept, MAX_JOINS_PER_WINDOW, c.ip, c.now), c.now, calls[1..]);
      assert Turns(l, calls)[1..] == Turns(Checked(l, c.ip, c.now), calls[1..]);
    }
  }

  /** For every sequence of calls in order of time, over any addresses: each decision is the one
      that counting all the admissions since the last clear gives, so neither popping expired heads
      nor the sweep ever changes an answer; and every closed interval of 60 seconds holds at most
      30 of those admissions for any one address. */
  lemma RunsAgreeWithTheLog(calls: seq<Call>)
    requires Monotone(calls, 0)
    ensures LogDecides(Turns(Empty(), calls), [], MAX_JOINS_PER_WINDOW)
    ensures WithinQuota(Admissions(Turns(Empty(), calls), []), MAX_JOINS_PER_WINDOW)
  {
    RunAgrees(Empty(), [], 0, calls);
    NothingIsWithinQuota(MAX_JOINS_PER_WINDOW);
    LogKeepsQuota(Turns(Empty(), calls), [], MAX_JOINS_PER_WINDOW, 0);
  }

  /** So up to the first clear no address gets more than 30 joins into any 60 seconds. */
  lemma UnclearedRunsKeepTheQuota(calls: seq<Call>)
    requires Monotone(calls, 0) && NeverCleared(Turns(Empty(), calls))
    ensures WithinQuota(Admitted(Turns(Empty(), calls)), MAX_JOINS_PER_WINDOW)
  {
    RunsAgreeWithTheLog(calls);
    UnclearedForgetsNothing(Turns(Empty(), calls), []);
    assert [] + Admitted(Turns(Empty(), calls)) == Admitted(Turns(Empty(), calls));
  }

  // ----- the limiter it is meant to be

  /** A limiter that keeps every admission since the map was last cleared, and the addresses that are in
      the map; it counts its calls without an end. */
  datatype Naive = Naive(log: seq<Hit>, held: set<Ip>, calls: nat)

  predicate NaiveClears(v: Naive) {
    v.calls % 256 == 0 && |v.held| >= 50_000
  }

  /** Every 256 calls the addresses without an admission in the last 60 seconds are let go. */
  function NaiveHeld(v: Naive, now: Time): set<Ip> {
    if NaiveClears(v) then {}
    else if v.calls % 256 == 0 && now >= 60_000_000_000 then
      set ip | ip in v.held && Hits(v.log, ip, now - 60_000_000_000, now) != {}
    else v.held
  }

  predicate NaiveAdmits(v: Naive, ip: Ip, now: Time) {
    NaiveClears(v) || |Hits(v.log, ip, now - 60_000_000_000, now)| < 30
  }

  function NaiveNext(v: Naive, ip: Ip, now: Time): Naive {
    Naive(
      (if NaiveClears(v) then [] else v.log) + (if NaiveAdmits(v, ip, now) then [Hit(ip, now)] else []),
      NaiveHeld(v, now) + {ip}, v.calls + 1)
  }

  function NaiveTurns(v: Naive, calls: seq<Call>): seq<Turn>
    decreases |calls|
  {
    if calls == [] then [] else
      var c := calls[0];
      [Turn(c.ip, c.now, NaiveClears(v), NaiveAdmits(v, c.ip, c.now))]
      + NaiveTurns(NaiveNext(v, c.ip, c.now), calls[1..])
  }

  /** The limiter has forgotten nothing that matters of what the naive one knows. */
  ghost predicate Refines(l: Limiter, v: Naive, now: Time) {
    Agrees(l.buckets, v.log, now) && l.buckets.Keys == v.held && l.calls == v.calls % 0x1_0000_0000_0000_0000
  }

  lemma WrapKeepsTurn(n: nat)
    ensures n % 0x1_0000_0000_0000_0000 % 256 == n % 256
    ensures (n % 0x1_0000_0000_0000_0000 + 1) % 0x1_0000_0000_0000_0000 == (n + 1) % 0x1_0000_0000_0000_0000
  {
    var (q, r) := (n / 0x1_0000_0000_0000_0000, n % 0x1_0000_0000_0000_0000);
    assert n == q * 0x1_0000_0000_0000_0000 + r == (q * 0x100_0000_0000_0000) * 256 + r;
  }

  lemma SizeOfKeys(b: Buckets)
    ensures |b| == |b.Keys|
  {}

  lemma ClearsTogether(l: Limiter, v: Naive, now: Time)
    requires Refines(l, v, now)
    ensures Clears(l) <==> NaiveClears(v)
    ensures JanitorDue(l) <==> v.calls % 256 == 0
  {
    WrapKeepsTurn(v.calls);
    SizeOfKeys(l.buckets);
    hide Agrees;
  }

  lemma SweptHolds(l: Limiter, v: Naive, ip: Ip, now: Time)
    requires Refines(l, v, now) && now >= 60_000_000_000 && ip in l.buckets
    ensures Trimmed(l.buckets[ip], now) != [] <==> Hits(v.log, ip, now - 60_000_000_000, now) != {}
  {
    hide Agrees, Hits, InWindow, Remembers, Times, Pruned, Trimmed;
    TrimmedIsPruned(l.buckets, v.log, ip, now);
    PruningCounts(l.buckets, v.log, ip, now);
    InWindowCountsHits(v.log, ip, now - 60_000_000_000);
    EmptyHasNone(Hits(v.log, ip, now - 60_000_000_000, now));
  }

  lemma EmptyHasNone(s: set<nat>)
    ensures |s| == 0 <==> s == {}
  {}

  lemma HoldsTogether(l: Limiter, v: Naive, now: Time)
    requires Refines(l, v, now)
    ensures AfterJanitor(l, now).buckets.Keys == NaiveHeld(v, now)
  {
    ClearsTogether(l, v, now);
    if JanitorDue(l) && !Clears(l) && now >= 60_000_000_000 {
      forall ip | ip in l.buckets
        ensures Trimmed(l.buckets[ip], now) != [] <==> Hits(v.log, ip, now - 60_000_000_000, now) != {}
      {
        SweptHolds(l, v, ip, now);
      }
      hide Agrees, Hits, Trimmed;
      assert Swept(l.buckets, now).Keys == NaiveHeld(v, now);
    }
    hide Agrees, Hits, Trimmed;
  }

  lemma NaiveAllows(v: Naive, ip: Ip, now: Time)
    ensures NaiveAdmits(v, ip, now) <==> Allows(Kept(NaiveClears(v), v.log), 30, ip, now)
  {
    InWindowCountsHits(v.log, ip, now - 60_000_000_000);
    NothingInWindow(ip, now - WINDOW);
    hide Hits, InWindow, NaiveClears;
  }

  lemma NaiveLogs(v: Naive, ip: Ip, now: Time)
    ensures NaiveNext(v, ip, now).log == Logged(Kept(NaiveClears(v), v.log), 30, ip, now)
  {
    NaiveAllows(v, ip, now);
    hide Allows, NaiveAdmits, NaiveClears, NaiveHeld;
  }

  lemma AdmitsTogether(l: Limiter, v: Naive, before: Time, ip: Ip, now: Time)
    requires Refines(l, v, before) && before <= now && now >= 0
    ensures Admits(l, ip, now) <==> NaiveAdmits(v, ip, now)
    ensures Agrees(Checked(l, ip, now).buckets, NaiveNext(v, ip, now).log, now)
  {
    hide Agrees, Admits, Checked, Clears, NaiveClears, NaiveAdmits, NaiveNext, Allows, Logged, Kept;
    ClearsTogether(l, v, before);
    CallAgrees(l, v.log, before, ip, now);
    NaiveAllows(v, ip, now);
    NaiveLogs(v, ip, now);
  }

  lemma CallRefines(l: Limiter, v: Naive, before: Time, ip: Ip, now: Time)
    requires Refines(l, v, before) && before <= now && now >= 0
    ensures Clears(l) == NaiveClears(v) && Admits(l, ip, now) == NaiveAdmits(v, ip, now)
    ensures Refines(Checked(l, ip, now), NaiveNext(v, ip, now), now)
  {
    AgreesLater(l.buckets, v.log, before, now);
    ClearsTogether(l, v, now);
    AdmitsTogether(l, v, before, ip, now);
    HoldsTogether(l, v, now);
    WrapKeepsTurn(v.calls);
    hide Agrees, Admits, Hits, Clears, NaiveClears, NaiveHeld, NaiveAdmits, Trimmed, Swept;
  }

  /** For every sequence of calls in order of time: the limiter clears and admits exactly as the naive
      one, though it drops expired times, sweeps its map, and lets its count of calls wrap. */
  lemma {:induction false} TurnsAreNaive(l: Limiter, v: Naive, before: Time, calls: seq<Call>)
    requires Refines(l, v, before) && before >= 0 && Monotone(calls, before)
    ensures Turns(l, calls) == NaiveTurns(v, calls)
    decreases |calls|
  {
    if calls != [] {
      var c := calls[0];
      CallRefines(l, v, before, c.ip, c.now);
      hide Refines, Clears, NaiveClears, Admits, NaiveAdmits, Checked, NaiveNext;
      TurnsAreNaive(Checked(l, c.ip, c.now), NaiveNext(v, c.ip, c.now), c.now, calls[1..]);
    }
  }

  lemma RunsAreNaive(calls: seq<Call>)
    requires Monotone(calls, 0)
    ensures Turns(Empty(), calls) == NaiveTurns(Naive([], {}, 0), calls)
  {
    assert Empty().buckets.Keys == {};
    TurnsAreNaive(Empty(), Naive([], {}, 0), 0, calls);
  }

  /** No address gets more than 30 of the joins that were admitted since the last clear into any 60
      seconds, both ends included. */
  lemma QuotaOfJoins(calls: seq<Call>, ip: Ip, t: Time)
    requires Monotone(calls, 0)
    ensures |Hits(Admissions(Turns(Empty(), calls), []), ip, t, t + 60_000_000_000)| <= 30
  {
    RunsAgreeWithTheLog(calls);
    InWindowCountsHits(Admissions(Turns(Empty(), calls), []), ip, t);
    hide Admissions, Turns, InWindow, Hits;
  }
}
