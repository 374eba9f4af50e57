/** The per-address limiter of partner registration: a list of times for each address, filtered on
    every call, and every 100 calls a sweep that is meant to drop stale addresses. */
module PartnerLimiter {
  import opened HitLog

  const RATE_LIMIT_MAX := 10
  const JANITOR_EVERY := 100
  const MAP_SIZE_CAP := 10_000

  datatype Limiter = Limiter(windows: Buckets, calls: nat)

  function Empty(): Limiter { Limiter(map[], 0) }

  /** Times count from the least instant the clock can represent. In the minute after it there is no
      cutoff, and computing one panics. */
  datatype Outcome = Panicked | Answered(proceed: bool)

  // ----- specification

  function Retained(ts: seq<Time>, cutoff: Time): (r: seq<Time>)
    ensures |r| <= |ts|
  {
    if ts == [] then [] else
      if ts[0] >= cutoff then [ts[0]] + Retained(ts[1..], cutoff) else Retained(ts[1..], cutoff)
  }

  /** The sweep looks only at whether a list is empty, not at how old its times are. */
  function Swept(windows: Buckets): Buckets {
    map ip | ip in windows && windows[ip] != [] :: windows[ip]
  }

  function AfterJanitor(l: Limiter): Buckets {
    if l.calls % JANITOR_EVERY == 0 then Swept(l.windows) else l.windows
  }

  predicate Clears(l: Limiter) {
    |AfterJanitor(l)| >= MAP_SIZE_CAP
  }

  function AfterUpkeep(l: Limiter): Buckets {
    if Clears(l) then map[] else AfterJanitor(l)
  }

  function Recent(l: Limiter, ip: Ip, now: Time): seq<Time> {
    Retained(Bucket(AfterUpkeep(l), ip), now - WINDOW)
  }

  predicate Admits(l: Limiter, ip: Ip, now: Time) {
    |Recent(l, ip, now)| < RATE_LIMIT_MAX
  }

  function Checked(l: Limiter, ip: Ip, now: Time): Limiter {
    Limiter(
      AfterUpkeep(l)[ip := AddIf(Recent(l, ip, now), Admits(l, ip, now), now)],
      (l.calls + 1) % 0x1_0000_0000_0000_0000)
  }

  // ----- implementation

  class RateLimiter {
    var windows: Buckets
    var calls: nat

    function View(): Limiter
      reads this
    {
      Limiter(windows, calls)
    }

    constructor ()
      ensures View() == Empty()
    {
      windows, calls := map[], 0;
    }

    method RetainRecent(hits: seq<Time>, cutoff: Time) returns (kept: seq<Time>)
      ensures kept == Retained(hits, cutoff)
    {
      kept := [];
      var i := 0;
      while i < |hits|
        invariant 0 <= i <= |hits|
        invariant Retained(hits, cutoff) == kept + Retained(hits[i..], cutoff)
      {
        assert hits[i..][1..] == hits[i + 1..];
        if hits[i] >= cutoff {
          kept := kept + [hits[i]];
        }
        i := i + 1;
      }
    }

    method RetainNonEmpty() returns (kept: Buckets)
      ensures kept == Swept(windows)
    {
      kept := map[];
      var todo := windows.Keys;
      while todo != {}
        invariant todo <= windows.Keys
        invariant forall ip :: ip in kept <==> ip in windows && ip !in todo && windows[ip] != []
        invariant forall ip | ip in kept :: kept[ip] == windows[ip]
        decreases todo
      {
        var ip :| ip in todo;
        if windows[ip] != [] {
          kept := kept[ip := windows[ip]];
        }
        todo := todo - {ip};
      }
    }

    /** A panic while the lock was held has poisoned it: from then on everybody may proceed. */
    method Check(ip: Ip, now: Time, poisoned: bool) returns (outcome: Outcome)
      modifies this
      ensures now < WINDOW ==> outcome == Panicked && View() == old(View())
      ensures now >= WINDOW && poisoned ==> outcome == Answered(true) && View() == old(View())
      ensures now >= WINDOW && !poisoned ==>
        outcome == Answered(Admits(old(View()), ip, now)) && View() == Checked(old(View()), ip, now)
    {
      if now < WINDOW {
        return Panicked;
      }
      var cutoff := now - WINDOW;
      if poisoned {
        return Answered(true);
      }
      var n := calls;
      calls := (n + 1) % 0x1_0000_0000_0000_0000;
      if n % JANITOR_EVERY == 0 {
        windows := RetainNonEmpty();
      }
      if |windows| >= MAP_SIZE_CAP {
        windows := map[];
      }
      var entry := RetainRecent(if ip in windows then windows[ip] else [], cutoff);
      if |entry| >= RATE_LIMIT_MAX {
        windows := windows[ip := entry];
        return Answered(false);
      }
      windows := windows[ip := entry + [now]];
      outcome := Answered(true);
    }
  }

  // ----- the sweep finds nothing

  /** Every call leaves its address with a full list or with a fresh time. */
  ghost predicate NoneEmpty(l: Limiter) {
    forall ip | ip in l.windows :: l.windows[ip] != []
  }

  /** So a sweep has nothing to remove, however old the times are. */
  lemma JanitorRemovesNothing(l: Limiter)
    requires NoneEmpty(l)
    ensures AfterJanitor(l) == l.windows
  {}

  lemma CheckLeavesNoneEmpty(l: Limiter, ip: Ip, now: Time)
    requires NoneEmpty(l)
    ensures NoneEmpty(Checked(l, ip, now))
    ensures Checked(l, ip, now).windows.Keys == (if Clears(l) then {} else l.windows.Keys) + {ip}
  {
    JanitorRemovesNothing(l);
    hide AfterJanitor, Clears, Retained;
  }

  // ----- agreement with the log

  /** Filtering an ascending list is the same as dropping its expired head. */
  lemma {:induction false} RetainedIsPruned(ts: seq<Time>, cutoff: Time)
    requires Ascending(ts)
    ensures Retained(ts, cutoff) == Pruned(ts, cutoff)
  {
    if ts != [] {
      if ts[0] < cutoff {
        RetainedIsPruned(ts[1..], cutoff);
      } else {
        RetainsAll(ts, cutoff);
      }
    }
  }

  lemma {:induction false} RetainsAll(ts: seq<Time>, cutoff: Time)
    requires forall i | 0 <= i < |ts| :: ts[i] >= cutoff
    ensures Retained(ts, cutoff) == ts
  {
    if ts != [] {
      RetainsAll(ts[1..], cutoff);
    }
  }

  lemma BucketsAscend(b: Buckets, log: seq<Hit>, ip: Ip, now: Time)
    requires Agrees(b, log, now)
    ensures Ascending(Bucket(b, ip))
  {
    TimesOrdered(log, ip, now);
    assert Remembers(Bucket(b, ip), Times(log, ip), now);
    hide Times, Bucket;
  }

  lemma UpkeepForgetsNothing(l: Limiter, log: seq<Hit>, now: Time)
    requires Agrees(l.windows, log, now) && NoneEmpty(l)
    ensures Agrees(AfterUpkeep(l), Kept(Clears(l), log), now)
  {
    JanitorRemovesNothing(l);
    hide AfterJanitor, Clears;
  }

  /** One call: the decision is what counting the naive log decides, and the log stays in step. */
  lemma CallAgrees(l: Limiter, log: seq<Hit>, before: Time, ip: Ip, now: Time)
    requires Agrees(l.windows, log, before) && NoneEmpty(l) && before <= now && now >= WINDOW
    ensures Admits(l, ip, now) == Allows(Kept(Clears(l), log), RATE_LIMIT_MAX, ip, now)
    ensures Agrees(Checked(l, ip, now).windows, Logged(Kept(Clears(l), log), RATE_LIMIT_MAX, ip, now), now)
  {
    hide Agrees, AfterUpkeep, Kept, NoneEmpty, Bucket, Pruned, Allows, Logged, Ascending, Retained;
    AgreesLater(l.windows, log, before, now);
    UpkeepForgetsNothing(l, log, now);
    BucketsAscend(AfterUpkeep(l), Kept(Clears(l), log), ip, now);
    RetainedIsPruned(Bucket(AfterUpkeep(l), ip), now - WINDOW);
    TakingAgrees(AfterUpkeep(l), Kept(Clears(l), log), RATE_LIMIT_MAX, ip, now);
  }

  // ----- whole runs

  function After(l: Limiter, calls: seq<Call>): Limiter
    decreases |calls|
  {
    if calls == [] then l else After(Checked(l, calls[0].ip, calls[0].now), calls[1..])
  }

  function Turns(l: Limiter, calls: seq<Call>): seq<Turn>
    decreases |calls|
  {
    if calls == [] then [] else
      var c := calls[0];
      [Turn(c.ip, c.now, Clears(l), Admits(l, c.ip, c.now))] + Turns(Checked(l, c.ip, c.now), calls[1..])
  }

  lemma TurnsBegin(l: Limiter, calls: seq<Call>)
    requires calls != []
    ensures var (c, turns) := (calls[0], Turns(l, calls));
      && turns != [] && turns[0].cleared == Clears(l)
      && turns[1..] == Turns(Checked(l, c.ip, c.now), calls[1..])
  {
    hide Admits, Checked, Clears;
  }

  lemma {:induction false} RunAgrees(l: Limiter, log: seq<Hit>, before: Time, calls: seq<Call>)
    requires Agrees(l.windows, log, before) && NoneEmpty(l) && before >= WINDOW && Monotone(calls, before)
    ensures InOrder(Turns(l, calls), before) && LogDecides(Turns(l, calls), log, RATE_LIMIT_MAX)
    decreases |calls|
  {
    if calls != [] {
      var (c, kept) := (calls[0], Kept(Clears(l), log));
      CallAgrees(l, log, before, c.ip, c.now);
      CheckLeavesNoneEmpty(l, c.ip, c.now);
      hide Admits, Checked, Agrees, Allows, Clears, Logged, NoneEmpty;
      RunAgrees(Checked(l, c.ip, c.now), Logged(kept, RATE_LIMIT_MAX, c.ip, c.now), c.now, calls[1..]);
      assert Turns(l, calls)[1..] == Turns(Checked(l, c.ip, c.now), calls[1..]);
    }
  }

  /** For every sequence of calls in order of time, over any addresses: each decision is the one
      that counting all the admissions since the last clear gives, and every closed interval of 60
      seconds holds at most 10 of those admissions for any one address. */
  lemma RunsAgreeWithTheLog(calls: seq<Call>)
    requires Monotone(calls, WINDOW)
    ensures LogDecides(Turns(Empty(), calls), [], RATE_LIMIT_MAX)
    ensures WithinQuota(Admissions(Turns(Empty(), calls), []), RATE_LIMIT_MAX)
  {
    RunAgrees(Empty(), [], WINDOW, calls);
    NothingIsWithinQuota(RATE_LIMIT_MAX);
    LogKeepsQuota(Turns(Empty(), calls), [], RATE_LIMIT_MAX, WINDOW);
  }

  /** Every address that ever called. */
  function Callers(calls: seq<Call>): set<Ip> {
    set i | 0 <= i < |calls| :: calls[i].ip
  }

  lemma {:induction false} AddressesAreNeverForgottenFrom(l: Limiter, calls: seq<Call>)
    requires NoneEmpty(l) && NeverCleared(Turns(l, calls))
    ensures NoneEmpty(After(l, calls))
    ensures After(l, calls).windows.Keys == l.windows.Keys + Callers(calls)
    decreases |calls|
  {
    if calls != [] {
      var c := calls[0];
      CheckLeavesNoneEmpty(l, c.ip, c.now);
      TurnsBegin(l, calls);
      NeverClearedBegins(Turns(l, calls));
      hide Checked, NoneEmpty, Clears, Admits, Turns, NeverCleared, Callers;
      AddressesAreNeverForgottenFrom(Checked(l, c.ip, c.now), calls[1..]);
      CallersSplit(calls);
    }
  }

  lemma CallersSplit(calls: seq<Call>)
    requires calls != []
    ensures Callers(calls) == {calls[0].ip} + Callers(calls[1..])
  {
    forall ip | ip in Callers(calls) ensures ip in {calls[0].ip} + Callers(calls[1..]) {
      var i :| 0 <= i < |calls| && calls[i].ip == ip;
      if i > 0 {
        assert calls[1..][i - 1].ip == ip;
      }
    }
    forall i | 0 <= i < |calls[1..]| ensures calls[1..][i].ip in Callers(calls) {
      assert calls[1..][i] == calls[i + 1];
    }
  }

  /** The map is documented to lose the addresses whose times have all expired, so that the cap is
      for bursts. It does not: the next call clears everything exactly when 10 000 different
      addresses have called since the last clear, over whatever stretch of time. */
  lemma AddressesAreNeverForgotten(calls: seq<Call>)
    requires NeverCleared(Turns(Empty(), calls))
    ensures After(Empty(), calls).windows.Keys == Callers(calls)
    ensures Clears(After(Empty(), calls)) <==> |Callers(calls)| >= MAP_SIZE_CAP
  {
    AddressesAreNeverForgottenFrom(Empty(), calls);
    var l := After(Empty(), calls);
    JanitorRemovesNothing(l);
    assert l.windows.Keys == Callers(calls);
    assert |l.windows| == |l.windows.Keys|;
  }

  // ----- the limiter it is meant to be

  /** A limiter that keeps every admission since the map was last cleared, and every address that has
      called since then. */
  datatype Naive = Naive(log: seq<Hit>, held: set<Ip>)

  predicate NaiveClears(v: Naive) { |v.held| >= 10_000 }

  predicate NaiveAdmits(v: Naive, ip: Ip, now: Time) {
    NaiveClears(v) || |Hits(v.log, ip, now - 60_000_000_000, now)| < 10
  }

  function NaiveNext(v: Naive, ip: Ip, now: Time): Naive {
    Naive(
      (if NaiveClears(v) then [] else v.log) + (if NaiveAdmits(v, ip, now) then [Hit(ip, now)] else []),
      (if NaiveClears(v) then {} else v.held) + {ip})
  }

  function NaiveTurns(v: Naive, calls: seq<Call>): seq<Turn>
    decreases |calls|
  {
    if calls == [] then [] else
      var c := calls[0];
      [Turn(c.ip, c.now, NaiveClears(v), NaiveAdmits(v, c.ip, c.now))]
      + NaiveTurns(NaiveNext(v, c.ip, c.now), calls[1..])
  }

  ghost predicate Refines(l: Limiter, v: Naive, now: Time) {
    Agrees(l.windows, v.log, now) && NoneEmpty(l) && l.windows.Keys == v.held
  }

  lemma ClearsTogether(l: Limiter, v: Naive, now: Time)
    requires Refines(l, v, now)
    ensures Clears(l) <==> NaiveClears(v)
  {
    JanitorRemovesNothing(l);
    assert |l.windows| == |l.windows.Keys|;
    hide Agrees, AfterJanitor;
  }

  lemma NaiveAllows(v: Naive, ip: Ip, now: Time)
    ensures NaiveAdmits(v, ip, now) <==> Allows(Kept(NaiveClears(v), v.log), 10, ip, now)
  {
    InWindowCountsHits(v.log, ip, now - 60_000_000_000);
    NothingInWindow(ip, now - WINDOW);
    hide Hits, InWindow, NaiveClears;
  }

  lemma NaiveLogs(v: Naive, ip: Ip, now: Time)
    ensures NaiveNext(v, ip, now).log == Logged(Kept(NaiveClears(v), v.log), 10, ip, now)
  {
    NaiveAllows(v, ip, now);
    hide Allows, NaiveAdmits, NaiveClears;
  }

  lemma CallRefines(l: Limiter, v: Naive, before: Time, ip: Ip, now: Time)
    requires Refines(l, v, before) && before <= now && now >= WINDOW
    ensures Clears(l) == NaiveClears(v) && Admits(l, ip, now) == NaiveAdmits(v, ip, now)
    ensures Refines(Checked(l, ip, now), NaiveNext(v, ip, now), now)
  {
    hide Agrees, Admits, Checked, Clears, NaiveClears, NaiveAdmits, Allows, Logged, Kept, NoneEmpty;
    ClearsTogether(l, v, before);
    CallAgrees(l, v.log, before, ip, now);
    CheckLeavesNoneEmpty(l, ip, now);
    NaiveAllows(v, ip, now);
    NaiveLogs(v, ip, now);
  }

  lemma {:induction false} TurnsAreNaive(l: Limiter, v: Naive, before: Time, calls: seq<Call>)
    requires Refines(l, v, before) && before >= WINDOW && Monotone(calls, before)
    ensures Turns(l, calls) == NaiveTurns(v, calls)
    decreases |calls|
  {
    if calls != [] {
      var c := calls[0];
      CallRefines(l, v, before, c.ip, c.now);
      hide Refines, Clears, NaiveClears, Admits, NaiveAdmits, Checked, NaiveNext;
      TurnsAreNaive(Checked(l, c.ip, c.now), NaiveNext(v, c.ip, c.now), c.now, calls[1..]);
    }
  }

  /** For every sequence of calls in order of time, from a minute after the least instant on: the limiter
      clears and admits exactly as the naive one. */
  lemma RunsAreNaive(calls: seq<Call>)
    requires Monotone(calls, 60_000_000_000)
    ensures Turns(Empty(), calls) == NaiveTurns(Naive([], {}), calls)
  {
    assert Empty().windows.Keys == {};
    TurnsAreNaive(Empty(), Naive([], {}), WINDOW, calls);
  }
}
