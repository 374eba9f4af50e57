/** The naive limiter that both sliding-window limiters must agree with: it keeps every admitted
    hit for ever and counts. */
module HitLog {

  type Ip = string

  /** Instants, in nanoseconds since the least one that the clock can represent. */
  type Time = int

  const WINDOW := 60_000_000_000

  datatype Hit = Hit(ip: Ip, at: Time)

  /** When `ip` was admitted. */
  function Times(log: seq<Hit>, ip: Ip): seq<Time> {
    if log == [] then [] else
      var (before, last) := (Times(log[..|log| - 1], ip), log[|log| - 1]);
      if last.ip == ip then before + [last.at] else before
  }

  /** How many of the times lie in the closed interval. */
  function CountIn(ts: seq<Time>, from: Time, to: Time): (n: nat)
    ensures n <= |ts|
  {
    if ts == [] then 0 else (if from <= ts[0] <= to then 1 else 0) + CountIn(ts[1..], from, to)
  }

  /** How often `ip` was admitted in the closed window that starts at `from`. */
  function InWindow(log: seq<Hit>, ip: Ip, from: Time): nat {
    CountIn(Times(log, ip), from, from + WINDOW)
  }

  predicate Allows(log: seq<Hit>, max: nat, ip: Ip, now: Time) {
    InWindow(log, ip, now - WINDOW) < max
  }

  function Logged(log: seq<Hit>, max: nat, ip: Ip, now: Time): seq<Hit> {
    if Allows(log, max, ip, now) then log + [Hit(ip, now)] else log
  }

  /** The log is in order and not later than `now`. */
  predicate Ordered(log: seq<Hit>, now: Time) {
    && (forall i, j | 0 <= i < j < |log| :: log[i].at <= log[j].at)
    && (forall i | 0 <= i < |log| :: log[i].at <= now)
  }

  predicate Ascending(ts: seq<Time>) {
    forall i, j | 0 <= i < j < |ts| :: ts[i] <= ts[j]
  }

  predicate AllUpTo(ts: seq<Time>, now: Time) {
    forall i | 0 <= i < |ts| :: ts[i] <= now
  }

  // ----- counting

  lemma TimesAppend(log: seq<Hit>, h: Hit, ip: Ip)
    ensures Times(log + [h], ip) == if h.ip == ip then Times(log, ip) + [h.at] else Times(log, ip)
  {
    var more := log + [h];
    assert more[..|more| - 1] == log;
  }

  lemma {:induction false} TimesOrdered(log: seq<Hit>, ip: Ip, now: Time)
    requires Ordered(log, now)
    ensures Ascending(Times(log, ip)) && AllUpTo(Times(log, ip), now)
  {
    if log != [] {
      TimesOrdered(log[..|log| - 1], ip, log[|log| - 1].at);
    }
  }

  lemma {:induction false} CountAppend(ts: seq<Time>, t: Time, from: Time, to: Time)
    ensures CountIn(ts + [t], from, to) == CountIn(ts, from, to) + if from <= t <= to then 1 else 0
  {
    if ts == [] {
      assert [t][1..] == [];
    } else {
      assert (ts + [t])[1..] == ts[1..] + [t];
      CountAppend(ts[1..], t, from, to);
    }
  }

  /** A wider interval holds at least as many. */
  lemma {:induction false} CountGrows(ts: seq<Time>, from: Time, to: Time, from': Time, to': Time)
    requires forall t | t in ts && from <= t <= to :: from' <= t <= to'
    ensures CountIn(ts, from, to) <= CountIn(ts, from', to')
  {
    if ts != [] {
      assert ts[0] in ts;
      assert forall t | t in ts[1..] :: t in ts;
      CountGrows(ts[1..], from, to, from', to');
    }
  }

  /** The places of the log at which `ip` was admitted at a time between the two. */
  function Hits(log: seq<Hit>, ip: Ip, from: Time, to: Time): set<nat> {
    set k: nat | k < |log| && log[k].ip == ip && from <= log[k].at <= to
  }

  /** The window is 60 seconds, both ends included. */
  lemma {:induction false} InWindowCountsHits(log: seq<Hit>, ip: Ip, from: Time)
    ensures InWindow(log, ip, from) == |Hits(log, ip, from, from + 60_000_000_000)|
  {
    var to := from + 60_000_000_000;
    if log == [] {
      assert Hits(log, ip, from, to) == {};
    } else {
      var (n, last) := (|log| - 1, log[|log| - 1]);
      InWindowCountsHits(log[..n], ip, from);
      CountAppend(Times(log[..n], ip), last.at, from, to);
      var (before, after) := (Hits(log[..n], ip, from, to), Hits(log, ip, from, to));
      if last.ip == ip && from <= last.at <= to {
        assert after == before + {n};
      } else {
        assert after == before;
      }
    }
  }

  lemma NothingInWindow(ip: Ip, from: Time)
    ensures InWindow([], ip, from) == 0
  {}

  // ----- the bound

  /** Every closed interval of one window holds at most `max` admissions of each address. */
  ghost predicate WithinQuota(log: seq<Hit>, max: nat) {
    forall ip: Ip, t: Time :: InWindow(log, ip, t) <= max
  }

  lemma LoggingKeepsQuota(log: seq<Hit>, max: nat, ip: Ip, now: Time)
    requires Ordered(log, now) && WithinQuota(log, max)
    ensures Ordered(Logged(log, max, ip, now), now) && WithinQuota(Logged(log, max, ip, now), max)
  {
    if Allows(log, max, ip, now) {
      var log' := log + [Hit(ip, now)];
      forall k: Ip, t: Time ensures InWindow(log', k, t) <= max {
        TimesAppend(log, Hit(ip, now), k);
        if k == ip {
          var ts := Times(log, ip);
          TimesOrdered(log, ip, now);
          CountAppend(ts, now, t, t + WINDOW);
          if t <= now <= t + WINDOW {
            assert forall x | x in ts :: x <= now;
            CountGrows(ts, t, t + WINDOW, now - WINDOW, now);
          }
        }
        assert InWindow(log, k, t) <= max;
      }
    }
  }

  // ----- dropping expired times from the front

  function Pruned(ts: seq<Time>, cutoff: Time): (r: seq<Time>)
    ensures |r| <= |ts| && r == ts[|ts| - |r|..]
    ensures forall i | 0 <= i < |ts| - |r| :: ts[i] < cutoff
    ensures r != [] ==> r[0] >= cutoff
  {
    if ts != [] && ts[0] < cutoff then Pruned(ts[1..], cutoff) else ts
  }

  /** In an ascending sequence, what pruning leaves is what lies in the window. */
  lemma {:induction false} PrunedIsRecent(ts: seq<Time>, now: Time)
    requires Ascending(ts) && AllUpTo(ts, now)
    ensures |Pruned(ts, now - WINDOW)| == CountIn(ts, now - WINDOW, now)
  {
    if ts != [] {
      if ts[0] < now - WINDOW {
        PrunedIsRecent(ts[1..], now);
      } else {
        AllRecent(ts, now);
      }
    }
  }

  lemma {:induction false} AllRecent(ts: seq<Time>, now: Time)
    requires forall i | 0 <= i < |ts| :: now - WINDOW <= ts[i] <= now
    ensures CountIn(ts, now - WINDOW, now) == |ts|
  {
    if ts != [] {
      AllRecent(ts[1..], now);
    }
  }

  /** `kept` is `ts` without some of the times that had expired by `now`. */
  predicate Remembers(kept: seq<Time>, ts: seq<Time>, now: Time) {
    && |kept| <= |ts| && kept == ts[|ts| - |kept|..]
    && forall i | 0 <= i < |ts| - |kept| :: ts[i] < now - WINDOW
  }

  lemma PruneRemembers(kept: seq<Time>, ts: seq<Time>, now: Time)
    requires Remembers(kept, ts, now)
    ensures Remembers(Pruned(kept, now - WINDOW), ts, now)
  {
    var r := Pruned(kept, now - WINDOW);
    var d := |ts| - |kept|;
    forall i | d <= i < |ts| - |r| ensures ts[i] < now - WINDOW {
      assert kept[i - d] == ts[i];
    }
  }

  /** Whatever expired times have been forgotten already, pruning leaves the same. */
  lemma PruneForgetful(kept: seq<Time>, ts: seq<Time>, now: Time)
    requires Remembers(kept, ts, now) && Ascending(ts) && AllUpTo(ts, now)
    ensures |Pruned(kept, now - WINDOW)| == CountIn(ts, now - WINDOW, now)
  {
    var r, s := Pruned(kept, now - WINDOW), Pruned(ts, now - WINDOW);
    PruneRemembers(kept, ts, now);
    if r != [] {
      assert r[0] == ts[|ts| - |r|] >= now - WINDOW;
    }
    if s != [] {
      assert s[0] == ts[|ts| - |s|] >= now - WINDOW;
    }
    assert |r| == |s|;
    PrunedIsRecent(ts, now);
  }

  // ----- limiters that keep one list of recent times for each address

  type Buckets = map<Ip, seq<Time>>

  function Bucket(b: Buckets, ip: Ip): seq<Time> {
    if ip in b then b[ip] else []
  }

  ghost predicate SinceOrigin(log: seq<Hit>) {
    forall i | 0 <= i < |log| :: log[i].at >= 0
  }

  /** The buckets have forgotten nothing that can still matter. */
  ghost predicate Agrees(b: Buckets, log: seq<Hit>, now: Time) {
    && Ordered(log, now)
    && SinceOrigin(log)
    && forall ip: Ip :: Remembers(Bucket(b, ip), Times(log, ip), now)
  }

  lemma AgreesLater(b: Buckets, log: seq<Hit>, now: Time, later: Time)
    requires Agrees(b, log, now) && now <= later
    ensures Agrees(b, log, later)
  {
    hide Times, Bucket;
  }

  lemma {:induction false} TimesSinceOrigin(log: seq<Hit>, ip: Ip)
    requires SinceOrigin(log)
    ensures forall i | 0 <= i < |Times(log, ip)| :: Times(log, ip)[i] >= 0
  {
    if log != [] {
      TimesSinceOrigin(log[..|log| - 1], ip);
    }
  }

  /** What is left of a bucket is remembered, and its size is the naive count. */
  lemma PruningCounts(b: Buckets, log: seq<Hit>, ip: Ip, now: Time)
    requires Agrees(b, log, now)
    ensures var ts := Pruned(Bucket(b, ip), now - WINDOW);
            Remembers(ts, Times(log, ip), now) && |ts| == InWindow(log, ip, now - WINDOW)
  {
    TimesOrdered(log, ip, now);
    assert Remembers(Bucket(b, ip), Times(log, ip), now);
    hide Bucket, Times, Pruned, Remembers;
    PruneForgetful(Bucket(b, ip), Times(log, ip), now);
    PruneRemembers(Bucket(b, ip), Times(log, ip), now);
  }

  function AddIf(ts: seq<Time>, admitted: bool, now: Time): seq<Time> {
    if admitted then ts + [now] else ts
  }

  /** One call on pruned buckets. */
  function Taken(b: Buckets, max: nat, ip: Ip, now: Time): Buckets {
    var entry := Pruned(Bucket(b, ip), now - WINDOW);
    b[ip := AddIf(entry, |entry| < max, now)]
  }

  lemma PushRemembers(kept: seq<Time>, ts: seq<Time>, now: Time)
    requires Remembers(kept, ts, now)
    ensures Remembers(kept + [now], ts + [now], now)
  {
    assert (ts + [now])[|ts| - |kept|..] == ts[|ts| - |kept|..] + [now];
  }

  lemma TakenBucket(b: Buckets, max: nat, ip: Ip, now: Time, k: Ip)
    ensures var entry := Pruned(Bucket(b, ip), now - WINDOW);
            Bucket(Taken(b, max, ip, now), k) == if k == ip then AddIf(entry, |entry| < max, now) else Bucket(b, k)
  {
    hide Pruned;
  }

  lemma LoggedTimes(log: seq<Hit>, max: nat, ip: Ip, now: Time, k: Ip)
    ensures Times(Logged(log, max, ip, now), k) == AddIf(Times(log, k), k == ip && Allows(log, max, ip, now), now)
  {
    TimesAppend(log, Hit(ip, now), k);
    hide Times, Allows;
  }

  lemma TakingRemembers(b: Buckets, log: seq<Hit>, max: nat, ip: Ip, now: Time, k: Ip)
    requires Agrees(b, log, now)
    ensures Remembers(Bucket(Taken(b, max, ip, now), k), Times(Logged(log, max, ip, now), k), now)
  {
    assert Remembers(Bucket(b, k), Times(log, k), now);
    hide Agrees, Times, Remembers, Bucket, Pruned, Taken, Logged, InWindow;
    PruningCounts(b, log, k, now);
    TakenBucket(b, max, ip, now, k);
    LoggedTimes(log, max, ip, now, k);
    if k == ip {
      PushRemembers(Pruned(Bucket(b, k), now - WINDOW), Times(log, k), now);
    }
  }

  lemma LoggedInOrder(log: seq<Hit>, max: nat, ip: Ip, now: Time)
    requires Ordered(log, now) && SinceOrigin(log) && now >= 0
    ensures var log' := Logged(log, max, ip, now); Ordered(log', now) && SinceOrigin(log')
  {
    hide Allows;
  }

  /** A call on the buckets decides what counting the log decides, and stays in step with it. */
  lemma TakingAgrees(b: Buckets, log: seq<Hit>, max: nat, ip: Ip, now: Time)
    requires Agrees(b, log, now) && now >= 0
    ensures (|Pruned(Bucket(b, ip), now - WINDOW)| < max) == Allows(log, max, ip, now)
    ensures Agrees(Taken(b, max, ip, now), Logged(log, max, ip, now), now)
  {
    PruningCounts(b, log, ip, now);
    assert Ordered(log, now) && SinceOrigin(log);
    hide Pruned, Bucket, Times, Remembers, InWindow, Taken, Logged, Ordered, SinceOrigin;
    forall k: Ip ensures Remembers(Bucket(Taken(b, max, ip, now), k), Times(Logged(log, max, ip, now), k), now) {
      TakingRemembers(b, log, max, ip, now, k);
    }
    LoggedInOrder(log, max, ip, now);
  }

  // ----- runs

  datatype Call = Call(ip: Ip, now: Time)

  predicate Monotone(calls: seq<Call>, from: Time) {
    calls == [] || (from <= calls[0].now && Monotone(calls[1..], calls[0].now))
  }

  /** One call as it went: whether the map was cleared on the way, and what was decided. */
  datatype Turn = Turn(ip: Ip, now: Time, cleared: bool, admitted: bool)

  predicate InOrder(turns: seq<Turn>, from: Time) {
    turns == [] || (from <= turns[0].now && InOrder(turns[1..], turns[0].now))
  }

  /** The log a naive limiter keeps, emptied when the limiter's map is cleared. */
  function Kept(cleared: bool, log: seq<Hit>): seq<Hit> {
    if cleared then [] else log
  }

  /** Every decision is the one that the naive limiter takes. */
  predicate LogDecides(turns: seq<Turn>, log: seq<Hit>, max: nat)
    decreases |turns|
  {
    turns == []
    || var (t, kept) := (turns[0], Kept(turns[0].cleared, log));
       t.admitted == Allows(kept, max, t.ip, t.now) && LogDecides(turns[1..], Logged(kept, max, t.ip, t.now), max)
  }

  function AdmittedAt(t: Turn): seq<Hit> {
    if t.admitted then [Hit(t.ip, t.now)] else []
  }

  /** The admissions since the map was last cleared. */
  function Admissions(turns: seq<Turn>, log: seq<Hit>): seq<Hit>
    decreases |turns|
  {
    if turns == [] then log else Admissions(turns[1..], Kept(turns[0].cleared, log) + AdmittedAt(turns[0]))
  }

  /** All admissions. */
  function Admitted(turns: seq<Turn>): seq<Hit> {
    if turns == [] then [] else AdmittedAt(turns[0]) + Admitted(turns[1..])
  }

  predicate NeverCleared(turns: seq<Turn>) {
    forall i | 0 <= i < |turns| :: !turns[i].cleared
  }

  lemma NeverClearedBegins(turns: seq<Turn>)
    requires turns != [] && NeverCleared(turns)
    ensures !turns[0].cleared && NeverCleared(turns[1..])
  {}

  /** Deciding like the naive limiter keeps the quota of the admissions since the last clear. */
  lemma {:induction false} LogKeepsQuota(turns: seq<Turn>, log: seq<Hit>, max: nat, before: Time)
    requires InOrder(turns, before) && LogDecides(turns, log, max)
    requires Ordered(log, before) && WithinQuota(log, max)
    ensures WithinQuota(Admissions(turns, log), max)
    decreases |turns|
  {
    if turns != [] {
      var (t, kept) := (turns[0], Kept(turns[0].cleared, log));
      NothingIsWithinQuota(max);
      assert Ordered(kept, t.now) && WithinQuota(kept, max);
      hide WithinQuota, Ordered, Allows;
      LoggingKeepsQuota(kept, max, t.ip, t.now);
      assert Logged(kept, max, t.ip, t.now) == kept + AdmittedAt(t);
      LogKeepsQuota(turns[1..], kept + AdmittedAt(t), max, t.now);
    }
  }

  lemma NothingIsWithinQuota(max: nat)
    ensures WithinQuota([], max)
  {}

  /** While the map is not cleared, those are all the admissions there were. */
  lemma {:induction false} UnclearedForgetsNothing(turns: seq<Turn>, log: seq<Hit>)
    requires NeverCleared(turns)
    ensures Admissions(turns, log) == log + Admitted(turns)
    decreases |turns|
  {
    if turns != [] {
      hide AdmittedAt;
      assert !turns[0].cleared && forall i | 0 <= i < |turns[1..]| :: turns[1..][i] == turns[i + 1];
      UnclearedForgetsNothing(turns[1..], log + AdmittedAt(turns[0]));
    }
  }
}
