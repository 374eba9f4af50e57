/** Which TURN servers a client is given, in what order, and when it is told to relay. */
module TurnCredentials {
  import opened Options
  import opened StableSort
  import opened TurnConfig
  import opened TurnPool
  import opened TurnProbe

  function Lowered(s: string): string {
    seq(|s|, i requires 0 <= i < |s| => if 'A' <= s[i] <= 'Z' then (s[i] as int + 32) as char else s[i])
  }

  predicate HasPrefix(s: string, prefix: string) {
    |prefix| <= |s| && s[..|prefix|] == prefix
  }

  // ----- ordering

  predicate Matches<T>(s: Server<T>, hint: Option<string>) {
    hint.Some? && HasPrefix(Lowered(s.cfg.region), hint.value)
  }

  function ByPriority<T>(): Server<T> -> Rank {
    (s: Server<T>) => Rank(0, s.cfg.priority)
  }

  function ByGeo<T>(hint: Option<string>): Server<T> -> Rank {
    (s: Server<T>) => Rank(if Matches(s, hint) then 0 else 1, s.cfg.priority)
  }

  function Matching<T>(hint: Option<string>): Server<T> -> bool {
    (s: Server<T>) => Matches(s, hint)
  }

  function Other<T>(hint: Option<string>): Server<T> -> bool {
    (s: Server<T>) => !Matches(s, hint)
  }

  /** A stable sort by priority; then, if there is a hint, the matching servers before the rest. */
  function OrderByGeo<T>(servers: seq<Server<T>>, hint: Option<string>): seq<Server<T>> {
    var sorted := SortBy(servers, ByPriority());
    if hint.None? then sorted else Where(sorted, Matching(hint)) + Where(sorted, Other(hint))
  }

  lemma {:induction false} WhereSorted<T>(s: seq<T>, key: T -> Rank, p: T -> bool)
    requires Sorted(s, key)
    ensures Sorted(Where(s, p), key)
  {
    if s != [] {
      var (before, last) := (s[..|s| - 1], s[|s| - 1]);
      WhereSorted(before, key, p);
      var r := Where(before, p);
      forall i | 0 <= i < |r| ensures AtMost(key(r[i]), key(last)) {
        assert r[i] in r;
        var j :| 0 <= j < |before| && before[j] == r[i];
        assert s[j] == before[j];
      }
    }
  }

  /** Sorting keeps the order within every class whose members all have the same key. */
  lemma SortKeepsClass<T>(s: seq<T>, key: T -> Rank, k: Rank, members: T -> bool)
    requires forall x | members(x) :: key(x) == k
    ensures Where(SortBy(s, key), members) == Where(s, members)
  {
    SortKeepsTies(s, key, k);
    hide SortBy, Where;
    ClassWithinTies(SortBy(s, key), key, k, members);
    ClassWithinTies(s, key, k, members);
  }

  lemma ClassWithinTies<T>(s: seq<T>, key: T -> Rank, k: Rank, members: T -> bool)
    requires forall x | members(x) :: key(x) == k
    ensures Where(Ties(s, key, k), members) == Where(s, members)
  {
    hide Where;
    assert forall x :: members(x) <==> Tied(key, k)(x) && members(x);
    WhereWhere(s, Tied(key, k), members, members);
  }

  /** Partitioning does not disturb a class that lies on one side. */
  lemma PartitionKeepsClass<T>(s: seq<T>, side: T -> bool, other: T -> bool, members: T -> bool)
    requires forall x | x in s :: other(x) <==> !side(x)
    requires (forall x | x in s && members(x) :: side(x)) || (forall x | x in s && members(x) :: other(x))
    ensures Where(Where(s, side) + Where(s, other), members) == Where(s, members)
  {
    WhereConcat(Where(s, side), Where(s, other), members);
    if forall x | x in s && members(x) :: side(x) {
      WhereWhere(s, side, members, members);
      WhereNone(Where(s, other), members);
    } else {
      WhereWhere(s, other, members, members);
      WhereNone(Where(s, side), members);
    }
  }

  lemma GeoOrderIsSorted<T(!new)>(servers: seq<Server<T>>, hint: Option<string>)
    ensures Sorted(OrderByGeo(servers, hint), ByGeo(hint))
  {
    var sorted := SortBy(servers, ByPriority());
    SortSorts(servers, ByPriority());
    hide Where, SortBy, HasPrefix;
    if hint.Some? {
      WhereSorted(sorted, ByPriority(), Matching(hint));
      WhereSorted(sorted, ByPriority(), Other(hint));
      var (a, b) := (Where(sorted, Matching(hint)), Where(sorted, Other(hint)));
      assert forall i | 0 <= i < |a| :: a[i] in a;
      assert forall i | 0 <= i < |b| :: b[i] in b;
    }
  }

  lemma GeoOrderKeepsTies<T(!new)>(servers: seq<Server<T>>, hint: Option<string>, k: Rank)
    ensures Ties(OrderByGeo(servers, hint), ByGeo(hint), k) == Ties(servers, ByGeo(hint), k)
  {
    var members := Tied(ByGeo<T>(hint), k);
    SortKeepsClass(servers, ByPriority(), Rank(0, k.priority), members);
    hide Where, SortBy, HasPrefix, Lowered;
    if hint.Some? {
      PartitionKeepsClass(SortBy(servers, ByPriority()), Matching(hint), Other(hint), members);
    }
  }

  /** Sorting and then partitioning is one stable sort by (matches the hint, priority). */
  lemma GeoOrderIsOneStableSort<T(!new)>(servers: seq<Server<T>>, hint: Option<string>)
    ensures OrderByGeo(servers, hint) == SortBy(servers, ByGeo(hint))
    ensures IsStableSort(OrderByGeo(servers, hint), servers, ByGeo(hint))
    ensures multiset(OrderByGeo(servers, hint)) == multiset(servers)
  {
    GeoOrderIsSorted(servers, hint);
    SortIsStable(servers, ByGeo(hint));
    hide OrderByGeo, Ties, Sorted;
    forall k: Rank ensures Ties(OrderByGeo(servers, hint), ByGeo(hint), k) == Ties(servers, ByGeo(hint), k) {
      GeoOrderKeepsTies(servers, hint, k);
    }
    StableSortIsUnique(OrderByGeo(servers, hint), SortBy(servers, ByGeo(hint)), ByGeo(hint));
  }

  // ----- the response

  datatype IceServer = IceServer(urls: seq<string>, username: Option<string>, credential: Option<string>)

  datatype Policy = All | Relay

  datatype Response =
    | Unavailable
    | Credentials(username: string, credential: string, ttl: nat, iceServers: seq<IceServer>, policy: Policy)

  datatype State = State(
    secret: string, pool: seq<Server<Health>>, turnUrls: seq<string>, stunUrls: seq<string>,
    forceRelayRegions: seq<string>)

  const TTL_SECONDS := 86400

  /** `mac` is the keyed hash, which is not interpreted. */
  function GenerateCredentials(
    mac: (string, string) -> string, secret: string, now: nat, turnUrls: seq<string>, stunUrls: seq<string>): Response
  {
    var username := ShowNat(now + TTL_SECONDS) + ":chat-user";
    var credential := mac(secret, username);
    Credentials(
      username, credential, TTL_SECONDS,
      (if stunUrls != [] then [IceServer(stunUrls, None, None)] else [])
      + (if turnUrls != [] then [IceServer(turnUrls, Some(username), Some(credential))] else []),
      All)
  }

  predicate Forced(hint: Option<string>, regions: seq<string>) {
    hint.Some? && exists i | 0 <= i < |regions| :: HasPrefix(Lowered(hint.value), regions[i])
  }

  function DecidePolicy(noRelayAvailable: bool, hint: Option<string>, regions: seq<string>): Policy {
    if noRelayAvailable then All
    else if hint.None? then All
    else if Forced(hint, regions) then Relay
    else All
  }

  /** The dynamic pool while anything in it is healthy, else the static list. */
  function TurnUrls(state: State, hint: Option<string>): seq<string> {
    var healthy := HealthyOf(state.pool);
    if healthy != [] then UrlsOf(OrderByGeo(healthy, hint)) else state.turnUrls
  }

  function Respond(mac: (string, string) -> string, state: State, now: nat, hint: Option<string>): Response {
    if state.secret == "" then Unavailable
    else
      var urls := TurnUrls(state, hint);
      var policy := DecidePolicy(urls == [], hint, state.forceRelayRegions);
      GenerateCredentials(mac, state.secret, now, urls, state.stunUrls).(policy := policy)
  }

  /** An entry a client can relay through. */
  predicate Usable(e: IceServer, r: Response)
    requires r.Credentials?
  {
    e.urls != [] && e.username == Some(r.username) && e.credential == Some(r.credential)
  }

  predicate Reachable(state: State) {
    state.turnUrls != [] || exists i | 0 <= i < |state.pool| :: state.pool[i].state.healthy
  }

  lemma UrlsWhenReachable(state: State, hint: Option<string>)
    ensures TurnUrls(state, hint) != [] <==> Reachable(state)
  {
    var healthy := HealthyOf(state.pool);
    if healthy != [] {
      assert healthy[0] in state.pool && healthy[0].state.healthy;
      GeoOrderIsOneStableSort(healthy, hint);
      assert |multiset(OrderByGeo(healthy, hint))| == |healthy|;
    } else {
      forall i | 0 <= i < |state.pool| ensures !state.pool[i].state.healthy {
        if state.pool[i].state.healthy {
          WhereKeepsMembers(state.pool, IsHealthy(), state.pool[i]);
        }
      }
    }
  }

  lemma EntriesHoldTheCredentials(
    mac: (string, string) -> string, secret: string, now: nat, turnUrls: seq<string>, stunUrls: seq<string>)
    ensures var r := GenerateCredentials(mac, secret, now, turnUrls, stunUrls);
      r.Credentials? && (turnUrls != [] <==> exists i | 0 <= i < |r.iceServers| :: Usable(r.iceServers[i], r))
  {
    hide ShowNat;
    var r := GenerateCredentials(mac, secret, now, turnUrls, stunUrls);
    if turnUrls != [] {
      assert Usable(r.iceServers[|r.iceServers| - 1], r);
    }
  }

  /** "relay" is answered exactly when there is a secret, something to relay through, and a hint in
      a forced region; and whatever the policy, there is then an entry with the credentials of the
      response, so a client told to relay always can. */
  lemma RelayOnlyWithARelay(mac: (string, string) -> string, state: State, now: nat, hint: Option<string>)
    ensures var r := Respond(mac, state, now, hint);
      && (r == Unavailable <==> state.secret == "")
      && (r.Credentials? ==>
          && (r.policy == Relay <==> Reachable(state) && Forced(hint, state.forceRelayRegions))
          && (Reachable(state) <==> exists i | 0 <= i < |r.iceServers| :: Usable(r.iceServers[i], r)))
  {
    UrlsWhenReachable(state, hint);
    if state.secret != "" {
      var urls := TurnUrls(state, hint);
      EntriesHoldTheCredentials(mac, state.secret, now, urls, state.stunUrls);
      var g := GenerateCredentials(mac, state.secret, now, urls, state.stunUrls);
      hide Reachable, TurnUrls, Forced, GenerateCredentials;
      var r := Respond(mac, state, now, hint);
      assert r.iceServers == g.iceServers;
      assert forall e :: Usable(e, r) <==> Usable(e, g);
    }
  }

  // ----- what the offered servers have in common

  /** The flags the pool shows, without the histories. */
  function Shown(servers: seq<Server<Trace>>): (r: seq<Server<Health>>)
    ensures |r| == |servers|
  {
    seq(|servers|, i requires 0 <= i < |servers| => Server(servers[i].cfg, servers[i].state.health))
  }

  /** The servers whose history does not end in as many failures as the threshold. */
  function Alive(k: Threshold, servers: seq<Server<Trace>>): seq<Server<Trace>> {
    Where(servers, IsAlive(k))
  }

  function IsAlive(k: Threshold): Server<Trace> -> bool {
    (s: Server<Trace>) => Trailing(s.state.history) < Effective(k)
  }

  lemma {:induction false} HealthyAreAlive(k: Threshold, servers: seq<Server<Trace>>)
    requires AllSound(k, servers)
    ensures HealthyOf(Shown(servers)) == Shown(Alive(k, servers))
  {
    if servers != [] {
      var (n, before, last) := (|servers| - 1, servers[..|servers| - 1], servers[|servers| - 1]);
      assert Sound(k, last.state);
      HealthyAreAlive(k, before);
      assert Shown(servers)[..n] == Shown(before);
      hide Sound, AllSound, Trailing;
      assert Shown(Alive(k, before) + [last]) == Shown(Alive(k, before)) + Shown([last]);
    }
  }

  /** After any run of probes and reloads: while some server of the pool is alive, the URLs handed
      out are those of all the servers that are alive and of no others, in the one stable order by
      (matches the hint, priority). */
  lemma OffersFollowHistories(
    k: Threshold, cfgs: seq<ServerCfg>, steps: seq<Step>, state: State, hint: Option<string>)
    requires state.pool == Shown(Serving(Run(k, cfgs, steps)))
    ensures var alive := Alive(k, Serving(Run(k, cfgs, steps)));
      TurnUrls(state, hint) ==
        if alive == [] then state.turnUrls else UrlsOf(SortBy(Shown(alive), ByGeo(hint)))
  {
    hide Run, Serving, AllSound, Alive, Shown, HealthyOf, TurnUrls, UrlsOf, SortBy, ByGeo;
    ServingIsSound(k, cfgs, steps);
    HealthyAreAlive(k, Serving(Run(k, cfgs, steps)));
    UrlsInOrder(state, hint);
  }

  lemma ServingIsSound(k: Threshold, cfgs: seq<ServerCfg>, steps: seq<Step>)
    ensures AllSound(k, Serving(Run(k, cfgs, steps)))
  {
    RunsAreSound(k, cfgs, steps);
    hide Run, Sound;
  }

  lemma UrlsInOrder(state: State, hint: Option<string>)
    ensures var healthy := HealthyOf(state.pool);
      TurnUrls(state, hint) == if healthy == [] then state.turnUrls else UrlsOf(SortBy(healthy, ByGeo(hint)))
  {
    GeoOrderIsOneStableSort(HealthyOf(state.pool), hint);
  }
}
