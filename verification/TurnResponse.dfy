/** What a client is answered, down to the characters and the entries: which servers come first, what
    the username says, and which URLs stand in which entry. */
module TurnResponse {
  import opened Options
  import opened StableSort
  import opened TurnConfig
  import opened TurnPool
  import opened TurnProbe
  import opened TurnCredentials

  // ----- matching

  /** `d` is `c`, or the small letter of a capital of the Latin alphabet. */
  predicate Small(c: char, d: char) {
    if 'A' <= c <= 'Z' then d as int - 'a' as int == c as int - 'A' as int else d == c
  }

  /** `s`, its capitals made small, begins with `prefix`. */
  predicate Begins(s: string, prefix: string) {
    |prefix| <= |s| && forall i | 0 <= i < |prefix| :: Small(s[i], prefix[i])
  }

  /** The region of the server is where the client seems to be. */
  predicate Near<T>(s: Server<T>, hint: Option<string>) {
    hint.Some? && Begins(s.cfg.region, hint.value)
  }

  lemma PrefixOnCharacters(s: string, prefix: string)
    ensures HasPrefix(Lowered(s), prefix) <==> Begins(s, prefix)
  {
    var low := Lowered(s);
    if |prefix| <= |s| {
      assert forall i | 0 <= i < |prefix| :: low[..|prefix|][i] == low[i];
      assert forall i | 0 <= i < |prefix| :: low[i] == prefix[i] <==> Small(s[i], prefix[i]);
      assert low[..|prefix|] == prefix <==> forall i | 0 <= i < |prefix| :: low[i] == prefix[i];
    }
  }

  // ----- ordering

  /** The servers on one side of the hint and of one priority. */
  function Class<T>(hint: Option<string>, near: bool, priority: int): Server<T> -> bool {
    (s: Server<T>) => Near(s, hint) == near && s.cfg.priority == priority
  }

  /** `r` has the servers of `s`: the near ones first, by ascending priority on either side, and those that
      are equal in both in the order of `s`. */
  ghost predicate Ordered<T(!new)>(r: seq<Server<T>>, s: seq<Server<T>>, hint: Option<string>) {
    && multiset(r) == multiset(s)
    && (forall i, j | 0 <= i < j < |r| :: Near(r[j], hint) ==> Near(r[i], hint))
    && (forall i, j | 0 <= i < j < |r| ::
          Near(r[i], hint) == Near(r[j], hint) ==> r[i].cfg.priority <= r[j].cfg.priority)
    && (forall near, priority ::
          Where(r, Class(hint, near, priority)) == Where(s, Class(hint, near, priority)))
  }

  lemma {:induction false} WhereAgree<T(!new)>(s: seq<T>, p: T -> bool, q: T -> bool)
    requires forall x :: p(x) <==> q(x)
    ensures Where(s, p) == Where(s, q)
  {
    if s != [] {
      WhereAgree(s[..|s| - 1], p, q);
    }
  }

  lemma NearIsMatching<T>(s: Server<T>, hint: Option<string>)
    ensures Near(s, hint) <==> Matches(s, hint)
  {
    if hint.Some? {
      PrefixOnCharacters(s.cfg.region, hint.value);
    }
  }

  lemma ClassIsTied<T(!new)>(s: seq<Server<T>>, hint: Option<string>, near: bool, priority: int)
    ensures Where(s, Class(hint, near, priority)) == Ties(s, ByGeo(hint), Rank(if near then 0 else 1, priority))
  {
    var (p, q) := (Class<T>(hint, near, priority), Tied(ByGeo<T>(hint), Rank(if near then 0 else 1, priority)));
    forall x: Server<T> ensures p(x) <==> q(x) {
      NearIsMatching(x, hint);
    }
    WhereAgree(s, p, q);
  }

  lemma GeoOrderIsOrdered<T(!new)>(servers: seq<Server<T>>, hint: Option<string>)
    ensures Ordered(OrderByGeo(servers, hint), servers, hint)
  {
    var r := OrderByGeo(servers, hint);
    GeoOrderIsSorted(servers, hint);
    GeoOrderIsOneStableSort(servers, hint);
    hide OrderByGeo, Where, Near, Matches;
    forall i, j | 0 <= i < j < |r|
      ensures Near(r[j], hint) ==> Near(r[i], hint)
      ensures Near(r[i], hint) == Near(r[j], hint) ==> r[i].cfg.priority <= r[j].cfg.priority
    {
      NearIsMatching(r[i], hint);
      NearIsMatching(r[j], hint);
      assert AtMost(ByGeo(hint)(r[i]), ByGeo(hint)(r[j]));
    }
    forall near: bool, priority: int
      ensures Where(r, Class(hint, near, priority)) == Where(servers, Class(hint, near, priority))
    {
      ClassIsTied(r, hint, near, priority);
      ClassIsTied(servers, hint, near, priority);
      GeoOrderKeepsTies(servers, hint, Rank(if near then 0 else 1, priority));
    }
  }

  // ----- the policy

  /** A client is told to relay if and only if there is something to relay through and its hint, with
      capitals made small, begins with one of the forced regions. */
  lemma PolicyOnCharacters(
    mac: (string, string) -> string, state: State, now: nat, hint: Option<string>)
    requires state.secret != ""
    ensures var r := Respond(mac, state, now, hint);
      && r.Credentials?
      && (r.policy == Relay <==>
            Reachable(state) && hint.Some?
            && exists i :: 0 <= i < |state.forceRelayRegions| && Begins(hint.value, state.forceRelayRegions[i]))
  {
    RelayOnlyWithARelay(mac, state, now, hint);
    hide Respond, Reachable, HasPrefix, Lowered, Begins;
    if hint.Some? {
      forall i | 0 <= i < |state.forceRelayRegions|
        ensures HasPrefix(Lowered(hint.value), state.forceRelayRegions[i])
                <==> Begins(hint.value, state.forceRelayRegions[i])
      {
        PrefixOnCharacters(hint.value, state.forceRelayRegions[i]);
      }
    }
  }

  // ----- the entries

  function WithCredentials(): IceServer -> bool {
    (e: IceServer) => e.username.Some? || e.credential.Some?
  }

  function WithoutCredentials(): IceServer -> bool {
    (e: IceServer) => e.username.None? && e.credential.None?
  }

  /** The response to a client that is offered `turnUrls`: the username is the decimal time of expiry, one
      day ahead, and the user; one entry with the credentials lists all the TURN URLs, if there are
      any; one without lists the STUN URLs, if there are any. */
  ghost predicate Offers(
    r: Response, mac: (string, string) -> string, state: State, now: nat, turnUrls: seq<string>)
  {
    && r.Credentials? && r.ttl == 86_400
    && (exists digits: string ::
          Spells(digits, digits, now + 86_400) && (|digits| > 1 ==> digits[0] != '0')
          && r.username == digits + ":chat-user")
    && r.credential == mac(state.secret, r.username)
    && Where(r.iceServers, WithCredentials()) ==
         (if turnUrls == [] then [] else [IceServer(turnUrls, Some(r.username), Some(r.credential))])
    && Where(r.iceServers, WithoutCredentials()) ==
         (if state.stunUrls == [] then [] else [IceServer(state.stunUrls, None, None)])
  }

  lemma WhereIt<T>(s: seq<T>, p: T -> bool)
    requires |s| <= 1 && forall i | 0 <= i < |s| :: p(s[i])
    ensures Where(s, p) == s
  {
    if s != [] {
      WhereOne(s[0], p);
      hide Where;
      assert s == [s[0]];
    }
  }

  lemma OnlyThese<T>(a: seq<T>, b: seq<T>, p: T -> bool)
    requires |b| <= 1 && (forall i | 0 <= i < |a| :: !p(a[i])) && forall i | 0 <= i < |b| :: p(b[i])
    ensures Where(a + b, p) == b && Where(b + a, p) == b
  {
    WhereConcat(a, b, p);
    WhereConcat(b, a, p);
    WhereNone(a, p);
    WhereIt(b, p);
    hide Where;
  }

  lemma RespondOffers(mac: (string, string) -> string, state: State, now: nat, hint: Option<string>)
    requires state.secret != ""
    ensures Offers(Respond(mac, state, now, hint), mac, state, now, TurnUrls(state, hint))
  {
    hide TurnUrls, DecidePolicy, Where, Spells, ShowNat;
    var (r, urls) := (Respond(mac, state, now, hint), TurnUrls(state, hint));
    ShownIsDecimal(now + 86_400);
    assert r.username == ShowNat(now + 86_400) + ":chat-user";
    var (stun, turn) :=
      (if state.stunUrls != [] then [IceServer(state.stunUrls, None, None)] else [],
       if urls != [] then [IceServer(urls, Some(r.username), Some(r.credential))] else []);
    OnlyThese(stun, turn, WithCredentials());
    OnlyThese(turn, stun, WithoutCredentials());
  }

  // ----- after any run

  /** The history ends in at least `n` failures. */
  predicate EndsInFailures(history: seq<Probe>, n: nat) {
    n <= |history| && forall i | |history| - n <= i < |history| :: !history[i].Answered?
  }

  lemma AliveExactly(k: Threshold, s: Server<Trace>)
    ensures IsAlive(k)(s) <==> !EndsInFailures(s.state.history, if k == 0 then 1 else k)
  {
    TrailingIsLongest(s.state.history);
  }

  /** After any run of probes and reloads: a client gets the credentials with the URLs of exactly the
      servers that are alive, in their order, or of the static list when none is. */
  lemma ResponseFollowsHistories(
    k: Threshold, cfgs: seq<ServerCfg>, steps: seq<Step>, mac: (string, string) -> string, state: State, now: nat,
    hint: Option<string>) returns (offered: seq<Server<Health>>)
    requires state.pool == Shown(Serving(Run(k, cfgs, steps))) && state.secret != ""
    ensures var alive := Alive(k, Serving(Run(k, cfgs, steps)));
      var urls := if alive == [] then state.turnUrls else UrlsOf(offered);
      Ordered(offered, Shown(alive), hint) && Offers(Respond(mac, state, now, hint), mac, state, now, urls)
  {
    var alive := Alive(k, Serving(Run(k, cfgs, steps)));
    offered := OrderByGeo(Shown(alive), hint);
    hide Run, Serving, Alive, Shown, OrderByGeo, Ordered, Offers, Respond, TurnUrls, SortBy;
    OffersFollowHistories(k, cfgs, steps, state, hint);
    GeoOrderIsOneStableSort(Shown(alive), hint);
    GeoOrderIsOrdered(Shown(alive), hint);
    RespondOffers(mac, state, now, hint);
  }
}
