/** The TURN server pool: a list of server objects that a hot reload replaces as a whole, carrying
    the probe state over by URL. */
module TurnPool {
  import opened Options
  import opened StableSort
  import opened TurnConfig

  /** A server with whatever state is kept about it. */
  datatype Server<T> = Server(cfg: ServerCfg, state: T)

  datatype Health = Health(healthy: bool, failures: nat, rtt: nat)

  /** Servers start out optimistically healthy. */
  const FRESH := Health(true, 0, 0)

  // ----- specification

  /** The state of the last server with this URL: later entries of the lookup table win. */
  function LastOf<T>(prev: seq<Server<T>>, url: string): Option<T> {
    if prev == [] then None
    else if prev[|prev| - 1].cfg.url == url then Some(prev[|prev| - 1].state)
    else LastOf(prev[..|prev| - 1], url)
  }

  function Carry<T>(prev: seq<Server<T>>, cfg: ServerCfg, start: T): Server<T> {
    Server(cfg, match LastOf(prev, cfg.url) case None => start case Some(state) => state)
  }

  function Carried<T>(prev: seq<Server<T>>, cfgs: seq<ServerCfg>, start: T): (r: seq<Server<T>>)
    ensures |r| == |cfgs|
  {
    seq(|cfgs|, i requires 0 <= i < |cfgs| => Carry(prev, cfgs[i], start))
  }

  function UrlsOf<T>(servers: seq<Server<T>>): (r: seq<string>)
    ensures |r| == |servers|
  {
    seq(|servers|, i requires 0 <= i < |servers| => servers[i].cfg.url)
  }

  function CfgUrls(cfgs: seq<ServerCfg>): (r: seq<string>)
    ensures |r| == |cfgs|
  {
    seq(|cfgs|, i requires 0 <= i < |cfgs| => cfgs[i].url)
  }

  /** How many entries of `urls` occur in `among`. */
  function Shared(urls: seq<string>, among: seq<string>): (n: nat)
    ensures n <= |urls|
  {
    if urls == [] then 0
    else Shared(urls[..|urls| - 1], among) + if urls[|urls| - 1] in among then 1 else 0
  }

  datatype Counts = Counts(added: nat, removed: nat, preserved: nat)

  function ReloadCounts(prev: seq<string>, next: seq<string>): Counts {
    var preserved := Shared(next, prev);
    Counts(|next| - preserved, if |prev| >= preserved then |prev| - preserved else 0, preserved)
  }

  function IsHealthy(): Server<Health> -> bool {
    (s: Server<Health>) => s.state.healthy
  }

  function HealthyOf(servers: seq<Server<Health>>): seq<Server<Health>> {
    Where(servers, IsHealthy())
  }

  lemma HealthyPush(servers: seq<Server<Health>>, i: nat)
    requires i < |servers|
    ensures HealthyOf(servers[..i + 1]) ==
              HealthyOf(servers[..i]) + if servers[i].state.healthy then [servers[i]] else []
  {
    assert servers[..i + 1] == servers[..i] + [servers[i]];
    WherePush(servers[..i], servers[i], IsHealthy());
  }

  // ----- implementation

  class TurnServer {
    const cfg: ServerCfg
    var healthy: bool
    var consecutiveFailures: nat
    var lastRttMs: nat

    constructor (cfg: ServerCfg, start: Health)
      ensures View() == Server(cfg, start)
    {
      this.cfg := cfg;
      healthy, consecutiveFailures, lastRttMs := start.healthy, start.failures, start.rtt;
    }

    function View(): Server<Health>
      reads this
    {
      Server(cfg, Health(healthy, consecutiveFailures, lastRttMs))
    }
  }

  function Views(servers: seq<TurnServer>): (r: seq<Server<Health>>)
    reads servers
    ensures |r| == |servers|
  {
    seq(|servers|, i requires 0 <= i < |servers| reads servers => servers[i].View())
  }

  predicate DistinctObjects(servers: seq<TurnServer>) {
    forall i, j | 0 <= i < j < |servers| :: servers[i] != servers[j]
  }

  method BuildServers(cfgs: seq<ServerCfg>) returns (built: seq<TurnServer>)
    ensures Views(built) == Carried([], cfgs, FRESH)
    ensures DistinctObjects(built) && forall s | s in built :: fresh(s)
  {
    built := [];
    var i := 0;
    while i < |cfgs|
      invariant 0 <= i <= |cfgs| && |built| == i
      invariant DistinctObjects(built) && forall s | s in built :: fresh(s)
      invariant forall j | 0 <= j < i :: built[j].View() == Server(cfgs[j], FRESH)
    {
      var server := new TurnServer(cfgs[i], FRESH);
      built := built + [server];
      i := i + 1;
    }
  }

  class Pool {
    var servers: seq<TurnServer>

    constructor (cfgs: seq<ServerCfg>)
      ensures Views(servers) == Carried([], cfgs, FRESH)
      ensures DistinctObjects(servers)
    {
      var built := BuildServers(cfgs);
      servers := built;
    }

    /** The servers that are flagged healthy, in the order of the pool. */
    method Healthy() returns (up: seq<TurnServer>)
      ensures Views(up) == HealthyOf(Views(servers))
      ensures forall s | s in up :: s in servers
    {
      up := [];
      var i := 0;
      while i < |servers|
        invariant 0 <= i <= |servers|
        invariant Views(up) == HealthyOf(Views(servers)[..i])
        invariant forall s | s in up :: s in servers
      {
        HealthyPush(Views(servers), i);
        if servers[i].healthy {
          assert Views(up + [servers[i]]) == Views(up) + [servers[i].View()];
          up := up + [servers[i]];
        }
        i := i + 1;
      }
      assert Views(servers)[..i] == Views(servers);
    }

    method ByUrl() returns (byUrl: map<string, TurnServer>)
      ensures forall url :: url in byUrl <==> LastOf(Views(servers), url).Some?
      ensures forall url | url in byUrl ::
        byUrl[url] in servers && LastOf(Views(servers), url) == Some(byUrl[url].View().state)
    {
      byUrl := map[];
      var i := 0;
      while i < |servers|
        invariant 0 <= i <= |servers|
        invariant forall url :: url in byUrl <==> LastOf(Views(servers)[..i], url).Some?
        invariant forall url | url in byUrl ::
          byUrl[url] in servers && LastOf(Views(servers)[..i], url) == Some(byUrl[url].View().state)
      {
        assert Views(servers)[..i + 1][..i] == Views(servers)[..i];
        byUrl := byUrl[servers[i].cfg.url := servers[i]];
        i := i + 1;
      }
      assert Views(servers)[..i] == Views(servers);
    }

    /** Replaces the pool by new objects, one for each configuration. */
    method Reload(cfgs: seq<ServerCfg>) returns (added: nat, removed: nat, preserved: nat)
      modifies this
      ensures Views(servers) == Carried(old(Views(servers)), cfgs, FRESH)
      ensures DistinctObjects(servers) && forall s | s in servers :: fresh(s)
      ensures Counts(added, removed, preserved) == ReloadCounts(UrlsOf(old(Views(servers))), CfgUrls(cfgs))
    {
      hide LastOf, UrlsOf;
      ghost var views := Views(servers);
      var byUrl := ByUrl();
      var built: seq<TurnServer> := [];
      added, preserved := 0, 0;
      var i := 0;
      while i < |cfgs|
        invariant 0 <= i <= |cfgs| && |built| == i
        invariant servers == old(servers) && Views(servers) == views
        invariant DistinctObjects(built) && forall s | s in built :: fresh(s)
        invariant forall j | 0 <= j < i :: built[j].View() == Carry(views, cfgs[j], FRESH)
        invariant preserved == Shared(CfgUrls(cfgs)[..i], UrlsOf(views)) && added == i - preserved
      {
        var cfg := cfgs[i];
        assert CfgUrls(cfgs)[..i + 1][..i] == CfgUrls(cfgs)[..i];
        LastOfKnown(views, cfg.url);
        var server;
        if cfg.url in byUrl {
          var existing := byUrl[cfg.url];
          preserved := preserved + 1;
          server := new TurnServer(cfg, Health(existing.healthy, existing.consecutiveFailures, existing.lastRttMs));
        } else {
          added := added + 1;
          server := new TurnServer(cfg, FRESH);
        }
        built := built + [server];
        i := i + 1;
      }
      assert CfgUrls(cfgs)[..i] == CfgUrls(cfgs);
      removed := if |servers| >= preserved then |servers| - preserved else 0;
      servers := built;
    }
  }

  lemma {:induction false} LastOfKnown<T>(prev: seq<Server<T>>, url: string)
    ensures LastOf(prev, url).Some? <==> url in UrlsOf(prev)
  {
    if prev != [] {
      var before := prev[..|prev| - 1];
      LastOfKnown(before, url);
      assert UrlsOf(prev) == UrlsOf(before) + [prev[|prev| - 1].cfg.url];
    }
  }

  // ----- what a reload does

  predicate Distinct(urls: seq<string>) {
    forall i, j | 0 <= i < j < |urls| :: urls[i] != urls[j]
  }

  predicate IsLast<T>(prev: seq<Server<T>>, url: string, i: int) {
    0 <= i < |prev| && prev[i].cfg.url == url && forall j | i < j < |prev| :: prev[j].cfg.url != url
  }

  /** The state carried to a URL is the state of the last old server with that URL. */
  lemma {:induction false} LastOfIsThere<T>(prev: seq<Server<T>>, url: string)
    requires url in UrlsOf(prev)
    ensures exists i :: IsLast(prev, url, i) && LastOf(prev, url) == Some(prev[i].state)
  {
    var n := |prev| - 1;
    if prev[n].cfg.url != url {
      var before := prev[..n];
      assert UrlsOf(prev) == UrlsOf(before) + [prev[n].cfg.url];
      LastOfIsThere(before, url);
      var i :| IsLast(before, url, i) && LastOf(before, url) == Some(before[i].state);
      assert forall j | 0 <= j < n :: prev[j] == before[j];
      assert IsLast(prev, url, i);
    } else {
      assert IsLast(prev, url, n);
    }
  }

  /** With distinct old URLs: exactly the shared URLs keep their state, all others start fresh. */
  lemma StateFollowsUrl<T>(prev: seq<Server<T>>, cfgs: seq<ServerCfg>, start: T, i: nat, j: nat)
    requires Distinct(UrlsOf(prev)) && j < |cfgs|
    ensures i < |prev| && prev[i].cfg.url == cfgs[j].url ==>
              Carried(prev, cfgs, start)[j] == Server(cfgs[j], prev[i].state)
    ensures cfgs[j].url !in UrlsOf(prev) ==> Carried(prev, cfgs, start)[j] == Server(cfgs[j], start)
  {
    var url := cfgs[j].url;
    LastOfKnown(prev, url);
    if i < |prev| && prev[i].cfg.url == url {
      assert UrlsOf(prev)[i] == url;
      LastOfIsThere(prev, url);
      var k :| IsLast(prev, url, k) && LastOf(prev, url) == Some(prev[k].state);
      assert UrlsOf(prev)[k] == url;
    }
  }

  // ----- what its counts mean

  function Elements(urls: seq<string>): set<string> {
    set i | 0 <= i < |urls| :: urls[i]
  }

  lemma ElementsOfAll(urls: seq<string>)
    requires urls != []
    ensures Elements(urls) == Elements(urls[..|urls| - 1]) + {urls[|urls| - 1]}
    ensures Distinct(urls) ==> Distinct(urls[..|urls| - 1]) && urls[|urls| - 1] !in Elements(urls[..|urls| - 1])
  {
    var (n, before) := (|urls| - 1, urls[..|urls| - 1]);
    assert forall i | 0 <= i < n :: before[i] == urls[i];
    assert urls[n] in Elements(urls);
  }

  /** How many entries of `urls` occur in `among` and have occurred in `urls` before. */
  function Repeats(urls: seq<string>, among: seq<string>): nat {
    if urls == [] then 0
    else
      var (last, before) := (urls[|urls| - 1], urls[..|urls| - 1]);
      Repeats(before, among) + if last in among && last in before then 1 else 0
  }

  lemma {:induction false} DistinctRepeatsNothing(urls: seq<string>, among: seq<string>)
    requires Distinct(urls)
    ensures Repeats(urls, among) == 0
  {
    if urls != [] {
      DistinctRepeatsNothing(urls[..|urls| - 1], among);
    }
  }

  /** Counting the shared entries of a list counts the common elements, and repetitions again. */
  lemma {:induction false} SharedIsIntersection(urls: seq<string>, among: seq<string>)
    ensures Shared(urls, among) == |Elements(urls) * Elements(among)| + Repeats(urls, among)
  {
    if urls == [] {
      assert Elements(urls) * Elements(among) == {};
    } else {
      var (last, before) := (urls[|urls| - 1], urls[..|urls| - 1]);
      ElementsOfAll(urls);
      SharedIsIntersection(before, among);
      assert last in among <==> last in Elements(among);
      assert last in before <==> last in Elements(before);
      hide Elements;
      var common := Elements(before) * Elements(among);
      if last in among {
        assert Elements(urls) * Elements(among) == common + {last};
      } else {
        assert Elements(urls) * Elements(among) == common;
      }
    }
  }

  lemma {:induction false} AllShared(urls: seq<string>, among: seq<string>)
    ensures Shared(urls, among) == |urls| <==> forall i | 0 <= i < |urls| :: urls[i] in among
  {
    if urls != [] {
      var before := urls[..|urls| - 1];
      AllShared(before, among);
      assert forall i | 0 <= i < |before| :: before[i] == urls[i];
    }
  }

  /** For every reload: the new size is what was preserved plus what was added; it is the old size
      less `removed` plus `added` exactly when no more new entries have an old URL than there are old
      entries; and `removed` counts the old entries absent from the new list exactly when the shared
      URLs are repeated equally often in both lists, or when nothing is absent and more new entries
      than that have an old URL. */
  lemma CountsOfAnyReload(prev: seq<string>, next: seq<string>)
    ensures var c := ReloadCounts(prev, next);
      && |next| == c.preserved + c.added
      && (|next| == |prev| - c.removed + c.added <==> Shared(next, prev) <= |prev|)
      && (c.removed == |prev| - Shared(prev, next) <==>
            || Repeats(prev, next) == Repeats(next, prev)
            || (Shared(next, prev) > |prev| && forall i | 0 <= i < |prev| :: prev[i] in next))
  {
    SharedIsIntersection(prev, next);
    SharedIsIntersection(next, prev);
    AllShared(prev, next);
    assert Elements(prev) * Elements(next) == Elements(next) * Elements(prev);
  }

  /** With distinct URLs on both sides nothing saturates and the counts mean what they say. */
  lemma CountsOfDistinctUrls(prev: seq<string>, next: seq<string>)
    requires Distinct(prev) && Distinct(next)
    ensures var c := ReloadCounts(prev, next);
      && c.preserved <= |prev| && |next| == |prev| - c.removed + c.added
      && c.preserved == |Elements(next) * Elements(prev)|
      && c.removed == |Elements(prev) - Elements(next)|
      && c.added == |Elements(next) - Elements(prev)|
  {
    SharedIsIntersection(next, prev);
    DistinctRepeatsNothing(next, prev);
    var (o, n) := (Elements(prev), Elements(next));
    DistinctSize(prev);
    DistinctSize(next);
    assert o == (o - n) + (n * o) && n == (n - o) + (n * o);
    assert |o| == |o - n| + |n * o| && |n| == |n - o| + |n * o|;
  }

  lemma {:induction false} DistinctSize(urls: seq<string>)
    requires Distinct(urls)
    ensures |Elements(urls)| == |urls|
  {
    if urls == [] {
      assert Elements(urls) == {};
    } else {
      ElementsOfAll(urls);
      DistinctSize(urls[..|urls| - 1]);
    }
  }

  /** A URL listed twice after a reload breaks both readings: nothing was removed or added, yet the
      pool has grown. */
  lemma RepeatedUrlsMiscount(url: string)
    ensures ReloadCounts([url], [url, url]) == Counts(0, 0, 2)
  {
    var next := [url, url];
    assert next[..1] == [url] && [url][..0] == [];
    assert Shared(next[..1], [url]) == 1;
  }
}
