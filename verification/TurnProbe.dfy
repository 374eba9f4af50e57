/** The background probe loop and what it keeps true of every server object, across reloads. */
module TurnProbe {
  import opened Options
  import opened TurnConfig
  import opened TurnPool

  const U32 := 0x1_0000_0000

  /** How many failures in a row take a server down. */
  type Threshold = k: nat | k < 0x1_0000_0000

  /** One probe of one server: its name did not resolve, it did not answer, or it did. */
  datatype Probe = Unresolved | NoAnswer | Answered(rtt: nat)

  datatype Event = Down | Up

  // ----- one update

  function Probed(h: Health, k: Threshold, p: Probe): Health {
    match p
    case Answered(rtt) => Health(true, 0, rtt)
    case _ =>
      var fails := (h.failures + 1) % U32;
      Health(h.healthy && fails < k, fails, h.rtt)
  }

  /** Only a change of the flag is reported. */
  function Reported(h: Health, k: Threshold, p: Probe): Option<Event> {
    var after := Probed(h, k, p).healthy;
    if h.healthy && !after then Some(Down) else if !h.healthy && after then Some(Up) else None
  }

  method Failed(server: TurnServer, k: Threshold) returns (event: Option<Event>)
    modifies server
    ensures forall p: Probe | !p.Answered? ::
      server.View() == old(server.View()).(state := Probed(old(server.View()).state, k, p))
      && event == Reported(old(server.View()).state, k, p)
  {
    var fails := (server.consecutiveFailures + 1) % U32;
    server.consecutiveFailures := fails;
    event := None;
    if fails >= k {
      var was := server.healthy;
      server.healthy := false;
      if was {
        event := Some(Down);
      }
    }
  }

  method Update(server: TurnServer, k: Threshold, p: Probe) returns (event: Option<Event>)
    modifies server
    ensures server.View() == old(server.View()).(state := Probed(old(server.View()).state, k, p))
    ensures event == Reported(old(server.View()).state, k, p)
  {
    match p {
      case Unresolved => event := Failed(server, k);
      case NoAnswer => event := Failed(server, k);
      case Answered(rtt) =>
        server.consecutiveFailures := 0;
        server.lastRttMs := rtt;
        var was := server.healthy;
        server.healthy := true;
        event := if was then None else Some(Up);
    }
  }

  method CountHealthy(servers: seq<TurnServer>) returns (n: nat)
    ensures n == |HealthyOf(Views(servers))|
  {
    n := 0;
    var i := 0;
    while i < |servers|
      invariant 0 <= i <= |servers|
      invariant n == |HealthyOf(Views(servers)[..i])|
    {
      HealthyPush(Views(servers), i);
      if servers[i].healthy {
        n := n + 1;
      }
      i := i + 1;
    }
    assert Views(servers)[..i] == Views(servers);
  }

  /** One tick over a snapshot of the pool: every server is updated once, and the gauge is set to
      how many of the snapshot are then healthy. */
  method Tick(snapshot: seq<TurnServer>, k: Threshold, probes: seq<Probe>) returns (gauge: nat)
    requires DistinctObjects(snapshot) && |probes| == |snapshot|
    modifies snapshot
    ensures forall i | 0 <= i < |snapshot| ::
      snapshot[i].View() == old(snapshot[i].View()).(state := Probed(old(snapshot[i].View()).state, k, probes[i]))
    ensures gauge == |HealthyOf(Views(snapshot))|
  {
    var i := 0;
    while i < |snapshot|
      invariant 0 <= i <= |snapshot|
      invariant forall j | 0 <= j < i ::
        snapshot[j].View() == old(snapshot[j].View()).(state := Probed(old(snapshot[j].View()).state, k, probes[j]))
      invariant forall j | i <= j < |snapshot| :: snapshot[j].View() == old(snapshot[j].View())
    {
      var _ := Update(snapshot[i], k, probes[i]);
      i := i + 1;
    }
    gauge := CountHealthy(snapshot);
  }

  // ----- histories

  function Trailing(history: seq<Probe>): (n: nat)
    ensures n <= |history|
  {
    if history == [] || history[|history| - 1].Answered? then 0 else 1 + Trailing(history[..|history| - 1])
  }

  /** `n` is the length of the longest run of failures at the end. */
  lemma {:induction false} TrailingIsLongest(history: seq<Probe>)
    ensures var n := Trailing(history);
      && (forall i | |history| - n <= i < |history| :: !history[i].Answered?)
      && (n < |history| ==> history[|history| - n - 1].Answered?)
  {
    if history != [] && !history[|history| - 1].Answered? {
      TrailingIsLongest(history[..|history| - 1]);
    }
  }

  function LastRtt(history: seq<Probe>): nat {
    if history == [] then 0
    else if history[|history| - 1].Answered? then history[|history| - 1].rtt
    else LastRtt(history[..|history| - 1])
  }

  /** The last round-trip time is that of the last answer, and 0 before there was any. */
  lemma {:induction false} LastRttIsLast(history: seq<Probe>, i: nat)
    ensures i < |history| && history[i].Answered? && (forall j | i < j < |history| :: !history[j].Answered?) ==>
              LastRtt(history) == history[i].rtt
    ensures (forall j | 0 <= j < |history| :: !history[j].Answered?) ==> LastRtt(history) == 0
  {
    if history != [] && !history[|history| - 1].Answered? {
      LastRttIsLast(history[..|history| - 1], i);
    }
  }

  /** A threshold of zero acts like one. */
  function Effective(k: Threshold): nat {
    if k == 0 then 1 else k
  }

  /** What the fields of a server with this history must be. */
  function HealthOf(k: Threshold, history: seq<Probe>): Health {
    Health(Trailing(history) < Effective(k), Trailing(history) % U32, LastRtt(history))
  }

  /** One update follows the history, also when the 32-bit counter wraps. */
  lemma UpdateFollowsHistory(k: Threshold, history: seq<Probe>, p: Probe)
    ensures Probed(HealthOf(k, history), k, p) == HealthOf(k, history + [p])
  {
    var longer := history + [p];
    assert longer[..|longer| - 1] == history;
    if !p.Answered? {
      WrapStep(Trailing(history));
    }
  }

  lemma WrapStep(n: nat)
    ensures (n % U32 + 1) % U32 == (n + 1) % U32
    ensures n + 1 < U32 ==> (n + 1) % U32 == n + 1
  {}

  // ----- runs

  /** A server object with everything that happened to it and to the objects it continues. */
  datatype Trace = Trace(health: Health, history: seq<Probe>, events: seq<Event>)

  const START := Trace(FRESH, [], [])

  /** All objects ever made; those from `current` on are the pool, the others can still be held in
      the snapshot of a tick. */
  datatype World = World(objects: seq<Server<Trace>>, current: nat)

  datatype Step = ProbeOne(i: nat, p: Probe) | Reload(cfgs: seq<ServerCfg>)

  function Recorded(t: Trace, k: Threshold, p: Probe): Trace {
    Trace(Probed(t.health, k, p), t.history + [p],
          match Reported(t.health, k, p) case None => t.events case Some(e) => t.events + [e])
  }

  function Serving(w: World): seq<Server<Trace>>
    requires w.current <= |w.objects|
  {
    w.objects[w.current..]
  }

  function Next(w: World, k: Threshold, step: Step): (r: World)
    requires w.current <= |w.objects|
    ensures r.current <= |r.objects|
  {
    match step
    case ProbeOne(i, p) =>
      if i < |w.objects| then
        w.(objects := w.objects[i := w.objects[i].(state := Recorded(w.objects[i].state, k, p))])
      else w
    case Reload(cfgs) => World(w.objects + Carried(Serving(w), cfgs, START), |w.objects|)
  }

  function Run(k: Threshold, cfgs: seq<ServerCfg>, steps: seq<Step>): (w: World)
    ensures w.current <= |w.objects|
  {
    if steps == [] then World(Carried([], cfgs, START), 0)
    else Next(Run(k, cfgs, steps[..|steps| - 1]), k, steps[|steps| - 1])
  }

  /** Downs and ups take turns, the first is a down, and the last one tells the flag. */
  predicate Alternates(events: seq<Event>, healthy: bool) {
    && (forall i | 0 <= i < |events| :: events[i] == if i % 2 == 0 then Down else Up)
    && (healthy <==> |events| % 2 == 0)
  }

  predicate Sound(k: Threshold, t: Trace) {
    t.health == HealthOf(k, t.history) && Alternates(t.events, t.health.healthy)
  }

  ghost predicate AllSound(k: Threshold, servers: seq<Server<Trace>>) {
    forall i | 0 <= i < |servers| :: Sound(k, servers[i].state)
  }

  lemma StartIsSound(k: Threshold)
    ensures Sound(k, START)
  {}

  lemma RecordingKeepsSound(k: Threshold, t: Trace, p: Probe)
    requires Sound(k, t)
    ensures Sound(k, Recorded(t, k, p))
  {
    UpdateFollowsHistory(k, t.history, p);
    hide HealthOf, Probed;
  }

  lemma CarryingKeepsSound(k: Threshold, prev: seq<Server<Trace>>, cfgs: seq<ServerCfg>)
    requires AllSound(k, prev)
    ensures AllSound(k, Carried(prev, cfgs, START))
  {
    StartIsSound(k);
    forall i | 0 <= i < |cfgs| ensures Sound(k, Carry(prev, cfgs[i], START).state) {
      LastOfKnown(prev, cfgs[i].url);
      if LastOf(prev, cfgs[i].url).Some? {
        LastOfIsThere(prev, cfgs[i].url);
      }
    }
  }

  lemma StepKeepsSound(w: World, k: Threshold, step: Step)
    requires w.current <= |w.objects| && AllSound(k, w.objects)
    ensures AllSound(k, Next(w, k, step).objects)
  {
    hide Sound, Recorded;
    match step
    case ProbeOne(i, p) =>
      if i < |w.objects| {
        RecordingKeepsSound(k, w.objects[i].state, p);
      }
    case Reload(cfgs) =>
      CarryingKeepsSound(k, Serving(w), cfgs);
  }

  /** In every run of probes and reloads, for every object that was ever in the pool: its flag says
      exactly whether its inherited history ends in fewer failures than the threshold, its counter
      is that number modulo 2^32, its round-trip time is the last one measured, and the reported
      downs and ups alternate and agree with the flag. */
  lemma {:induction false} HealthFollowsHistory(k: Threshold, cfgs: seq<ServerCfg>, steps: seq<Step>, i: nat)
    requires i < |Run(k, cfgs, steps).objects|
    ensures var t := Run(k, cfgs, steps).objects[i].state;
      && (t.health.healthy <==> Trailing(t.history) < (if k == 0 then 1 else k))
      && t.health.failures == Trailing(t.history) % 0x1_0000_0000
      && t.health.rtt == LastRtt(t.history)
      && Alternates(t.events, t.health.healthy)
  {
    RunsAreSound(k, cfgs, steps);
    assert Sound(k, Run(k, cfgs, steps).objects[i].state);
  }

  lemma {:induction false} RunsAreSound(k: Threshold, cfgs: seq<ServerCfg>, steps: seq<Step>)
    ensures AllSound(k, Run(k, cfgs, steps).objects)
  {
    if steps == [] {
      CarryingKeepsSound(k, [], cfgs);
    } else {
      RunsAreSound(k, cfgs, steps[..|steps| - 1]);
      StepKeepsSound(Run(k, cfgs, steps[..|steps| - 1]), k, steps[|steps| - 1]);
    }
  }
}
