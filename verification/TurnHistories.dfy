/** Which probes a server object has heard of, told from the steps of a run; so that what follows its
    history follows the steps. */
module TurnHistories {
  import opened Options
  import opened TurnConfig
  import opened TurnPool
  import opened TurnProbe

  /** The configurations of all the objects ever made, in the order of their making. */
  function Made(cfgs: seq<ServerCfg>, steps: seq<Step>): seq<ServerCfg> {
    if steps == [] then cfgs
    else
      var (before, last) := (steps[..|steps| - 1], steps[|steps| - 1]);
      Made(cfgs, before) + if last.Reload? then last.cfgs else []
  }

  /** Where the objects of the latest reload begin. */
  function Newest(cfgs: seq<ServerCfg>, steps: seq<Step>): nat {
    if steps == [] then 0
    else
      var (before, last) := (steps[..|steps| - 1], steps[|steps| - 1]);
      if last.Reload? then |Made(cfgs, before)| else Newest(cfgs, before)
  }

  /** The last place from `lo` on that has this URL, if there is one. */
  function LastWith(made: seq<ServerCfg>, lo: nat, url: string): (r: Option<nat>)
    ensures r.Some? ==> lo <= r.value < |made| && made[r.value].url == url
    ensures forall j | lo <= j < |made| && made[j].url == url :: r.Some? && j <= r.value
  {
    if |made| <= lo then None
    else if made[|made| - 1].url == url then Some(|made| - 1)
    else LastWith(made[..|made| - 1], lo, url)
  }

  /** What object `i` has heard: the probes of it since it was made, after everything that the last
      object with its URL in the pool before had heard by then. */
  function Heard(cfgs: seq<ServerCfg>, steps: seq<Step>, i: nat): seq<Probe> {
    if steps == [] then []
    else
      var (before, last) := (steps[..|steps| - 1], steps[|steps| - 1]);
      var made := Made(cfgs, before);
      if i < |made| then Heard(cfgs, before, i) + if last.ProbeOne? && last.i == i then [last.p] else []
      else if i >= |Made(cfgs, steps)| then []
      else match LastWith(made, Newest(cfgs, before), Made(cfgs, steps)[i].url)
        case None => []
        case Some(j) => Heard(cfgs, before, j)
  }

  /** `o` is object `i` as it was made, and has heard what it should. */
  predicate Tells(o: Server<Trace>, cfgs: seq<ServerCfg>, steps: seq<Step>, i: nat) {
    i < |Made(cfgs, steps)| && o.cfg == Made(cfgs, steps)[i] && o.state.history == Heard(cfgs, steps, i)
  }

  ghost predicate Told(w: World, cfgs: seq<ServerCfg>, steps: seq<Step>) {
    && w.current == Newest(cfgs, steps) <= |w.objects| && |w.objects| == |Made(cfgs, steps)|
    && forall i: nat | i < |w.objects| :: Tells(w.objects[i], cfgs, steps, i)
  }

  lemma {:induction false} LastIsLastWith(objects: seq<Server<Trace>>, made: seq<ServerCfg>, lo: nat, url: string)
    requires lo <= |objects| == |made| && forall i | 0 <= i < |made| :: objects[i].cfg == made[i]
    ensures LastOf(objects[lo..], url) ==
      match LastWith(made, lo, url) case None => None case Some(j) => Some(objects[j].state)
  {
    if |made| > lo {
      var n := |made| - 1;
      assert objects[lo..][..n - lo] == objects[..n][lo..] && objects[lo..][n - lo] == objects[n];
      LastIsLastWith(objects[..n], made[..n], lo, url);
    }
  }

  lemma CarriedHear(w: World, cfgs: seq<ServerCfg>, before: seq<Step>, cfg: ServerCfg)
    requires Told(w, cfgs, before)
    ensures Carry(Serving(w), cfg, START).cfg == cfg
    ensures Carry(Serving(w), cfg, START).state.history ==
      match LastWith(Made(cfgs, before), Newest(cfgs, before), cfg.url)
      case None => []
      case Some(j) => Heard(cfgs, before, j)
  {
    var made := Made(cfgs, before);
    forall i: nat | i < |made| ensures w.objects[i].cfg == made[i] {
      assert Tells(w.objects[i], cfgs, before, i);
    }
    LastIsLastWith(w.objects, made, w.current, cfg.url);
    var last := LastWith(made, Newest(cfgs, before), cfg.url);
    hide LastWith, LastOf, Made, Newest, Heard;
    if last.Some? {
      assert Tells(w.objects[last.value], cfgs, before, last.value);
    }
  }

  lemma ReloadMakes(cfgs: seq<ServerCfg>, before: seq<Step>, next: seq<ServerCfg>)
    ensures var steps := before + [Reload(next)];
      Made(cfgs, steps) == Made(cfgs, before) + next && Newest(cfgs, steps) == |Made(cfgs, before)|
  {
    var steps := before + [Reload(next)];
    assert steps[..|steps| - 1] == before && steps[|steps| - 1] == Reload(next);
  }

  lemma ReloadIsHeard(cfgs: seq<ServerCfg>, before: seq<Step>, next: seq<ServerCfg>, i: nat)
    ensures var (made, steps) := (Made(cfgs, before), before + [Reload(next)]);
      Heard(cfgs, steps, i) ==
        if i < |made| then Heard(cfgs, before, i)
        else if i >= |made| + |next| then []
        else match LastWith(made, Newest(cfgs, before), next[i - |made|].url)
          case None => []
          case Some(j) => Heard(cfgs, before, j)
  {
    ReloadMakes(cfgs, before, next);
    var steps := before + [Reload(next)];
    assert steps[..|steps| - 1] == before && steps[|steps| - 1] == Reload(next);
    hide Made, Newest, LastWith;
  }

  lemma NewTells(w: World, cfgs: seq<ServerCfg>, before: seq<Step>, next: seq<ServerCfg>, i: nat)
    requires Told(w, cfgs, before) && i < |next|
    ensures Tells(Carry(Serving(w), next[i], START), cfgs, before + [Reload(next)], |Made(cfgs, before)| + i)
  {
    hide Made, Newest, Heard, LastWith, Carry, Told;
    var (made, steps) := (Made(cfgs, before), before + [Reload(next)]);
    ReloadMakes(cfgs, before, next);
    ReloadIsHeard(cfgs, before, next, |made| + i);
    CarriedHear(w, cfgs, before, next[i]);
    assert Made(cfgs, steps)[|made| + i] == next[i];
  }

  lemma OldTells(o: Server<Trace>, cfgs: seq<ServerCfg>, before: seq<Step>, next: seq<ServerCfg>, i: nat)
    requires Tells(o, cfgs, before, i)
    ensures Tells(o, cfgs, before + [Reload(next)], i)
  {
    ReloadMakes(cfgs, before, next);
    ReloadIsHeard(cfgs, before, next, i);
    hide Made, Newest, Heard, LastWith;
  }

  lemma ReloadTells(w: World, k: Threshold, cfgs: seq<ServerCfg>, before: seq<Step>, next: seq<ServerCfg>)
    requires Told(w, cfgs, before)
    ensures Told(Next(w, k, Reload(next)), cfgs, before + [Reload(next)])
  {
    var (steps, v, n) := (before + [Reload(next)], Next(w, k, Reload(next)), |w.objects|);
    ReloadMakes(cfgs, before, next);
    hide Made, Newest, Heard, Carry, Tells;
    forall i: nat | i < |v.objects| ensures Tells(v.objects[i], cfgs, steps, i) {
      if i < n {
        OldTells(w.objects[i], cfgs, before, next, i);
      } else {
        NewTells(w, cfgs, before, next, i - n);
      }
    }
  }

  lemma ProbeIsHeard(cfgs: seq<ServerCfg>, before: seq<Step>, step: Step, i: nat)
    requires step.ProbeOne? && i < |Made(cfgs, before)|
    ensures var steps := before + [step];
      && Made(cfgs, steps) == Made(cfgs, before) && Newest(cfgs, steps) == Newest(cfgs, before)
      && Heard(cfgs, steps, i) == Heard(cfgs, before, i) + if step.i == i then [step.p] else []
  {
    var steps := before + [step];
    assert steps[..|steps| - 1] == before && steps[|steps| - 1] == step;
    hide LastWith;
  }

  lemma ProbeMakesNothing(cfgs: seq<ServerCfg>, before: seq<Step>, step: Step)
    requires step.ProbeOne?
    ensures Made(cfgs, before + [step]) == Made(cfgs, before) && Newest(cfgs, before + [step]) == Newest(cfgs, before)
  {
    var steps := before + [step];
    assert steps[..|steps| - 1] == before && steps[|steps| - 1] == step;
  }

  lemma ProbeTells(w: World, k: Threshold, cfgs: seq<ServerCfg>, before: seq<Step>, step: Step)
    requires Told(w, cfgs, before) && step.ProbeOne?
    ensures Told(Next(w, k, step), cfgs, before + [step])
  {
    var (steps, v) := (before + [step], Next(w, k, step));
    ProbeMakesNothing(cfgs, before, step);
    hide Made, Newest, Heard, Probed, Reported;
    forall i: nat | i < |v.objects| ensures Tells(v.objects[i], cfgs, steps, i) {
      assert Tells(w.objects[i], cfgs, before, i);
      ProbeIsHeard(cfgs, before, step, i);
    }
  }

  /** In every run: the history of an object is what it has heard of by the steps. */
  lemma {:induction false} HistoriesAreHeard(k: Threshold, cfgs: seq<ServerCfg>, steps: seq<Step>)
    ensures Told(Run(k, cfgs, steps), cfgs, steps)
  {
    if steps == [] {
      var w := Run(k, cfgs, steps);
      forall i: nat | i < |cfgs| ensures Tells(w.objects[i], cfgs, steps, i) {
        assert LastOf<Trace>([], cfgs[i].url) == None;
      }
    } else {
      var (before, last) := (steps[..|steps| - 1], steps[|steps| - 1]);
      assert steps == before + [last];
      HistoriesAreHeard(k, cfgs, before);
      hide Told;
      match last
      case ProbeOne(_, _) => ProbeTells(Run(k, cfgs, before), k, cfgs, before, last);
      case Reload(next) => ReloadTells(Run(k, cfgs, before), k, cfgs, before, next);
    }
  }
}
