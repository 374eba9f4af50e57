/** What the flags of a call say about what has happened to it: every field of a peer, read off the
    actions and the messages of a run. */
module OfferFlags {
  import opened Negotiation

  function At(s: System, side: Side): PeerState {
    if side == Left then s.left else s.right
  }

  function Incoming(s: System, side: Side): seq<Message> {
    if side == Left then s.toLeft else s.toRight
  }

  function Outgoing(s: System, side: Side): seq<Message> {
    if side == Left then s.toRight else s.toLeft
  }

  /** The last number below `n` with property `p`, or -1. */
  function Last(n: nat, p: nat -> bool): (i: int)
    ensures -1 <= i < n && (i >= 0 ==> p(i)) && forall j: nat | i < j < n :: !p(j)
  {
    if n == 0 then -1 else if p(n - 1) then n - 1 else Last(n - 1, p)
  }

  // ----- what happened at a step

  function IsBeginOrCommit(actions: seq<Action>, side: Side): nat -> bool {
    (i: nat) => i < |actions| && (actions[i] == Begin(side) || actions[i] == Commit(side))
  }

  function IsCommit(actions: seq<Action>, side: Side): nat -> bool {
    (i: nat) => i < |actions| && actions[i] == Commit(side)
  }

  function IsDelivery(actions: seq<Action>, side: Side): nat -> bool {
    (i: nat) => i < |actions| && actions[i] == Deliver(side)
  }

  /** A message was delivered at step `i`, and unless it was an answer, an answer went out. */
  predicate Taken(run: seq<System>, actions: seq<Action>, side: Side, i: nat) {
    && i < |actions| && i + 1 < |run| && actions[i] == Deliver(side) && Incoming(run[i], side) != []
    && (Incoming(run[i], side)[0].Answer? || |Outgoing(run[i + 1], side)| > |Outgoing(run[i], side)|)
  }

  function IsTaken(run: seq<System>, actions: seq<Action>, side: Side): nat -> bool {
    (i: nat) => Taken(run, actions, side, i)
  }

  function IsCommitOrTaken(run: seq<System>, actions: seq<Action>, side: Side): nat -> bool {
    (i: nat) => (i < |actions| && actions[i] == Commit(side)) || Taken(run, actions, side, i)
  }

  /** An answer was delivered that no offer was waiting for. */
  predicate Stale(run: seq<System>, side: Side, i: nat) {
    i < |run| && Incoming(run[i], side) != [] && Incoming(run[i], side)[0].Answer? && At(run[i], side).state == Stable
  }

  // ----- the flag of makeOffer

  lemma StepMaking(s: System, a: Action, side: Side)
    requires Enabled(s, a)
    ensures At(Step(s, a), side).makingOffer ==
              if a == Begin(side) then true else if a == Commit(side) then false else At(s, side).makingOffer
  {}

  /** `makingOffer` is raised if and only if the last that the side did about offers was to begin one:
      sending one lowers it, whatever else is under way. */
  lemma {:induction false} MakingIsLastBegin(run: seq<System>, actions: seq<Action>, n: nat, side: Side)
    requires IsRun(run, actions) && n < |run|
    ensures var i := Last(n, IsBeginOrCommit(actions, side));
            At(run[n], side).makingOffer == if i < 0 then At(run[0], side).makingOffer else actions[i] == Begin(side)
  {
    if n > 0 {
      MakingIsLastBegin(run, actions, n - 1, side);
      StepMaking(run[n - 1], actions[n - 1], side);
      hide Step, Enabled;
    }
  }

  function Count(actions: seq<Action>, a: Action): nat {
    if actions == [] then 0 else Count(actions[..|actions| - 1], a) + if actions[|actions| - 1] == a then 1 else 0
  }

  lemma StepUnderWay(s: System, a: Action, side: Side)
    requires Enabled(s, a)
    ensures At(Step(s, a), side).inFlight + (if a == Commit(side) then 1 else 0)
         == At(s, side).inFlight + if a == Begin(side) then 1 else 0
  {}

  /** The calls of makeOffer under way are those begun less those that have sent. */
  lemma {:induction false} UnderWay(run: seq<System>, actions: seq<Action>, n: nat, side: Side)
    requires IsRun(run, actions) && n < |run|
    ensures At(run[n], side).inFlight + Count(actions[..n], Commit(side))
         == At(run[0], side).inFlight + Count(actions[..n], Begin(side))
  {
    if n > 0 {
      UnderWay(run, actions, n - 1, side);
      assert actions[..n][..n - 1] == actions[..n - 1];
      StepUnderWay(run[n - 1], actions[n - 1], side);
      hide Step, Enabled;
    }
  }

  // ----- what becomes of a delivered message

  lemma StepDelivers(s: System, side: Side)
    requires Enabled(s, Deliver(side))
    ensures var t := Step(s, Deliver(side));
      var (m, p, q) := (Incoming(s, side)[0], At(s, side), At(t, side));
      var taken := m.Answer? || p.polite || (!p.makingOffer && (p.state == Stable || p.settingAnswer));
      && Incoming(t, side) == Incoming(s, side)[1..]
      && Outgoing(t, side) == Outgoing(s, side) + (if m.Offer? && taken then [Answer(s.nextId, m.id)] else [])
      && q.ignoreOffer == !taken
      && (!taken ==> q == p.(ignoreOffer := true))
      && (taken ==> q.state == Stable && q.settingAnswer == (m.Answer? && p.state == Stable))
      && q.agreed == p.agreed +
           (if m.Offer? then if taken then [Agreement(m.id, Answer(s.nextId, m.id))] else []
            else if p.state == Stable then [] else [Agreement(p.pending, m)])
  {}

  /** An offer that is delivered is answered in that step if and only if the peer is polite, or has not
      begun an offer since it last sent one, and is stable or has its flag raised by a stale answer. */
  lemma OffersAnsweredExactly(run: seq<System>, actions: seq<Action>, n: nat, side: Side)
    requires IsRun(run, actions) && n < |actions| && actions[n] == Deliver(side) && Incoming(run[n], side)[0].Offer?
    ensures var (p, i) := (At(run[n], side), Last(n, IsBeginOrCommit(actions, side)));
      var making := if i < 0 then At(run[0], side).makingOffer else actions[i] == Begin(side);
      if p.polite || (!making && (p.state == Stable || p.settingAnswer)) then
        exists id: nat ::
          Outgoing(run[n + 1], side) == Outgoing(run[n], side) + [Answer(id, Incoming(run[n], side)[0].id)]
      else Outgoing(run[n + 1], side) == Outgoing(run[n], side)
  {
    MakingIsLastBegin(run, actions, n, side);
    StepDelivers(run[n], side);
    hide Step;
    assert Outgoing(run[n], side) + [] == Outgoing(run[n], side);
  }

  lemma StepElsewhere(s: System, a: Action, side: Side)
    requires Enabled(s, a) && a != Deliver(side)
    ensures var (p, q) := (At(s, side), At(Step(s, a), side));
      && q.settingAnswer == p.settingAnswer && q.ignoreOffer == p.ignoreOffer && q.agreed == p.agreed
      && q.state == (if a == Commit(side) then HaveLocalOffer else p.state)
      && (a != Commit(side) ==> q.pending == p.pending)
      && (a == Commit(side) ==> Outgoing(Step(s, a), side) == Outgoing(s, side) + [Offer(q.pending)])
  {}

  lemma TakenExactly(run: seq<System>, actions: seq<Action>, n: nat, side: Side)
    requires IsRun(run, actions) && n < |actions| && actions[n] == Deliver(side)
    ensures var (m, p) := (Incoming(run[n], side)[0], At(run[n], side));
      Taken(run, actions, side, n) <==>
        m.Answer? || p.polite || (!p.makingOffer && (p.state == Stable || p.settingAnswer))
  {
    StepDelivers(run[n], side);
    hide Step;
  }

  /** `isSettingRemoteAnswerPending` is raised if and only if the last message that was not dropped was
      an answer that no offer was waiting for. */
  lemma {:induction false} SettingIsStaleAnswer(run: seq<System>, actions: seq<Action>, n: nat, side: Side)
    requires IsRun(run, actions) && n < |run|
    ensures var i := Last(n, IsTaken(run, actions, side));
            At(run[n], side).settingAnswer == if i < 0 then At(run[0], side).settingAnswer else Stale(run, side, i)
  {
    if n > 0 {
      SettingIsStaleAnswer(run, actions, n - 1, side);
      StepsOfSide(run, actions, n, side);
    }
  }

  /** `ignoreOffer` is raised if and only if the last message delivered was dropped. */
  lemma {:induction false} IgnoreIsLastDropped(run: seq<System>, actions: seq<Action>, n: nat, side: Side)
    requires IsRun(run, actions) && n < |run|
    ensures var i := Last(n, IsDelivery(actions, side));
            At(run[n], side).ignoreOffer ==
              if i < 0 then At(run[0], side).ignoreOffer else !Taken(run, actions, side, i)
  {
    if n > 0 {
      IgnoreIsLastDropped(run, actions, n - 1, side);
      StepsOfSide(run, actions, n, side);
    }
  }

  /** A peer waits with an offer if and only if it has sent one since it last took a message. */
  lemma {:induction false} WaitingIsLastCommit(run: seq<System>, actions: seq<Action>, n: nat, side: Side)
    requires IsRun(run, actions) && n < |run|
    ensures var i := Last(n, IsCommitOrTaken(run, actions, side));
            At(run[n], side).state ==
              if i < 0 then At(run[0], side).state
              else if actions[i] == Commit(side) then HaveLocalOffer else Stable
  {
    if n > 0 {
      WaitingIsLastCommit(run, actions, n - 1, side);
      StepsOfSide(run, actions, n, side);
    }
  }

  /** And the offer it waits with is the last that it has sent. */
  lemma {:induction false} PendingIsLastSent(run: seq<System>, actions: seq<Action>, n: nat, side: Side)
    requires IsRun(run, actions) && n < |run|
    ensures var i := Last(n, IsCommit(actions, side));
            if i < 0 then At(run[n], side).pending == At(run[0], side).pending
            else Outgoing(run[i + 1], side) == Outgoing(run[i], side) + [Offer(At(run[n], side).pending)]
  {
    if n > 0 {
      PendingIsLastSent(run, actions, n - 1, side);
      StepsOfSide(run, actions, n, side);
    }
  }

  /** One step of a run, for the side it is about and for the other. */
  lemma StepsOfSide(run: seq<System>, actions: seq<Action>, n: nat, side: Side)
    requires IsRun(run, actions) && 0 < n < |run|
    ensures var (a, p, q) := (actions[n - 1], At(run[n - 1], side), At(run[n], side));
      && (a == Deliver(side) ==>
            var taken := Taken(run, actions, side, n - 1);
            && q.ignoreOffer == !taken && q.pending == p.pending
            && q.state == (if taken then Stable else p.state)
            && q.settingAnswer == if taken then Stale(run, side, n - 1) else p.settingAnswer)
      && (a != Deliver(side) ==>
            && !Taken(run, actions, side, n - 1)
            && q.settingAnswer == p.settingAnswer && q.ignoreOffer == p.ignoreOffer
            && q.state == (if a == Commit(side) then HaveLocalOffer else p.state)
            && (a != Commit(side) ==> q.pending == p.pending)
            && (a == Commit(side) ==> Outgoing(run[n], side) == Outgoing(run[n - 1], side) + [Offer(q.pending)]))
  {
    if actions[n - 1] == Deliver(side) {
      TakenExactly(run, actions, n - 1, side);
      StepDelivers(run[n - 1], side);
    } else {
      StepElsewhere(run[n - 1], actions[n - 1], side);
    }
  }

  /** A side settles on something in exactly two ways: it answers an offer, or the answer to the offer it
      waits with comes in. */
  lemma AgreedGrowsExactly(run: seq<System>, actions: seq<Action>, n: nat, side: Side)
    requires IsRun(run, actions) && n < |actions|
    ensures var (p, q, taken) := (At(run[n], side), At(run[n + 1], side), Taken(run, actions, side, n));
      if !taken || Stale(run, side, n) then q.agreed == p.agreed
      else
        var (m, sent) := (Incoming(run[n], side)[0], Outgoing(run[n + 1], side));
        if m.Answer? then q.agreed == p.agreed + [Agreement(p.pending, m)]
        else
          sent != [] && sent[|sent| - 1].Answer? && sent[|sent| - 1].to == m.id
          && q.agreed == p.agreed + [Agreement(m.id, sent[|sent| - 1])]
  {
    if actions[n] == Deliver(side) {
      TakenExactly(run, actions, n, side);
      StepDelivers(run[n], side);
    } else {
      StepElsewhere(run[n], actions[n], side);
    }
    hide Step;
  }
}
