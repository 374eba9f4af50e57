/** What an impolite and a polite peer settle on, and exactly when they settle on the same. `left` is
    the impolite peer. */
module CallAgreement {
  import opened Negotiation
  import opened CallHistories

  // ----- the condition

  /** The left side accepts an offer that the right side has replaced or given up. */
  predicate AcceptsStale(s: System) {
    Accepts(s) && !(s.right.state == HaveLocalOffer && s.right.pending == s.toLeft[0].id)
  }

  /** Nobody replaces an offer that will be, or has been, answered: the impolite side neither sends
      nor accepts an offer while it awaits an answer; the polite side sends none while the answer to
      its last is under way, and of the offers that it sends in a row none but the last is accepted. */
  predicate Clean(s: System, a: Action) {
    match a
    case Commit(Left) => !AwaitsAnswer(s)
    case Commit(Right) => !(s.right.state == HaveLocalOffer && HasAnswer(s.toRight))
    case Deliver(Left) => !AcceptsStale(s) && !(Accepts(s) && AwaitsAnswer(s))
    case _ => true
  }

  ghost predicate AllClean(run: seq<System>, actions: seq<Action>, n: nat)
    requires n <= |actions| && n <= |run|
  {
    forall i | 0 <= i < n :: Clean(run[i], actions[i])
  }

  // ----- the states that clean runs can reach

  /** Offers of the peer in a row, its outstanding one last; or they have all been dropped. */
  predicate Row(ms: seq<Message>, p: PeerState) {
    && (forall i | 0 <= i < |ms| :: ms[i].Offer?)
    && (ms != [] ==> p.state == HaveLocalOffer && ms[|ms| - 1] == Offer(p.pending))
    && (forall i | 0 <= i < |ms| - 1 :: ms[i] != Offer(p.pending))
  }

  /** The histories are equal. The outstanding offer of the left side has not been seen, unless
      nobody was there to hear it and another is being made. */
  predicate Even(s: System) {
    && s.left.agreed == s.right.agreed
    && Row(s.toLeft, s.right)
    && (s.toRight == Outstanding(s.left) || (s.toRight == [] && s.left.inFlight > 0))
  }

  /** The polite side has answered the impolite side's offer. In front of the answer there may be
      offers that the impolite side will drop, behind it newer ones. */
  predicate PoliteAhead(s: System) {
    && s.left.state == HaveLocalOffer && s.toRight == []
    && var n := OffersFirst(s.toLeft);
       && n < |s.toLeft| && s.toLeft[n].to == s.left.pending
       && s.right.agreed == s.left.agreed + [Agreement(s.left.pending, s.toLeft[n])]
       && Row(s.toLeft[n + 1..], s.right)
  }

  ghost predicate Sound(s: System) {
    && !s.left.polite && s.right.polite
    && Named(s)
    && (Even(s) || PoliteAhead(s) || LeftAhead(s))
    && Matched(s.left.agreed) && Matched(s.right.agreed)
  }

  lemma CommitLeftSound(s: System)
    requires Sound(s) && s.left.inFlight > 0 && !AwaitsAnswer(s)
    ensures Sound(CommitLeft(s))
  {
    var t := CommitLeft(s);
    hide Matched;
    if LeftAhead(s) {
      assert t.toRight[1..] == s.toRight[1..] + [Offer(s.nextId)];
      LeftAheadAwaits(s);
      assert LeftAhead(t);
    } else {
      SoundAwaits(s);
      assert t.toRight == [Offer(s.nextId)];
      assert Even(t);
    }
  }

  lemma RowPush(ms: seq<Message>, p: PeerState, id: nat)
    requires Row(ms, p) && p.inFlight > 0
    requires forall i | 0 <= i < |ms| && ms[i].Offer? :: ms[i].id < id
    ensures Row(ms + [Offer(id)], Committed(p, id))
  {}

  lemma CommitRightNamed(s: System)
    requires Named(s) && s.right.inFlight > 0
    ensures Named(Step(s, Commit(Right)))
  {}

  lemma CommitRightKeepsRow(s: System, n: nat)
    requires Named(s) && s.right.inFlight > 0 && n <= |s.toLeft| && Row(s.toLeft[n..], s.right)
    ensures var t := Step(s, Commit(Right)); t.toLeft == s.toLeft + [Offer(s.nextId)] && Row(t.toLeft[n..], t.right)
  {
    var t := Step(s, Commit(Right));
    assert t.toLeft[n..] == s.toLeft[n..] + [Offer(s.nextId)];
    assert forall i | 0 <= i < |s.toLeft[n..]| :: s.toLeft[n..][i] == s.toLeft[n + i];
    hide Row;
    RowPush(s.toLeft[n..], s.right, s.nextId);
  }

  lemma CommitRightSound(s: System)
    requires Sound(s) && s.right.inFlight > 0 && Clean(s, Commit(Right))
    ensures Sound(Step(s, Commit(Right)))
  {
    var t := Step(s, Commit(Right));
    hide Matched, Row, Named;
    CommitRightNamed(s);
    if PoliteAhead(s) {
      OffersFirstPush(s.toLeft, Offer(s.nextId));
      CommitRightKeepsRow(s, OffersFirst(s.toLeft) + 1);
      assert PoliteAhead(t);
    } else {
      assert Even(s) && s.toLeft[0..] == s.toLeft && t.toLeft[0..] == t.toLeft;
      CommitRightKeepsRow(s, 0);
      assert Even(t);
    }
  }

  lemma DropSound(s: System)
    requires Sound(s) && s.toLeft != [] && s.toLeft[0].Offer? && Ignores(s.left, s.toLeft[0])
    ensures Sound(DeliverLeft(s))
  {
    var t := DeliverLeft(s);
    hide Matched;
    assert t.toRight == s.toRight;
    if Even(s) {
      assert Even(t);
    } else {
      var n := OffersFirst(s.toLeft);
      assert t.toLeft[n..] == s.toLeft[n + 1..];
      assert PoliteAhead(t);
    }
  }

  /** Where the left side waits with an offer, the phase tells whether an answer will come. */
  lemma SoundAwaits(s: System)
    requires Sound(s)
    ensures PoliteAhead(s) ==> AwaitsAnswer(s)
    ensures Even(s) ==> (AwaitsAnswer(s) <==> s.toRight != [])
  {
    hide Matched, Named;
    if PoliteAhead(s) {
      assert s.toLeft[OffersFirst(s.toLeft)].Answer?;
    } else if Even(s) && s.toRight != [] {
      assert s.toRight[0].Offer?;
    }
  }

  lemma AcceptLeftSound(s: System)
    requires Sound(s) && Accepts(s) && !AcceptsStale(s) && !AwaitsAnswer(s)
    ensures Sound(DeliverLeft(s))
  {
    SoundAwaits(s);
    var (t, m) := (DeliverLeft(s), s.toLeft[0]);
    assert Even(s) && s.toLeft == [m] && m.id == s.right.pending;
    assert t.toRight == [Answer(s.nextId, m.id)] && t.toRight[1..] == [];
    MatchedSnoc(s.left.agreed, Agreement(m.id, Answer(s.nextId, m.id)));
    hide Matched;
    assert LeftAhead(t);
  }

  lemma AnswerLeftSound(s: System)
    requires Sound(s) && s.toLeft != [] && s.toLeft[0].Answer?
    ensures Sound(DeliverLeft(s))
  {
    var (t, m) := (DeliverLeft(s), s.toLeft[0]);
    assert PoliteAhead(s) && OffersFirst(s.toLeft) == 0;
    assert t.toRight == [];
    MatchedSnoc(s.left.agreed, Agreement(s.left.pending, m));
    hide Matched;
    assert Even(t);
  }

  lemma DeliverRightSound(s: System)
    requires Sound(s) && s.toRight != []
    ensures Sound(Step(s, Deliver(Right)))
  {
    var (t, m) := (Step(s, Deliver(Right)), s.toRight[0]);
    if m.Offer? {
      var answer := Answer(s.nextId, m.id);
      assert s.toRight == [Offer(s.left.pending)];
      MatchedSnoc(s.right.agreed, Agreement(m.id, answer));
      OffersFirstIs(s.toLeft, |s.toLeft|);
      OffersFirstPush(s.toLeft, answer);
      hide Matched;
      assert t.toLeft == s.toLeft + [answer];
      assert t.toLeft[|s.toLeft| + 1..] == [];
      assert PoliteAhead(t);
    } else {
      MatchedSnoc(s.right.agreed, Agreement(s.right.pending, m));
      hide Matched;
      assert t.toLeft == [] && t.toRight == s.toRight[1..];
      assert Even(t);
    }
  }

  lemma BeginSound(s: System, a: Action)
    requires Sound(s) && a.Begin?
    ensures Sound(Step(s, a))
  {
    hide Matched;
  }

  lemma StepKeepsSound(s: System, a: Action)
    requires Sound(s) && Enabled(s, a) && Clean(s, a)
    ensures Sound(Step(s, a))
  {
    hide Sound;
    match a
    case Begin(_) => BeginSound(s, a);
    case Commit(Left) => CommitLeftSound(s);
    case Commit(Right) => CommitRightSound(s);
    case Deliver(Right) => DeliverRightSound(s);
    case Deliver(Left) =>
      if s.toLeft[0].Answer? {
        AnswerLeftSound(s);
      } else if Ignores(s.left, s.toLeft[0]) {
        DropSound(s);
      } else {
        AcceptLeftSound(s);
      }
  }

  lemma StartIsSound(s: System)
    requires Start(s) && !s.left.polite
    ensures Sound(s)
  {}

  // ----- what any other step leads to

  /** The impolite side replaces an offer that will be answered. */
  lemma CommitLeftParts(s: System)
    requires Sound(s) && s.left.inFlight > 0 && AwaitsAnswer(s)
    ensures Parted(CommitLeft(s)) && (!s.left.settingAnswer ==> LeftAstray(CommitLeft(s)))
  {
    var (t, p) := (CommitLeft(s), s.left.pending);
    hide Matched;
    AnswersFirstPush(s.toRight, Offer(s.nextId));
    if LeftAhead(s) {
      assert s.toRight[1] == s.toRight[1..][0] == Offer(p);
      assert AnswersFirst(t.toRight) == 1;
    }
    assert Parting(t, |s.left.agreed|, p);
  }

  /** The polite side replaces an offer that has been answered. */
  lemma CommitRightParts(s: System)
    requires Sound(s) && s.right.inFlight > 0 && !Clean(s, Commit(Right))
    ensures Parted(Step(s, Commit(Right))) && RightAstray(Step(s, Commit(Right)))
  {
    var (t, p) := (Step(s, Commit(Right)), s.right.pending);
    hide Matched;
    assert LeftAhead(s);
    assert forall m | m in s.toRight[1..] :: m != Offer(p);
    assert s.toRight == [s.toRight[0]] + s.toRight[1..];
    assert Parting(Mirror(t), |s.right.agreed|, p);
  }

  /** The impolite side accepts an offer while its own will be answered, which only a raised flag
      makes it do. */
  lemma AcceptAwaitingParts(s: System)
    requires Sound(s) && Accepts(s) && AwaitsAnswer(s)
    ensures s.left.settingAnswer && Parted(DeliverLeft(s))
  {
    var (t, p) := (DeliverLeft(s), s.left.pending);
    hide Matched;
    SoundAwaits(s);
    assert s.toLeft[0] in s.toLeft;
    assert Parting(t, |s.left.agreed|, p);
  }

  /** The impolite side accepts an offer that the polite side has replaced. */
  lemma AcceptStaleParts(s: System)
    requires Sound(s) && AcceptsStale(s) && !AwaitsAnswer(s)
    ensures Parted(DeliverLeft(s)) && RightAstray(DeliverLeft(s))
  {
    SoundAwaits(s);
    var (t, p) := (DeliverLeft(s), s.toLeft[0].id);
    hide Matched;
    assert s.toLeft[0] in s.toLeft;
    assert Even(s) && t.toRight == [Answer(s.nextId, p)];
    assert Parting(Mirror(t), |s.right.agreed|, p);
  }

  lemma UncleanParts(s: System, a: Action)
    requires Sound(s) && Enabled(s, a) && !Clean(s, a)
    ensures Parted(Step(s, a))
    ensures !s.left.settingAnswer ==>
              if a == Commit(Left) then LeftAstray(Step(s, a)) else RightAstray(Step(s, a))
  {
    hide Sound, Parted, LeftAstray, RightAstray;
    match a
    case Commit(Left) => CommitLeftParts(s);
    case Commit(Right) => CommitRightParts(s);
    case Deliver(Left) =>
      if AwaitsAnswer(s) {
        AcceptAwaitingParts(s);
      } else {
        AcceptStaleParts(s);
      }
  }

  // ----- the condition is exact

  /** Clean steps raise no flag. */
  lemma StepKeepsFlagDown(s: System, a: Action)
    requires Sound(s) && Enabled(s, a) && !s.left.settingAnswer
    ensures !Step(s, a).left.settingAnswer
  {
    hide Matched, Named;
  }

  lemma {:induction false} RunVerdict(run: seq<System>, actions: seq<Action>, n: nat)
    requires IsRun(run, actions) && Start(run[0]) && !run[0].left.polite && n < |run|
    ensures AllClean(run, actions, n) ==>
              Sound(run[n]) && (!run[0].left.settingAnswer ==> !run[n].left.settingAnswer)
    ensures !AllClean(run, actions, n) ==>
              Parted(run[n]) && (!run[0].left.settingAnswer ==> LeftAstray(run[n]) || RightAstray(run[n]))
  {
    if n == 0 {
      StartIsSound(run[0]);
    } else {
      RunVerdict(run, actions, n - 1);
      var (s, a) := (run[n - 1], actions[n - 1]);
      hide Sound, Parted, LeftAstray, RightAstray, Step, Enabled, Clean;
      if !AllClean(run, actions, n - 1) {
        StepKeepsParted(s, a);
        if LeftAstray(s) {
          StepKeepsLeftAstray(s, a);
        } else if RightAstray(s) {
          StepKeepsRightAstray(s, a);
        }
      } else if Clean(s, a) {
        StepKeepsSound(s, a);
        if !s.left.settingAnswer {
          StepKeepsFlagDown(s, a);
        }
      } else {
        UncleanParts(s, a);
      }
    }
  }

  /** In every run from every start of a call, and in every quiescent state of it: the two sides have
      settled on the same offers and answers in the same order if and only if nobody replaced an
      offer that was answered. If no earlier call has left the impolite side's flag raised, that is
      so if and only if no answer was applied to another offer than its own. */
  lemma AgreementIsExact(run: seq<System>, actions: seq<Action>, n: nat)
    requires IsRun(run, actions) && Start(run[0]) && !run[0].left.polite && n < |run| && Quiescent(run[n])
    ensures run[n].left.agreed == run[n].right.agreed <==> AllClean(run, actions, n)
    ensures !run[0].left.settingAnswer ==>
              (Matched(run[n].left.agreed) && Matched(run[n].right.agreed) <==> AllClean(run, actions, n))
  {
    RunVerdict(run, actions, n);
    if !AllClean(run, actions, n) {
      PartedDiffers(run[n]);
    }
  }

  /** With the flag down the impolite side never gives way: until something else goes wrong, it
      accepts nothing while it awaits an answer. */
  lemma LoweredFlagNeverYields(run: seq<System>, actions: seq<Action>, n: nat)
    requires IsRun(run, actions) && Start(run[0]) && !run[0].left.polite && n < |run|
    requires !run[0].left.settingAnswer && AllClean(run, actions, n)
    ensures !(Accepts(run[n]) && AwaitsAnswer(run[n]))
  {
    RunVerdict(run, actions, n);
  }

  // ----- when the polite side offers only from the stable state

  ghost predicate RightOffersFromStable(run: seq<System>, actions: seq<Action>, n: nat)
    requires n <= |actions| && n <= |run|
  {
    forall i | 0 <= i < n && actions[i] == Commit(Right) :: run[i].right.state == Stable
  }

  /** The left side neither sends nor accepts an offer while it awaits an answer. */
  predicate LeftOrderly(s: System, a: Action) {
    && (a == Commit(Left) ==> !AwaitsAnswer(s))
    && (a == Deliver(Left) && Accepts(s) ==> !AwaitsAnswer(s))
  }

  ghost predicate LeftAllOrderly(run: seq<System>, actions: seq<Action>, n: nat)
    requires n <= |actions| && n <= |run|
  {
    forall i | 0 <= i < n :: LeftOrderly(run[i], actions[i])
  }

  ghost predicate LeftOffersUnawaited(run: seq<System>, actions: seq<Action>, n: nat)
    requires n <= |actions| && n <= |run|
  {
    forall i | 0 <= i < n && actions[i] == Commit(Left) :: !AwaitsAnswer(run[i])
  }

  /** The polite side has at most one offer under way that is not behind an agreement. */
  predicate Single(s: System) {
    && (Even(s) ==> |s.toLeft| <= 1)
    && (PoliteAhead(s) ==> |s.toLeft| <= OffersFirst(s.toLeft) + 2)
  }

  lemma SingleIsFresh(s: System)
    requires Sound(s) && Single(s) && !AwaitsAnswer(s)
    ensures !AcceptsStale(s)
  {
    SoundAwaits(s);
    hide Matched;
  }

  lemma DeliverKeepsSingle(s: System)
    requires Sound(s) && Single(s) && s.toLeft != []
    ensures Single(DeliverLeft(s))
  {
    hide Matched;
    if PoliteAhead(s) && s.toLeft[0].Offer? {
      assert OffersFirst(s.toLeft) == 1 + OffersFirst(s.toLeft[1..]);
    }
  }

  lemma AnswerKeepsSingle(s: System)
    requires Sound(s) && Single(s) && s.toRight != []
    ensures Single(Step(s, Deliver(Right)))
  {
    hide Matched;
    if s.toRight[0].Offer? {
      var answer := Answer(s.nextId, s.toRight[0].id);
      OffersFirstIs(s.toLeft, |s.toLeft|);
      OffersFirstPush(s.toLeft, answer);
      assert Step(s, Deliver(Right)).toLeft == s.toLeft + [answer];
    }
  }

  lemma CommitKeepsSingle(s: System)
    requires Sound(s) && Single(s) && s.right.inFlight > 0 && s.right.state == Stable
    ensures Single(Step(s, Commit(Right)))
  {
    hide Matched;
    OffersFirstPush(s.toLeft, Offer(s.nextId));
    assert PoliteAhead(s) ==> s.toLeft[OffersFirst(s.toLeft) + 1..] == [];
  }

  lemma OrderlyIsClean(s: System, a: Action)
    requires Sound(s) && Single(s) && LeftOrderly(s, a)
    requires a == Commit(Right) ==> s.right.state == Stable
    ensures Clean(s, a)
  {
    if !AwaitsAnswer(s) {
      SingleIsFresh(s);
    }
  }

  lemma StepKeepsSingle(s: System, a: Action)
    requires Sound(s) && Single(s) && Enabled(s, a) && LeftOrderly(s, a)
    requires a == Commit(Right) ==> s.right.state == Stable
    ensures Clean(s, a) && Sound(Step(s, a)) && Single(Step(s, a))
  {
    OrderlyIsClean(s, a);
    StepKeepsSound(s, a);
    match a
    case Begin(_) => hide Matched;
    case Commit(Left) => hide Matched;
    case Commit(Right) => CommitKeepsSingle(s);
    case Deliver(Left) => DeliverKeepsSingle(s);
    case Deliver(Right) => AnswerKeepsSingle(s);
  }

  lemma CleanIsOrderly(s: System, a: Action)
    requires Clean(s, a)
    ensures LeftOrderly(s, a)
  {}

  lemma {:induction false} OrderlyRunIsClean(run: seq<System>, actions: seq<Action>, n: nat)
    requires IsRun(run, actions) && Start(run[0]) && !run[0].left.polite && n < |run|
    requires RightOffersFromStable(run, actions, n) && LeftAllOrderly(run, actions, n)
    ensures AllClean(run, actions, n) && Sound(run[n]) && Single(run[n])
  {
    if n == 0 {
      StartIsSound(run[0]);
    } else {
      OrderlyRunIsClean(run, actions, n - 1);
      assert LeftOrderly(run[n - 1], actions[n - 1]);
      hide Sound, Step, Enabled, Clean, Single, LeftOrderly;
      StepKeepsSingle(run[n - 1], actions[n - 1]);
    }
  }

  /** With the flag down, sending is all that matters. */
  lemma {:induction false} UnawaitedRunIsOrderly(run: seq<System>, actions: seq<Action>, n: nat)
    requires IsRun(run, actions) && Start(run[0]) && !run[0].left.polite && n < |run| && !run[0].left.settingAnswer
    requires RightOffersFromStable(run, actions, n)
    ensures if LeftOffersUnawaited(run, actions, n) then LeftAllOrderly(run, actions, n) else LeftAstray(run[n])
  {
    hide Sound, LeftAstray, RightAstray, Step, Enabled, Single, AllClean, Accepts, AwaitsAnswer;
    if n > 0 {
      UnawaitedRunIsOrderly(run, actions, n - 1);
      var (s, a) := (run[n - 1], actions[n - 1]);
      if LeftOffersUnawaited(run, actions, n - 1) {
        OrderlyRunIsClean(run, actions, n - 1);
        RunVerdict(run, actions, n - 1);
        LoweredFlagNeverYields(run, actions, n - 1);
        if a == Commit(Left) && AwaitsAnswer(s) {
          UncleanParts(s, a);
        }
      } else {
        StepKeepsLeftAstray(s, a);
      }
    }
  }

  /** If the polite side sends offers only from the stable state, all depends on the impolite side:
      both have settled on the same if and only if it neither sent nor accepted an offer while it
      awaited an answer. If no earlier call has left its flag raised, it is the sending alone, and the
      answers to its offers then were all applied to their own. */
  lemma ImpoliteOffersDecide(run: seq<System>, actions: seq<Action>, n: nat)
    requires IsRun(run, actions) && Start(run[0]) && !run[0].left.polite && n < |run| && Quiescent(run[n])
    requires RightOffersFromStable(run, actions, n)
    ensures run[n].left.agreed == run[n].right.agreed <==> LeftAllOrderly(run, actions, n)
    ensures !run[0].left.settingAnswer ==>
              && (Matched(run[n].left.agreed) <==> LeftOffersUnawaited(run, actions, n))
              && (run[n].left.agreed == run[n].right.agreed <==> LeftOffersUnawaited(run, actions, n))
  {
    AgreementIsExact(run, actions, n);
    if LeftAllOrderly(run, actions, n) {
      OrderlyRunIsClean(run, actions, n);
    }
    forall i | 0 <= i < n && AllClean(run, actions, n) ensures LeftOrderly(run[i], actions[i]) {
      CleanIsOrderly(run[i], actions[i]);
    }
    if !run[0].left.settingAnswer {
      UnawaitedRunIsOrderly(run, actions, n);
      forall i | 0 <= i < n && LeftAllOrderly(run, actions, n) && actions[i] == Commit(Left)
        ensures !AwaitsAnswer(run[i])
      {
        assert LeftOrderly(run[i], actions[i]);
      }
    }
  }

  /** So with the flag down and every offer sent from the stable state, both sides have the same
      offers and answers in every quiescent state, and in every state each answer belongs to the offer
      it was applied to. */
  lemma PeersAgree(run: seq<System>, actions: seq<Action>, n: nat)
    requires IsRun(run, actions) && Start(run[0]) && !run[0].left.polite && n < |run| && !run[0].left.settingAnswer
    requires forall i | 0 <= i < n && actions[i] == Commit(Left) :: run[i].left.state == Stable
    requires forall i | 0 <= i < n && actions[i] == Commit(Right) :: run[i].right.state == Stable
    ensures Quiescent(run[n]) ==> run[n].left.agreed == run[n].right.agreed
    ensures Matched(run[n].left.agreed) && Matched(run[n].right.agreed)
  {
    UnawaitedRunIsOrderly(run, actions, n);
    OrderlyRunIsClean(run, actions, n);
    hide PoliteAhead, Even;
    if Quiescent(run[n]) {
      ImpoliteOffersDecide(run, actions, n);
    }
  }
}
