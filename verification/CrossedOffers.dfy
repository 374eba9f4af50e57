/** What becomes of two offers that cross, one of an impolite and one of a polite peer. */
module CrossedOffers {
  import opened Negotiation
  import opened CallHistories
  import opened CallAgreement

  /** Both sides wait with an offer, and the polite side has not yet seen the other's. */
  predicate Crossed(s: System) {
    && s.left.state == HaveLocalOffer && s.right.state == HaveLocalOffer
    && s.toRight == [Offer(s.left.pending)]
  }

  ghost predicate NeverAgreed(h: seq<Agreement>, offer: nat) {
    forall i | 0 <= i < |h| :: h[i].offer != offer
  }

  lemma NeverAgreedSnoc(h: seq<Agreement>, x: Agreement, offer: nat)
    ensures NeverAgreed(h + [x], offer) <==> NeverAgreed(h, offer) && x.offer != offer
  {
    var all := h + [x];
    assert all[|h|] == x;
    assert forall i | 0 <= i < |h| :: all[i] == h[i];
  }

  /** Agreements have names that have been given out, and what the polite side waits with is not
      among its own. */
  ghost predicate Spent(s: System) {
    && (s.right.state == HaveLocalOffer ==> NeverAgreed(s.right.agreed, s.right.pending))
    && (forall i | 0 <= i < |s.left.agreed| :: s.left.agreed[i].offer < s.nextId)
    && (forall i | 0 <= i < |s.right.agreed| :: s.right.agreed[i].offer < s.nextId)
  }

  lemma StepKeepsSpent(s: System, a: Action)
    requires Named(s) && Spent(s) && Enabled(s, a)
    ensures Spent(Step(s, a))
  {}

  /** How a crossing of `oA` (impolite) and `oB` (polite) stands: still open, or the polite side has
      taken `oA` as agreement number `k` and `oB` is dead. */
  ghost predicate Crossing(s: System, k: nat, oA: nat, oB: nat) {
    && oA < s.nextId && oB < s.nextId && oA != oB
    && NeverAgreed(s.left.agreed, oB) && NeverAgreed(s.right.agreed, oB)
    && if |s.right.agreed| <= k then
         |s.right.agreed| == |s.left.agreed| == k && s.left.state == HaveLocalOffer && s.left.pending == oA
         && s.toRight == [Offer(oA)]
       else
         && s.right.agreed[k].offer == oA
         && (s.right.state == HaveLocalOffer ==> s.right.pending != oB)
         && if |s.left.agreed| <= k then
              |s.left.agreed| == k && s.left.state == HaveLocalOffer && s.left.pending == oA
              && Offer(oB) !in s.toLeft[OffersFirst(s.toLeft)..]
            else
              s.left.agreed[k].offer == oA && s.left.pending != oB && Offer(oB) !in s.toLeft
  }

  lemma CommitLeftKeepsCrossing(s: System, k: nat, oA: nat, oB: nat)
    requires Sound(s) && s.left.inFlight > 0 && !AwaitsAnswer(s) && Crossing(s, k, oA, oB)
    ensures Crossing(CommitLeft(s), k, oA, oB)
  {
    hide Matched, NeverAgreed;
    assert s.toRight == [Offer(oA)] ==> s.toRight[0].Offer?;
    hide Row, Named;
  }

  lemma SoundPhases(s: System)
    requires Sound(s)
    ensures Even(s) || PoliteAhead(s) || LeftAhead(s)
  {}

  lemma CommitRightKeepsCrossing(s: System, k: nat, oA: nat, oB: nat)
    requires Sound(s) && s.right.inFlight > 0 && Crossing(s, k, oA, oB)
    ensures Crossing(Step(s, Commit(Right)), k, oA, oB)
  {
    hide Matched, NeverAgreed, Sound;
    var n := OffersFirst(s.toLeft);
    OffersFirstPush(s.toLeft, Offer(s.nextId));
    if |s.right.agreed| > k == |s.left.agreed| {
      assert Even(s) || PoliteAhead(s) || LeftAhead(s) by {
        SoundPhases(s);
      }
      assert (s.toLeft + [Offer(s.nextId)])[n..] == s.toLeft[n..] + [Offer(s.nextId)];
    }
  }

  lemma DeliverLeftKeepsCrossing(s: System, k: nat, oA: nat, oB: nat)
    requires Sound(s) && s.toLeft != [] && Clean(s, Deliver(Left)) && Crossing(s, k, oA, oB)
    ensures Crossing(DeliverLeft(s), k, oA, oB)
  {
    var (t, m) := (DeliverLeft(s), s.toLeft[0]);
    assert s.toRight + [] == s.toRight;
    SoundAwaits(s);
    assert s.toRight == [Offer(oA)] ==> s.toRight[0].Offer?;
    if t.left.agreed != s.left.agreed {
      NeverAgreedSnoc(s.left.agreed, t.left.agreed[|s.left.agreed|], oB);
    }
    hide Matched, NeverAgreed;
    assert m in s.toLeft;
    if |s.right.agreed| > k == |s.left.agreed| {
      assert PoliteAhead(s);
      var n := OffersFirst(s.toLeft);
      if n == 0 {
        assert s.toLeft[0..] == s.toLeft && t.toLeft == s.toLeft[1..];
      } else {
        assert t.toLeft[n - 1..] == s.toLeft[n..];
      }
    }
  }

  lemma AnswerRightKeepsCrossing(s: System, k: nat, oA: nat, oB: nat)
    requires Sound(s) && s.toRight != [] && s.toRight[0].Answer? && Crossing(s, k, oA, oB)
    ensures Crossing(Step(s, Deliver(Right)), k, oA, oB)
  {
    assert LeftAhead(s) && s.toLeft + [] == s.toLeft;
    NeverAgreedSnoc(s.right.agreed, Agreement(s.right.pending, s.toRight[0]), oB);
    hide Matched, NeverAgreed, Row, Named;
  }

  lemma OfferRightKeepsCrossing(s: System, k: nat, oA: nat, oB: nat)
    requires Sound(s) && s.toRight != [] && s.toRight[0].Offer? && Crossing(s, k, oA, oB)
    ensures Crossing(Step(s, Deliver(Right)), k, oA, oB)
  {
    var p := s.left.pending;
    var answer := Answer(s.nextId, p);
    assert Even(s) && s.toRight == [Offer(p)];
    NeverAgreedSnoc(s.right.agreed, Agreement(p, answer), oB);
    OffersFirstIs(s.toLeft, |s.toLeft|);
    OffersFirstPush(s.toLeft, answer);
    assert (s.toLeft + [answer])[|s.toLeft|..] == [answer];
    hide Matched, NeverAgreed, Row, Named;
  }

  lemma DeliverRightKeepsCrossing(s: System, k: nat, oA: nat, oB: nat)
    requires Sound(s) && s.toRight != [] && Crossing(s, k, oA, oB)
    ensures Crossing(Step(s, Deliver(Right)), k, oA, oB)
  {
    hide Sound, Crossing, Step;
    if s.toRight[0].Offer? {
      OfferRightKeepsCrossing(s, k, oA, oB);
    } else {
      AnswerRightKeepsCrossing(s, k, oA, oB);
    }
  }

  lemma StepKeepsCrossing(s: System, a: Action, k: nat, oA: nat, oB: nat)
    requires Sound(s) && Enabled(s, a) && Clean(s, a) && Crossing(s, k, oA, oB)
    ensures Crossing(Step(s, a), k, oA, oB)
  {
    match a
    case Begin(_) =>
    case Commit(Left) => CommitLeftKeepsCrossing(s, k, oA, oB);
    case Commit(Right) => CommitRightKeepsCrossing(s, k, oA, oB);
    case Deliver(Left) => DeliverLeftKeepsCrossing(s, k, oA, oB);
    case Deliver(Right) => DeliverRightKeepsCrossing(s, k, oA, oB);
  }

  lemma {:induction false} RunIsSpent(run: seq<System>, actions: seq<Action>, n: nat)
    requires IsRun(run, actions) && Start(run[0]) && !run[0].left.polite && n < |run| && AllClean(run, actions, n)
    ensures Sound(run[n]) && Spent(run[n])
  {
    RunVerdict(run, actions, n);
    if n > 0 {
      RunIsSpent(run, actions, n - 1);
      StepKeepsSpent(run[n - 1], actions[n - 1]);
    }
  }

  lemma {:induction false} RunKeepsCrossing(
    run: seq<System>, actions: seq<Action>, m: nat, n: nat, k: nat, oA: nat, oB: nat)
    requires IsRun(run, actions) && Start(run[0]) && !run[0].left.polite && m <= n < |run|
    requires AllClean(run, actions, n) && Crossing(run[m], k, oA, oB)
    ensures Crossing(run[n], k, oA, oB)
  {
    if m < n {
      RunKeepsCrossing(run, actions, m, n - 1, k, oA, oB);
      RunVerdict(run, actions, n - 1);
      StepKeepsCrossing(run[n - 1], actions[n - 1], k, oA, oB);
    }
  }

  lemma CrossedIsCrossing(s: System)
    requires Sound(s) && Spent(s) && Crossed(s)
    ensures |s.left.agreed| == |s.right.agreed|
    ensures Crossing(s, |s.left.agreed|, s.left.pending, s.right.pending)
  {
    assert s.toRight[0].Offer?;
    assert Even(s);
  }

  /** As long as nobody replaces an offer that is answered, a crossed pair of offers always resolves
      to the impolite peer's offer: whatever happens next, in every later quiescent state it is the
      next agreement of both sides, and the polite peer's offer is never agreed on by anyone. */
  lemma CrossedOffersResolve(run: seq<System>, actions: seq<Action>, m: nat, n: nat)
    requires IsRun(run, actions) && Start(run[0]) && !run[0].left.polite && m <= n < |run|
    requires AllClean(run, actions, n) && Crossed(run[m])
    ensures NeverAgreed(run[n].left.agreed, run[m].right.pending)
    ensures NeverAgreed(run[n].right.agreed, run[m].right.pending)
    ensures Quiescent(run[n]) ==>
              var k := |run[m].left.agreed|;
              && |run[n].left.agreed| > k && run[n].left.agreed[k].offer == run[m].left.pending
              && |run[n].right.agreed| > k && run[n].right.agreed[k].offer == run[m].left.pending
  {
    RunIsSpent(run, actions, m);
    CrossedIsCrossing(run[m]);
    RunKeepsCrossing(run, actions, m, n, |run[m].left.agreed|, run[m].left.pending, run[m].right.pending);
    RunVerdict(run, actions, n);
  }
}
