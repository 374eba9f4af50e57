/** The agreements of two calls side by side: when an answer belongs to another offer, and when the
    two sides are bound to record different offers under the same number. */
module CallHistories {
  import opened Negotiation

  /** Every answer was applied to the very offer that it answers. */
  ghost predicate Matched(h: seq<Agreement>) {
    forall i | 0 <= i < |h| :: h[i].answer.Answer? && h[i].answer.to == h[i].offer
  }

  lemma MatchedSnoc(h: seq<Agreement>, x: Agreement)
    ensures Matched(h + [x]) <==> Matched(h) && x.answer.Answer? && x.answer.to == x.offer
  {
    var all := h + [x];
    assert all[|h|] == x;
    assert forall i | 0 <= i < |h| :: all[i] == h[i];
  }

  // ----- offers under way

  /** How many offers stand in front of the first answer. */
  function OffersFirst(ms: seq<Message>): (n: nat)
    ensures n <= |ms| && (forall i | 0 <= i < n :: ms[i].Offer?) && (n < |ms| ==> ms[n].Answer?)
  {
    if ms == [] || ms[0].Answer? then 0 else 1 + OffersFirst(ms[1..])
  }

  lemma OffersFirstIs(ms: seq<Message>, n: nat)
    requires n <= |ms| && (forall i | 0 <= i < n :: ms[i].Offer?) && (n < |ms| ==> ms[n].Answer?)
    ensures OffersFirst(ms) == n
  {}

  /** The one offer that a peer waits with, as a list. */
  function Outstanding(p: PeerState): seq<Message> {
    if p.state == Stable then [] else [Offer(p.pending)]
  }

  /** An answer to the outstanding offer of the left side is under way, or the offer itself to a
      peer that will answer it. */
  predicate AwaitsAnswer(s: System) {
    s.left.state == HaveLocalOffer && (HasAnswer(s.toLeft) || (s.right.polite && HasOffer(s.toRight)))
  }

  /** The left side is about to accept an offer. */
  predicate Accepts(s: System) {
    s.toLeft != [] && s.toLeft[0].Offer? && !Ignores(s.left, s.toLeft[0])
  }

  /** The left side has accepted the outstanding offer of the right side; an offer of its own may
      follow the answer. */
  predicate LeftAhead(s: System) {
    && s.right.state == HaveLocalOffer && s.toLeft == [] && s.toRight != []
    && s.toRight[0].Answer? && s.toRight[0].to == s.right.pending
    && s.toRight[1..] == Outstanding(s.left)
    && s.left.agreed == s.right.agreed + [Agreement(s.right.pending, s.toRight[0])]
  }

  lemma LeftAheadAwaits(s: System)
    requires LeftAhead(s) && s.right.polite
    ensures AwaitsAnswer(s) <==> s.left.state == HaveLocalOffer
  {
    if s.left.state == HaveLocalOffer {
      assert s.toRight[1] == s.toRight[1..][0];
    }
  }

  /** Offers of the two sides have different names, and new ones get names of their own. */
  predicate Named(s: System) {
    && s.left.pending < s.nextId && s.right.pending < s.nextId
    && (forall i | 0 <= i < |s.toLeft| && s.toLeft[i].Offer? :: s.toLeft[i].id < s.nextId)
    && (forall i | 0 <= i < |s.toRight| && s.toRight[i].Offer? :: s.toRight[i].id < s.nextId)
    && Offer(s.left.pending) !in s.toLeft
    && (s.right.state == HaveLocalOffer ==> s.left.pending != s.right.pending)
  }

  // ----- histories that part for ever

  /** The right side has agreed on offer `p` as number `k`, or is bound to. */
  predicate Bound(s: System, k: nat, p: nat) {
    || (|s.right.agreed| > k && s.right.agreed[k].offer == p)
    || (s.right.polite && |s.right.agreed| == k && s.toRight != [] && s.toRight[0] == Offer(p))
    || (s.right.polite && |s.right.agreed| + 1 == k && s.right.state == HaveLocalOffer && |s.toRight| > 1
        && s.toRight[0].Answer? && s.toRight[1] == Offer(p))
  }

  /** The left side can no longer agree on offer `p` as number `k`. */
  predicate Barred(s: System, k: nat, p: nat) {
    && p < s.nextId
    && if |s.left.agreed| > k then s.left.agreed[k].offer != p
       else (s.left.state == HaveLocalOffer ==> s.left.pending != p) && Offer(p) !in s.toLeft
  }

  predicate Parting(s: System, k: nat, p: nat) {
    Bound(s, k, p) && Barred(s, k, p)
  }

  ghost predicate Parted(s: System) {
    exists k: nat, p: nat :: Parting(s, k, p) || Parting(Mirror(s), k, p)
  }

  lemma LeftKeepsParting(s: System, a: Action, k: nat, p: nat)
    requires Parting(s, k, p) && Enabled(s, a) && a.side == Left
    ensures Parting(Step(s, a), k, p)
  {
    var t := Step(s, a);
    if a.Deliver? {
      assert s.toLeft[0] in s.toLeft;
      assert t.toLeft == s.toLeft[1..];
      assert forall m | m in s.toLeft[1..] :: m in s.toLeft;
      assert s.toRight + [] == s.toRight;
    }
  }

  lemma RightKeepsParting(s: System, a: Action, k: nat, p: nat)
    requires Parting(s, k, p) && Enabled(s, a) && a.side == Right
    ensures Parting(Step(s, a), k, p)
  {
    var t := Step(s, a);
    if a.Deliver? {
      assert s.toLeft + [] == s.toLeft;
      assert t.toRight == s.toRight[1..];
    }
  }

  lemma StepKeepsParted(s: System, a: Action)
    requires Parted(s) && Enabled(s, a)
    ensures Parted(Step(s, a))
  {
    var k: nat, p: nat :| Parting(s, k, p) || Parting(Mirror(s), k, p);
    StepMirrors(s, a);
    hide Parting, Step, Enabled;
    if Parting(s, k, p) {
      if a.side == Left {
        LeftKeepsParting(s, a, k, p);
      } else {
        RightKeepsParting(s, a, k, p);
      }
    } else {
      if a.side == Left {
        RightKeepsParting(Mirror(s), Other(a), k, p);
      } else {
        LeftKeepsParting(Mirror(s), Other(a), k, p);
      }
    }
  }

  lemma PartedDiffers(s: System)
    requires Parted(s) && Quiescent(s)
    ensures s.left.agreed != s.right.agreed
  {
    var k: nat, p: nat :| Parting(s, k, p) || Parting(Mirror(s), k, p);
  }

  // ----- answers that go to another offer

  /** The next answer that the impolite left side gets belongs to an older offer than it waits
      with; or this has happened already. */
  ghost predicate LeftAstray(s: System) {
    !Matched(s.left.agreed)
    || (!s.left.polite && s.right.polite && !s.left.settingAnswer && s.left.state == HaveLocalOffer
        && var (n, m) := (OffersFirst(s.toLeft), AnswersFirst(s.toRight));
           if n < |s.toLeft| then s.toLeft[n].to != s.left.pending && s.toLeft[n].to < s.nextId
           else m < |s.toRight| && s.toRight[m].id != s.left.pending && s.toRight[m].id < s.nextId)
  }

  /** How many answers stand in front of the first offer. */
  function AnswersFirst(ms: seq<Message>): (n: nat)
    ensures n <= |ms| && (forall i | 0 <= i < n :: ms[i].Answer?) && (n < |ms| ==> ms[n].Offer?)
  {
    if ms == [] || ms[0].Offer? then 0 else 1 + AnswersFirst(ms[1..])
  }

  lemma {:induction false} OffersFirstPush(ms: seq<Message>, m: Message)
    ensures OffersFirst(ms + [m]) == if OffersFirst(ms) == |ms| && m.Offer? then |ms| + 1 else OffersFirst(ms)
  {
    if ms == [] {
      assert [m][1..] == [] && ms + [m] == [m];
    } else {
      assert (ms + [m])[1..] == ms[1..] + [m];
      OffersFirstPush(ms[1..], m);
    }
  }

  lemma {:induction false} AnswersFirstPush(ms: seq<Message>, m: Message)
    ensures AnswersFirst(ms + [m]) == if AnswersFirst(ms) == |ms| && m.Answer? then |ms| + 1 else AnswersFirst(ms)
  {
    if ms == [] {
      assert [m][1..] == [] && ms + [m] == [m];
    } else {
      assert (ms + [m])[1..] == ms[1..] + [m];
      AnswersFirstPush(ms[1..], m);
    }
  }

  /** Histories only grow, so a mismatch stays. */
  lemma MismatchStays(s: System, a: Action)
    requires Enabled(s, a)
    ensures !Matched(s.left.agreed) ==> !Matched(Step(s, a).left.agreed)
    ensures !Matched(s.right.agreed) ==> !Matched(Step(s, a).right.agreed)
  {
    var t := Step(s, a);
    hide Matched;
    if t.left.agreed != s.left.agreed {
      MatchedSnoc(s.left.agreed, t.left.agreed[|s.left.agreed|]);
    }
    if t.right.agreed != s.right.agreed {
      MatchedSnoc(s.right.agreed, t.right.agreed[|s.right.agreed|]);
    }
  }

  lemma DeliverKeepsLeftAstray(s: System)
    requires LeftAstray(s) && s.toLeft != []
    ensures LeftAstray(DeliverLeft(s))
  {
    MismatchStays(s, Deliver(Left));
    MatchedSnoc(s.left.agreed, Agreement(s.left.pending, s.toLeft[0]));
    assert s.toRight + [] == s.toRight;
    hide Matched;
  }

  lemma StepKeepsLeftAstray(s: System, a: Action)
    requires LeftAstray(s) && Enabled(s, a)
    ensures LeftAstray(Step(s, a))
  {
    MismatchStays(s, a);
    hide Matched;
    match a
    case Begin(_) =>
    case Commit(Left) => AnswersFirstPush(s.toRight, Offer(s.nextId));
    case Commit(Right) => OffersFirstPush(s.toLeft, Offer(s.nextId));
    case Deliver(Left) => DeliverKeepsLeftAstray(s);
    case Deliver(Right) =>
      OffersFirstPush(s.toLeft, Answer(s.nextId, s.toRight[0].id));
      assert s.toLeft + [] == s.toLeft;
  }

  /** The answer that the right side gets next belongs to an offer it has replaced. */
  ghost predicate RightAstray(s: System) {
    !Matched(s.right.agreed)
    || (s.right.state == HaveLocalOffer && s.toRight != [] && s.toRight[0].Answer?
        && s.toRight[0].to != s.right.pending && s.toRight[0].to < s.nextId)
  }

  lemma StepKeepsRightAstray(s: System, a: Action)
    requires RightAstray(s) && Enabled(s, a)
    ensures RightAstray(Step(s, a))
  {
    MismatchStays(s, a);
    if Matched(s.right.agreed) && a == Deliver(Right) {
      MatchedSnoc(s.right.agreed, Agreement(s.right.pending, s.toRight[0]));
    }
  }
}
