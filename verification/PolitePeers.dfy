/** Two polite peers, as a room can bring together once its first visitor has left. Each gives way
    to the other's offer, so crossed offers are lost on both sides. */
module PolitePeers {
  import opened Negotiation
  import opened CallHistories

  /** Nobody sends or accepts an offer while awaiting the answer to an own one. */
  predicate Orderly(s: System, a: Action) {
    match a
    case Begin(_) => true
    case Commit(Left) => !AwaitsAnswer(s)
    case Commit(Right) => !AwaitsAnswer(Mirror(s))
    case Deliver(Left) => s.toLeft != [] && s.toLeft[0].Offer? ==> !AwaitsAnswer(s)
    case Deliver(Right) => s.toRight != [] && s.toRight[0].Offer? ==> !AwaitsAnswer(Mirror(s))
  }

  ghost predicate AllOrderly(run: seq<System>, actions: seq<Action>, n: nat)
    requires n <= |actions| && n <= |run|
  {
    forall i | 0 <= i < n :: Orderly(run[i], actions[i])
  }

  /** The histories are equal and every outstanding offer is under way, or was lost at the start. */
  predicate Even(s: System) {
    && s.left.agreed == s.right.agreed
    && Heard(s.left, s.toRight) && Heard(s.right, s.toLeft)
  }

  predicate Heard(p: PeerState, ms: seq<Message>) {
    ms == Outstanding(p) || (ms == [] && p.inFlight > 0)
  }

  predicate Distinct(s: System) {
    && s.left.pending < s.nextId && s.right.pending < s.nextId
    && (s.left.state == HaveLocalOffer && s.right.state == HaveLocalOffer ==> s.left.pending != s.right.pending)
  }

  predicate Sound(s: System) {
    && s.left.polite && s.right.polite && Distinct(s)
    && (Even(s) || LeftAhead(s) || LeftAhead(Mirror(s)))
  }

  lemma SoundMirrors(s: System)
    ensures Sound(Mirror(s)) <==> Sound(s)
    ensures Parted(Mirror(s)) <==> Parted(s)
  {
    assert Mirror(Mirror(s)) == s;
    hide Parting;
    if Parted(s) {
      var k: nat, p: nat :| Parting(s, k, p) || Parting(Mirror(s), k, p);
    }
    if Parted(Mirror(s)) {
      var k: nat, p: nat :| Parting(Mirror(s), k, p) || Parting(Mirror(Mirror(s)), k, p);
    }
  }

  lemma CommitLeftSound(s: System)
    requires Sound(s) && s.left.inFlight > 0 && !AwaitsAnswer(s)
    ensures Sound(CommitLeft(s))
  {
    var t := CommitLeft(s);
    if LeftAhead(s) {
      LeftAheadAwaits(s);
      assert t.toRight[1..] == s.toRight[1..] + [Offer(s.nextId)];
      assert LeftAhead(t);
    } else {
      EvenAwaits(s);
      assert t.toRight == [Offer(s.nextId)];
      assert Even(t);
    }
  }

  lemma EvenAwaits(s: System)
    requires Even(s) && s.right.polite
    ensures AwaitsAnswer(s) <==> s.toRight != []
  {
    if s.toRight != [] {
      assert s.toRight[0] == Offer(s.left.pending);
    }
  }

  lemma DeliverLeftSound(s: System)
    requires Sound(s) && s.toLeft != [] && (s.toLeft[0].Offer? ==> !AwaitsAnswer(s))
    ensures Sound(DeliverLeft(s))
  {
    var (t, m) := (DeliverLeft(s), s.toLeft[0]);
    if m.Offer? {
      assert Even(s) && s.toLeft == [m];
      EvenAwaits(s);
      assert t.toRight == [Answer(s.nextId, m.id)] && t.toRight[1..] == [];
      assert LeftAhead(t);
    } else {
      assert LeftAhead(Mirror(s));
      assert t.toRight == [] && t.toLeft == s.toLeft[1..];
      assert Even(t);
    }
  }

  lemma CommitLeftParts(s: System)
    requires Sound(s) && s.left.inFlight > 0 && AwaitsAnswer(s)
    ensures Parted(CommitLeft(s))
  {
    var (t, p) := (CommitLeft(s), s.left.pending);
    if LeftAhead(s) {
      assert s.toRight[1] == s.toRight[1..][0] == Offer(p);
    }
    assert Offer(p) !in s.toLeft;
    assert Parting(t, |s.left.agreed|, p);
  }

  /** Crossed offers: each side is bound to drop its own. */
  lemma AcceptLeftParts(s: System)
    requires Sound(s) && s.toLeft != [] && s.toLeft[0].Offer? && AwaitsAnswer(s)
    ensures Parted(DeliverLeft(s))
  {
    var (t, p) := (DeliverLeft(s), s.left.pending);
    assert Parting(t, |s.left.agreed|, p);
  }

  lemma LeftStep(s: System, a: Action)
    requires Sound(s) && Enabled(s, a) && a.side == Left
    ensures if Orderly(s, a) then Sound(Step(s, a)) else Parted(Step(s, a))
  {
    hide Parted;
    match a
    case Begin(_) =>
    case Commit(_) =>
      if AwaitsAnswer(s) {
        CommitLeftParts(s);
      } else {
        CommitLeftSound(s);
      }
    case Deliver(_) =>
      if s.toLeft[0].Offer? && AwaitsAnswer(s) {
        AcceptLeftParts(s);
      } else {
        DeliverLeftSound(s);
      }
  }

  lemma OrderlyMirrors(s: System, a: Action)
    ensures Orderly(Mirror(s), Other(a)) <==> Orderly(s, a)
  {
    assert Mirror(Mirror(s)) == s;
  }

  lemma AnyStep(s: System, a: Action)
    requires Sound(s) && Enabled(s, a)
    ensures if Orderly(s, a) then Sound(Step(s, a)) else Parted(Step(s, a))
  {
    StepMirrors(s, a);
    OrderlyMirrors(s, a);
    SoundMirrors(s);
    SoundMirrors(Step(s, a));
    hide Sound, Parted, Step, Enabled, Orderly;
    if a.side == Left {
      LeftStep(s, a);
    } else {
      LeftStep(Mirror(s), Other(a));
    }
  }

  lemma StartIsSound(s: System)
    requires Start(s) && s.left.polite
    ensures Sound(s)
  {}

  lemma {:induction false} RunVerdict(run: seq<System>, actions: seq<Action>, n: nat)
    requires IsRun(run, actions) && Start(run[0]) && run[0].left.polite && n < |run|
    ensures if AllOrderly(run, actions, n) then Sound(run[n]) else Parted(run[n])
  {
    if n == 0 {
      StartIsSound(run[0]);
    } else {
      RunVerdict(run, actions, n - 1);
      hide Sound, Parted, Step, Enabled, Orderly;
      if AllOrderly(run, actions, n - 1) {
        AnyStep(run[n - 1], actions[n - 1]);
      } else {
        StepKeepsParted(run[n - 1], actions[n - 1]);
      }
    }
  }

  /** In every run from every start of a call, and in every quiescent state of it: two polite peers
      have settled on the same offers and answers if and only if neither ever sent or accepted an
      offer while awaiting the answer to its own; so a single crossing parts them for good. */
  lemma PoliteAgreementIsExact(run: seq<System>, actions: seq<Action>, n: nat)
    requires IsRun(run, actions) && Start(run[0]) && run[0].left.polite && n < |run| && Quiescent(run[n])
    ensures run[n].left.agreed == run[n].right.agreed <==> AllOrderly(run, actions, n)
  {
    RunVerdict(run, actions, n);
    if !AllOrderly(run, actions, n) {
      PartedDiffers(run[n]);
    }
  }
}
