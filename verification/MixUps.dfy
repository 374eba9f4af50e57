/** Runs that end with the two sides of a call settled on different offers and answers. */
module MixUps {
  import opened Negotiation
  import opened CallHistories

  lemma JoinRuns(run: seq<System>, actions: seq<Action>, tail: seq<System>, rest: seq<Action>)
    requires IsRun(run, actions) && IsRun(tail, rest) && run[|run| - 1] == tail[0]
    ensures IsRun(run + tail[1..], actions + rest)
  {
    hide Step, Enabled;
    var all, acts := run + tail[1..], actions + rest;
    forall i | |actions| <= i < |acts| ensures Enabled(all[i], acts[i]) && all[i + 1] == Step(all[i], acts[i]) {
      var j := i - |actions|;
      assert all[i] == tail[j] && all[i + 1] == tail[j + 1] && acts[i] == rest[j];
    }
  }

  /** A run seen from the other side. */
  function Mirrored(run: seq<System>): seq<System> {
    seq(|run|, i requires 0 <= i < |run| => Mirror(run[i]))
  }

  function Others(actions: seq<Action>): seq<Action> {
    seq(|actions|, i requires 0 <= i < |actions| => Other(actions[i]))
  }

  lemma MirrorRun(run: seq<System>, actions: seq<Action>)
    requires IsRun(run, actions)
    ensures IsRun(Mirrored(run), Others(actions))
  {
    hide Step, Enabled, Other, Mirror;
    forall i | 0 <= i < |actions|
      ensures Enabled(Mirror(run[i]), Other(actions[i]))
      ensures Mirror(run[i + 1]) == Step(Mirror(run[i]), Other(actions[i]))
    {
      StepMirrors(run[i], actions[i]);
    }
  }

  // ----- a second offer before the answer to the first

  /** The left side has sent offers 1 and 2 with no answer in between. */
  function TwoOffersSent(a: bool, b: bool): System {
    System(Fresh(a).(state := HaveLocalOffer, pending := 2), Fresh(b), [], [Offer(1), Offer(2)], 3)
  }

  /** The right side has answered both. */
  function BothAnswered(a: bool, b: bool): System {
    System(TwoOffersSent(a, b).left,
           Fresh(b).(agreed := [Agreement(1, Answer(3, 1)), Agreement(2, Answer(4, 2))]),
           [Answer(3, 1), Answer(4, 2)], [], 5)
  }

  lemma BothAnswers(a: bool, b: bool) returns (mid: System)
    ensures IsRun([TwoOffersSent(a, b), mid, BothAnswered(a, b)], [Deliver(Right), Deliver(Right)])
  {
    var s := TwoOffersSent(a, b);
    assert s.toRight[1..] == [Offer(2)];
    mid := Step(s, Deliver(Right));
    assert mid == System(s.left, Fresh(b).(agreed := [Agreement(1, Answer(3, 1))]), [Answer(3, 1)], [Offer(2)], 4);
  }

  /** The left side has settled on the wrong pair, and its flag stays raised. */
  ghost predicate MixedUp(s: System, a: bool) {
    && Quiescent(s) && s.right.state == Stable && s.nextId == 7
    && s.left == Fresh(a).(pending := 2, settingAnswer := true, agreed := [Agreement(2, Answer(3, 1))])
    && s.right.agreed == [Agreement(1, Answer(3, 1)), Agreement(2, Answer(4, 2))]
  }

  /** The answer to offer 1 is applied to offer 2; the answer to offer 2 then finds nothing
      outstanding and leaves `settingAnswer` raised. */
  lemma TwoOffersMixUp(a: bool, b: bool) returns (tail: seq<System>)
    ensures |tail| == 5 && tail[0] == TwoOffersSent(a, b) && MixedUp(tail[4], a)
    ensures IsRun(tail, [Deliver(Right), Deliver(Right), Deliver(Left), Deliver(Left)])
  {
    var mid := BothAnswers(a, b);
    var s := BothAnswered(a, b);
    assert s.toLeft[1..] == [Answer(4, 2)];
    var t := Step(s, Deliver(Left));
    assert t.left == Fresh(a).(pending := 2, agreed := [Agreement(2, Answer(3, 1))]);
    var u := Step(t, Deliver(Left));
    JoinRuns([TwoOffersSent(a, b), mid, s], [Deliver(Right), Deliver(Right)],
             [s, t, u], [Deliver(Left), Deliver(Left)]);
    tail := [TwoOffersSent(a, b), mid, s] + [s, t, u][1..];
    assert [Deliver(Right), Deliver(Right)] + [Deliver(Left), Deliver(Left)]
        == [Deliver(Right), Deliver(Right), Deliver(Left), Deliver(Left)];
  }

  /** Completes a run that has sent both offers. */
  lemma MixUp(a: bool, b: bool, head: seq<System>, first: seq<Action>)
    returns (run: seq<System>, actions: seq<Action>)
    requires IsRun(head, first) && head[|head| - 1] == TwoOffersSent(a, b)
    ensures IsRun(run, actions) && first <= actions && head <= run
    ensures forall i | |first| <= i < |actions| :: actions[i].Deliver?
    ensures MixedUp(run[|run| - 1], a)
  {
    var tail := TwoOffersMixUp(a, b);
    var rest := [Deliver(Right), Deliver(Right), Deliver(Left), Deliver(Left)];
    JoinRuns(head, first, tail, rest);
    run, actions := head + tail[1..], first + rest;
    assert run[|run| - 1] == tail[4];
  }

  lemma MixedUpDiffers(s: System, a: bool)
    requires MixedUp(s, a)
    ensures s.left.agreed != s.right.agreed && !Matched(s.left.agreed)
  {
    assert s.left.agreed[0].answer.to == 1;
  }

  /** Offering again before the first offer is answered leaves the two sides with different
      agreements, whoever is polite, even though no two calls of makeOffer overlap. */
  lemma ReofferMixesUp(a: bool, b: bool) returns (run: seq<System>, actions: seq<Action>)
    ensures IsRun(run, actions) && run[0] == Init(a, b)
    ensures forall i | 0 <= i < |actions| && !actions[i].Deliver? ::
              actions[i].side == Left && (actions[i].Begin? ==> run[i].left.inFlight == 0)
    ensures var last := run[|run| - 1];
            MixedUp(last, a) && last.left.agreed != last.right.agreed && !Matched(last.left.agreed)
  {
    var first := [Begin(Left), Commit(Left), Begin(Left), Commit(Left)];
    var s0 := Init(a, b);
    var s1 := Step(s0, Begin(Left));
    var s2 := Step(s1, Commit(Left));
    var s3 := Step(s2, Begin(Left));
    var s4 := Step(s3, Commit(Left));
    assert s4 == TwoOffersSent(a, b);
    var head := [s0, s1, s2, s3, s4];
    run, actions := MixUp(a, b, head, first);
    MixedUpDiffers(run[|run| - 1], a);
    forall i | 0 <= i < |actions| && !actions[i].Deliver?
      ensures actions[i].side == Left && (actions[i].Begin? ==> run[i].left.inFlight == 0)
    {
      assert actions[i] == first[i] && run[i] == head[i];
    }
  }

  /** So do two calls of makeOffer that overlap, even though both start in the stable state. */
  lemma OverlappingOffersMixUp(a: bool, b: bool) returns (run: seq<System>, actions: seq<Action>)
    ensures IsRun(run, actions) && run[0] == Init(a, b)
    ensures forall i | 0 <= i < |actions| && !actions[i].Deliver? ::
              actions[i].side == Left && (actions[i].Begin? ==> run[i].left.state == Stable)
    ensures var last := run[|run| - 1];
            MixedUp(last, a) && last.left.agreed != last.right.agreed && !Matched(last.left.agreed)
  {
    var first := [Begin(Left), Begin(Left), Commit(Left), Commit(Left)];
    var s0 := Init(a, b);
    var s1 := Step(s0, Begin(Left));
    var s2 := Step(s1, Begin(Left));
    var s3 := Step(s2, Commit(Left));
    var s4 := Step(s3, Commit(Left));
    assert s4 == TwoOffersSent(a, b);
    var head := [s0, s1, s2, s3, s4];
    run, actions := MixUp(a, b, head, first);
    MixedUpDiffers(run[|run| - 1], a);
    forall i | 0 <= i < |actions| && !actions[i].Deliver?
      ensures actions[i].side == Left && (actions[i].Begin? ==> run[i].left.state == Stable)
    {
      assert actions[i] == first[i] && run[i] == head[i];
    }
  }

  /** The polite side of a call can do the same damage: it alone offers, twice, in either way. */
  lemma PoliteOffersMixUp(overlapping: bool) returns (run: seq<System>, actions: seq<Action>)
    ensures IsRun(run, actions) && run[0] == Init(false, true)
    ensures forall i | 0 <= i < |actions| && !actions[i].Deliver? :: actions[i].side == Right
    ensures forall i | 0 <= i < |actions| && actions[i].Begin? ::
              if overlapping then run[i].right.state == Stable else run[i].right.inFlight == 0
    ensures var last := run[|run| - 1];
            MixedUp(Mirror(last), true) && last.left.agreed != last.right.agreed && !Matched(last.right.agreed)
  {
    var r: seq<System>, acts: seq<Action>;
    if overlapping {
      r, acts := OverlappingOffersMixUp(true, false);
    } else {
      r, acts := ReofferMixesUp(true, false);
    }
    MirrorRun(r, acts);
    run, actions := Mirrored(r), Others(acts);
    assert Mirror(run[|run| - 1]) == r[|r| - 1];
    hide MixedUp, IsRun, Matched;
    forall i | 0 <= i < |actions| && !actions[i].Deliver?
      ensures actions[i].side == Right
      ensures actions[i].Begin? ==> if overlapping then run[i].right.state == Stable else run[i].right.inFlight == 0
    {
      assert actions[i] == Other(acts[i]) && run[i] == Mirror(r[i]);
    }
  }

  // ----- a peer that stays behind with its flag raised

  /** An impolite peer with a raised flag meets a new polite one, and their offers cross. */
  function RaisedAndCrossed(): System {
    var p := Fresh(false).(state := HaveLocalOffer, pending := 7, settingAnswer := true);
    System(p, Fresh(true).(state := HaveLocalOffer, pending := 8), [Offer(8)], [Offer(7)], 9)
  }

  lemma RaisedFlagGivesWay() returns (tail: seq<System>)
    ensures |tail| == 5 && tail[0] == RaisedAndCrossed()
    ensures IsRun(tail, [Deliver(Left), Deliver(Right), Deliver(Right), Deliver(Left)])
    ensures var last := tail[4];
            && Quiescent(last)
            && last.left.agreed == [Agreement(8, Answer(9, 8))] && last.right.agreed == [Agreement(7, Answer(10, 7))]
  {
    var t0 := RaisedAndCrossed();
    var t1 := Step(t0, Deliver(Left));
    assert t1.toLeft == [] && t1.toRight == [Offer(7), Answer(9, 8)] && t1.toRight[1..] == [Answer(9, 8)];
    var t2 := Step(t1, Deliver(Right));
    assert t2.toLeft == [Answer(10, 7)] && t2.toRight == [Answer(9, 8)];
    var t3 := Step(t2, Deliver(Right));
    assert t3.toLeft == [Answer(10, 7)] && t3.toRight == [];
    var t4 := Step(t3, Deliver(Left));
    assert t4.toLeft == [];
    tail := [t0, t1, t2, t3, t4];
  }

  /** Each side sends one offer, from the stable state. */
  lemma RaisedOffersCross(was: System) returns (head: seq<System>)
    requires MixedUp(was, false)
    ensures |head| == 4 && head[0] == System(Begun(was.left).(agreed := []), Fresh(true), [], [], was.nextId)
    ensures head[3] == RaisedAndCrossed() && IsRun(head, [Begin(Right), Commit(Left), Commit(Right)])
    ensures head[1].left.state == Stable && head[2].right.state == Stable
  {
    var s0 := System(Begun(was.left).(agreed := []), Fresh(true), [], [], 7);
    var s1 := Step(s0, Begin(Right));
    var s2 := Step(s1, Commit(Left));
    assert s2.toRight == [Offer(7)] && s2.nextId == 8;
    var s3 := Step(s2, Commit(Right));
    assert s3.toLeft == [Offer(8)] && s3.nextId == 9;
    head := [s0, s1, s2, s3];
  }

  /** The flag matters. A call has gone wrong and left it raised on the impolite side; the other
      leaves and a new polite peer comes. Each side sends one offer, from the stable state; the offers
      cross, the impolite side accepts the other's because the raised flag makes it ready, and the two
      sides end up with different agreements. */
  lemma RaisedFlagPartsPeers()
    returns (before: seq<System>, earlier: seq<Action>, run: seq<System>, actions: seq<Action>)
    ensures IsRun(before, earlier) && before[0] == Init(false, true) && Quiescent(before[|before| - 1])
    ensures IsRun(run, actions) && Start(run[0])
    ensures run[0].left == Begun(before[|before| - 1].left).(agreed := [])
    ensures forall i | 0 <= i < |actions| && actions[i] == Commit(Left) :: run[i].left.state == Stable
    ensures forall i | 0 <= i < |actions| && actions[i] == Commit(Right) :: run[i].right.state == Stable
    ensures var last := run[|run| - 1]; Quiescent(last) && last.left.agreed != last.right.agreed
  {
    before, earlier := ReofferMixesUp(false, true);
    hide Step, Enabled;
    var head := RaisedOffersCross(before[|before| - 1]);
    var first := [Begin(Right), Commit(Left), Commit(Right)];
    var tail := RaisedFlagGivesWay();
    var rest := [Deliver(Left), Deliver(Right), Deliver(Right), Deliver(Left)];
    JoinRuns(head, first, tail, rest);
    run, actions := head + tail[1..], first + rest;
    assert run[|run| - 1] == tail[4];
    assert tail[4].left.agreed[0].offer == 8 && tail[4].right.agreed[0].offer == 7;
    hide IsRun;
    forall i | 0 <= i < |actions| && actions[i].Commit?
      ensures actions[i] == Commit(Left) ==> run[i].left.state == Stable
      ensures actions[i] == Commit(Right) ==> run[i].right.state == Stable
    {
      assert actions[i] == first[i] && run[i] == head[i];
    }
  }

  // ----- crossed offers of two polite peers

  /** Two polite peers whose offers cross, each begun from the stable state with no other under way,
      end up quiescent and stable, and each has settled on the offer of the other. */
  lemma PolitePeersPartWays() returns (run: seq<System>, actions: seq<Action>)
    ensures IsRun(run, actions) && run[0] == Init(true, true)
    ensures forall i | 0 <= i < |actions| && actions[i].Begin? ::
              if actions[i].side == Left then run[i].left == Fresh(true) else run[i].right == Fresh(true)
    ensures var last := run[|run| - 1];
            && Quiescent(last) && last.left.state == Stable && last.right.state == Stable
            && last.left.agreed == [Agreement(2, Answer(3, 2))] && last.right.agreed == [Agreement(1, Answer(4, 1))]
  {
    actions := [Begin(Left), Begin(Right), Commit(Left), Commit(Right)];
    var s0 := Init(true, true);
    var s1 := Step(s0, Begin(Left));
    var s2 := Step(s1, Begin(Right));
    var s3 := Step(s2, Commit(Left));
    var s4 := Step(s3, Commit(Right));
    var head := [s0, s1, s2, s3, s4];
    assert IsRun(head, actions);
    var p := Fresh(true).(state := HaveLocalOffer);
    assert s4 == System(p.(pending := 1), p.(pending := 2), [Offer(2)], [Offer(1)], 3);
    var tail := EachGivesWay();
    var rest := [Deliver(Left), Deliver(Right), Deliver(Left), Deliver(Right)];
    JoinRuns(head, actions, tail, rest);
    run := head + tail[1..];
    var all := actions + rest;
    assert run[|run| - 1] == tail[4];
    forall i | 0 <= i < |all| && all[i].Begin?
      ensures if all[i].side == Left then run[i].left == Fresh(true) else run[i].right == Fresh(true)
    {
      assert all[i] == actions[i] && run[i] == head[i];
    }
    actions := all;
  }

  lemma EachGivesWay() returns (tail: seq<System>)
    ensures |tail| == 5 && IsRun(tail, [Deliver(Left), Deliver(Right), Deliver(Left), Deliver(Right)])
    ensures var p := Fresh(true).(state := HaveLocalOffer);
            tail[0] == System(p.(pending := 1), p.(pending := 2), [Offer(2)], [Offer(1)], 3)
    ensures var last := tail[4];
            && Quiescent(last) && last.left.state == Stable && last.right.state == Stable
            && last.left.agreed == [Agreement(2, Answer(3, 2))] && last.right.agreed == [Agreement(1, Answer(4, 1))]
  {
    var p := Fresh(true).(state := HaveLocalOffer);
    var t0 := System(p.(pending := 1), p.(pending := 2), [Offer(2)], [Offer(1)], 3);
    var t1 := Step(t0, Deliver(Left));
    assert t1.toLeft == [] && t1.toRight == [Offer(1), Answer(3, 2)] && t1.toRight[1..] == [Answer(3, 2)];
    var t2 := Step(t1, Deliver(Right));
    assert t2.toLeft == [Answer(4, 1)] && t2.toRight == [Answer(3, 2)];
    var t3 := Step(t2, Deliver(Left));
    assert t3.toLeft == [] && t3.toRight == [Answer(3, 2)];
    var t4 := Step(t3, Deliver(Right));
    assert t4.toRight == [];
    tail := [t0, t1, t2, t3, t4];
  }
}
