/** Perfect negotiation (section 10.7 of the W3C WebRTC Recommendation) as `createCall` runs it
    on top of the JSEP signalling states (section 3.2 of RFC 8829). */
module Negotiation {
  /** The signalling states between two handled events; `have-remote-offer` only exists inside
      the handling of an offer, which answers it at once. */
  datatype SignalingState = Stable | HaveLocalOffer

  /** A session description on the wire. An answer names the offer it replies to; the receiving
      connection cannot see that name. */
  datatype Message = Offer(id: nat) | Answer(id: nat, to: nat)

  /** An offer and an answer that one side has settled on. */
  datatype Agreement = Agreement(offer: nat, answer: Message)

  /** The connection together with the closure variables of `createCall`. */
  datatype PeerState = PeerState(
    polite: bool,
    state: SignalingState,
    pending: nat,              // the local offer, while in HaveLocalOffer
    makingOffer: bool,
    inFlight: nat,             // started calls of makeOffer that have not yet sent
    settingAnswer: bool,       // isSettingRemoteAnswerPending
    ignoreOffer: bool,
    agreed: seq<Agreement>)    // everything settled so far, oldest first

  function Fresh(polite: bool): PeerState {
    PeerState(polite, Stable, 0, false, 0, false, false, [])
  }

  // ----- the two halves of makeOffer

  function Begun(p: PeerState): PeerState {
    p.(makingOffer := true, inFlight := p.inFlight + 1)
  }

  /** `setLocalDescription()` creates an offer in both states; then it is sent and the flag is
      lowered, even if another call of makeOffer is still under way. */
  function Committed(p: PeerState, id: nat): PeerState
    requires p.inFlight > 0
  {
    p.(state := HaveLocalOffer, pending := id, makingOffer := false, inFlight := p.inFlight - 1)
  }

  // ----- handleSignal

  predicate Collides(p: PeerState, m: Message) {
    m.Offer? && !(!p.makingOffer && (p.state == Stable || p.settingAnswer))
  }

  predicate Ignores(p: PeerState, m: Message) {
    !p.polite && Collides(p, m)
  }

  /** An answer that arrives with no local offer outstanding makes `setRemoteDescription` throw;
      `settingAnswer` then stays raised. An offer that arrives in HaveLocalOffer rolls the local
      offer back. */
  function Handled(p: PeerState, m: Message, id: nat): PeerState {
    if Ignores(p, m) then p.(ignoreOffer := true)
    else if m.Answer? && p.state == Stable then p.(ignoreOffer := false, settingAnswer := true)
    else if m.Answer? then
      p.(ignoreOffer := false, settingAnswer := false, state := Stable, agreed := p.agreed + [Agreement(p.pending, m)])
    else
      p.(ignoreOffer := false, settingAnswer := false, state := Stable,
         agreed := p.agreed + [Agreement(m.id, Answer(id, m.id))])
  }

  function Reply(p: PeerState, m: Message, id: nat): seq<Message> {
    if m.Offer? && !Ignores(p, m) then [Answer(id, m.id)] else []
  }

  /** One side of a call. */
  class Call {
    const polite: bool
    var state: SignalingState
    var pending: nat
    var makingOffer: bool
    var inFlight: nat
    var settingAnswer: bool
    var ignoreOffer: bool
    var agreed: seq<Agreement>

    function View(): PeerState
      reads this
    {
      PeerState(polite, state, pending, makingOffer, inFlight, settingAnswer, ignoreOffer, agreed)
    }

    constructor (polite: bool)
      ensures View() == Fresh(polite)
    {
      this.polite := polite;
      state, pending := Stable, 0;
      makingOffer, inFlight := false, 0;
      settingAnswer, ignoreOffer := false, false;
      agreed := [];
    }

    method BeginOffer()
      modifies this
      ensures View() == Begun(old(View()))
    {
      makingOffer := true;
      inFlight := inFlight + 1;
    }

    /** The rest of makeOffer, once `setLocalDescription` has produced offer `id`. */
    method CommitOffer(id: nat) returns (sent: Message)
      requires inFlight > 0
      modifies this
      ensures View() == Committed(old(View()), id) && sent == Offer(id)
    {
      state, pending := HaveLocalOffer, id;
      sent := Offer(id);
      inFlight := inFlight - 1;
      makingOffer := false;
    }

    /** Applies a remote description; false when the connection throws. */
    method SetRemoteDescription(m: Message) returns (ok: bool)
      modifies this`state, this`agreed
      ensures ok == (m.Offer? || old(state) == HaveLocalOffer)
      ensures state == (if ok then Stable else old(state))
      ensures agreed == old(agreed) + if ok && m.Answer? then [Agreement(pending, m)] else []
    {
      if m.Answer? {
        if state == Stable {
          return false;
        }
        agreed := agreed + [Agreement(pending, m)];
      }
      state := Stable;
      ok := true;
    }

    /** `id` is the identity of the answer, if one is created. */
    method HandleSignal(m: Message, id: nat) returns (sent: seq<Message>)
      modifies this
      ensures View() == Handled(old(View()), m, id)
      ensures sent == Reply(old(View()), m, id)
    {
      sent := [];
      var readyForOffer := !makingOffer && (state == Stable || settingAnswer);
      var offerCollision := m.Offer? && !readyForOffer;
      ignoreOffer := !polite && offerCollision;
      if ignoreOffer {
        return;
      }
      settingAnswer := m.Answer?;
      var ok := SetRemoteDescription(m);
      if !ok {
        return;  // thrown past the next line and logged
      }
      settingAnswer := false;
      if m.Offer? {
        var answer := Answer(id, m.id);
        agreed := agreed + [Agreement(m.id, answer)];
        sent := [answer];
      }
    }
  }

  // ----- two calls and the FIFO channels between them

  /** `left` and `right` with the messages under way to each. */
  datatype System = System(left: PeerState, right: PeerState, toLeft: seq<Message>, toRight: seq<Message>, nextId: nat)

  datatype Side = Left | Right

  datatype Action = Begin(side: Side) | Commit(side: Side) | Deliver(side: Side)

  function Mirror(s: System): System {
    System(s.right, s.left, s.toRight, s.toLeft, s.nextId)
  }

  predicate Enabled(s: System, a: Action) {
    match a
    case Begin(_) => true
    case Commit(Left) => s.left.inFlight > 0
    case Commit(Right) => s.right.inFlight > 0
    case Deliver(Left) => s.toLeft != []
    case Deliver(Right) => s.toRight != []
  }

  function BeginLeft(s: System): System {
    s.(left := Begun(s.left))
  }

  function CommitLeft(s: System): System
    requires s.left.inFlight > 0
  {
    s.(left := Committed(s.left, s.nextId), toRight := s.toRight + [Offer(s.nextId)], nextId := s.nextId + 1)
  }

  function DeliverLeft(s: System): System
    requires s.toLeft != []
  {
    var m := s.toLeft[0];
    s.(left := Handled(s.left, m, s.nextId), toLeft := s.toLeft[1..],
       toRight := s.toRight + Reply(s.left, m, s.nextId), nextId := s.nextId + 1)
  }

  function Step(s: System, a: Action): System
    requires Enabled(s, a)
  {
    match a
    case Begin(Left) => BeginLeft(s)
    case Begin(Right) => Mirror(BeginLeft(Mirror(s)))
    case Commit(Left) => CommitLeft(s)
    case Commit(Right) => Mirror(CommitLeft(Mirror(s)))
    case Deliver(Left) => DeliverLeft(s)
    case Deliver(Right) => Mirror(DeliverLeft(Mirror(s)))
  }

  function Init(politeLeft: bool, politeRight: bool): System {
    System(Fresh(politeLeft), Fresh(politeRight), [], [], 1)
  }

  /** `run` is the sequence of states that `actions` produce from its first state. */
  ghost predicate IsRun(run: seq<System>, actions: seq<Action>) {
    && |run| == |actions| + 1
    && forall i | 0 <= i < |actions| ::
         Enabled(run[i], actions[i]) && run[i + 1] == Step(run[i], actions[i])
  }

  // ----- how calls begin

  /** Two peers at the moment the first one handles `PeerJoined`. The second is fresh. The first
      may have made offers that nobody was there to hear, and may still be waiting with one; then
      `PeerJoined` has made it start another. It may also have stayed behind from an earlier call,
      with whatever flags that has left it. `agreed` counts from here. */
  predicate Meeting(s: System) {
    && s.right == Fresh(s.right.polite) && s.toLeft == [] && s.toRight == []
    && s.left.agreed == [] && s.left.pending < s.nextId
    && (s.left.makingOffer ==> s.left.inFlight > 0)
    && (s.left.state == HaveLocalOffer ==> s.left.inFlight > 0)
  }

  /** A meeting in which the second peer is polite, as a room makes it. */
  predicate Start(s: System) {
    Meeting(s) && s.right.polite
  }

  /** The life of a peer that has the room to itself: it starts offers and sends them to nobody. */
  ghost predicate IsAlone(life: seq<PeerState>) {
    && life != [] && life[0] == Fresh(life[0].polite)
    && forall i | 0 < i < |life| ::
         life[i] == Begun(life[i - 1])
         || (life[i - 1].inFlight > 0 && life[i] == Committed(life[i - 1], life[i].pending))
  }

  /** Whatever a peer did alone, once it answers `PeerJoined` with another offer a call starts. */
  lemma {:induction false} LonelyPeersStart(life: seq<PeerState>, n: nat, nextId: nat)
    requires IsAlone(life) && n < |life| && life[n].pending < nextId
    ensures Start(System(Begun(life[n]), Fresh(true), [], [], nextId))
  {
    LonelyPeersAgreeOnNothing(life, n);
  }

  lemma {:induction false} LonelyPeersAgreeOnNothing(life: seq<PeerState>, n: nat)
    requires IsAlone(life) && n < |life|
    ensures life[n].agreed == [] && !life[n].settingAnswer
  {
    if n > 0 {
      LonelyPeersAgreeOnNothing(life, n - 1);
    }
  }

  /** And so does a peer that stays behind when the other leaves, whatever their call was like. */
  lemma PeersLeftBehindStart(p: PeerState, nextId: nat)
    requires p.pending < nextId
    ensures Start(System(Begun(p).(agreed := []), Fresh(true), [], [], nextId))
  {}

  predicate Quiescent(s: System) {
    s.toLeft == [] && s.toRight == [] && s.left.inFlight == 0 && s.right.inFlight == 0
  }

  // ----- no glare deadlock

  predicate HasOffer(ms: seq<Message>) {
    exists i | 0 <= i < |ms| :: ms[i].Offer?
  }

  predicate HasAnswer(ms: seq<Message>) {
    exists i | 0 <= i < |ms| :: ms[i].Answer?
  }

  /** What holds of the left side. An outstanding local offer is still under way to the right,
      or a message is under way that will release it, or the right side, which may drop the offer,
      is about to send an offer of its own. */
  predicate Released(s: System) {
    && (s.left.makingOffer ==> s.left.inFlight > 0)
    && (s.left.state == HaveLocalOffer && s.toRight != [] ==> s.toRight[|s.toRight| - 1].Offer?)
    && (s.left.state == HaveLocalOffer ==>
          || HasOffer(s.toRight)
          || (if s.left.polite then s.toLeft != [] else HasAnswer(s.toLeft))
          || (!s.right.polite && s.right.inFlight > 0))
  }

  predicate NoGlare(s: System) {
    (s.left.polite || s.right.polite) && Released(s) && Released(Mirror(s))
  }

  lemma HasAfterAppend(ms: seq<Message>, m: Message)
    ensures HasOffer(ms + [m]) <==> HasOffer(ms) || m.Offer?
    ensures HasAnswer(ms + [m]) <==> HasAnswer(ms) || m.Answer?
  {
    var all := ms + [m];
    assert all[|ms|] == m;
    assert forall i | 0 <= i < |ms| :: all[i] == ms[i];
  }

  lemma HasAfterRemove(ms: seq<Message>)
    requires ms != []
    ensures HasOffer(ms) <==> HasOffer(ms[1..]) || ms[0].Offer?
    ensures HasAnswer(ms) <==> HasAnswer(ms[1..]) || ms[0].Answer?
  {
    assert forall i | 0 <= i < |ms| - 1 :: ms[1..][i] == ms[i + 1];
    assert forall i | 0 < i < |ms| :: ms[i] == ms[1..][i - 1];
  }

  lemma CommitKeepsNoGlare(s: System)
    requires NoGlare(s) && s.left.inFlight > 0
    ensures NoGlare(CommitLeft(s))
  {
    HasAfterAppend(s.toRight, Offer(s.nextId));
  }

  lemma DeliverKeepsNoGlare(s: System)
    requires NoGlare(s) && s.toLeft != []
    ensures NoGlare(DeliverLeft(s))
  {
    var m := s.toLeft[0];
    HasAfterRemove(s.toLeft);
    HasAfterAppend(s.toRight, Answer(s.nextId, m.id));
    assert s.toRight + [] == s.toRight;
    var t := DeliverLeft(s);
    if Ignores(s.left, m) {
      // the dropped offer is backed by an offer of the left side
      if s.right.state == HaveLocalOffer && t.toLeft != [] {
        assert t.toLeft[|t.toLeft| - 1] == s.toLeft[|s.toLeft| - 1];
      }
    }
  }

  /** The first peer waits with an offer that nobody heard, and is about to make another. */
  predicate Opening(s: System) {
    && s.right.polite && (s.right.makingOffer ==> s.right.inFlight > 0)
    && s.left.state == HaveLocalOffer && s.left.inFlight > 0
    && s.toRight == [] && !HasAnswer(s.toLeft)
  }

  predicate Settling(s: System) {
    NoGlare(s) || Opening(s) || Opening(Mirror(s))
  }

  lemma StepKeepsNoGlare(s: System, a: Action)
    requires NoGlare(s) && Enabled(s, a)
    ensures NoGlare(Step(s, a))
  {
    match a
    case Begin(_) =>
    case Commit(Left) => CommitKeepsNoGlare(s);
    case Commit(Right) => CommitKeepsNoGlare(Mirror(s));
    case Deliver(Left) => DeliverKeepsNoGlare(s);
    case Deliver(Right) => DeliverKeepsNoGlare(Mirror(s));
  }

  /** An opening goes on until the first peer sends its next offer, or accepts one. */
  lemma StepKeepsOpening(s: System, a: Action)
    requires Opening(s) && Enabled(s, a)
    ensures Opening(Step(s, a)) || NoGlare(Step(s, a))
  {
    match a
    case Begin(_) =>
    case Commit(Left) => HasAfterAppend(s.toRight, Offer(s.nextId));
    case Commit(Right) => HasAfterAppend(s.toLeft, Offer(s.nextId));
    case Deliver(Left) =>
      HasAfterRemove(s.toLeft);
      assert s.toLeft[0].Offer?;
      HasAfterAppend(s.toRight, Answer(s.nextId, s.toLeft[0].id));
  }

  function Other(a: Action): Action {
    var side := if a.side == Left then Right else Left;
    match a
    case Begin(_) => Begin(side)
    case Commit(_) => Commit(side)
    case Deliver(_) => Deliver(side)
  }

  /** The two sides are interchangeable. */
  lemma StepMirrors(s: System, a: Action)
    requires Enabled(s, a)
    ensures Enabled(Mirror(s), Other(a)) && Step(Mirror(s), Other(a)) == Mirror(Step(s, a))
  {
    assert Mirror(Mirror(s)) == s;
  }

  lemma StepKeepsSettling(s: System, a: Action)
    requires Settling(s) && Enabled(s, a)
    ensures Settling(Step(s, a))
  {
    StepMirrors(s, a);
    hide Step, Enabled, NoGlare, Opening, Other;
    if NoGlare(s) {
      StepKeepsNoGlare(s, a);
    } else if Opening(s) {
      StepKeepsOpening(s, a);
    } else {
      StepKeepsOpening(Mirror(s), Other(a));
      NoGlareMirrors(Step(s, a));
    }
  }

  lemma NoGlareMirrors(s: System)
    ensures NoGlare(Mirror(s)) ==> NoGlare(s)
  {
    assert Mirror(Mirror(s)) == s;
  }

  lemma {:induction false} RunKeepsSettling(run: seq<System>, actions: seq<Action>, n: nat)
    requires IsRun(run, actions) && Settling(run[0]) && n < |run|
    ensures Settling(run[n])
  {
    if n > 0 {
      RunKeepsSettling(run, actions, n - 1);
      StepKeepsSettling(run[n - 1], actions[n - 1]);
    }
  }

  /** Two peers of which at most one is impolite never end up in a glare deadlock: from every start
      of a call, also one in which the first offers were lost, under every interleaving, with offers
      started at any moment and any number of times, whenever nothing is under way both sides are
      stable. */
  lemma QuiescentIsStable(run: seq<System>, actions: seq<Action>, n: nat)
    requires IsRun(run, actions) && (Start(run[0]) || Start(Mirror(run[0]))) && n < |run|
    ensures Quiescent(run[n]) ==> run[n].left.state == Stable && run[n].right.state == Stable
  {
    StartSettles(run[0]);
    RunKeepsSettling(run, actions, n);
  }

  lemma StartSettles(s: System)
    requires Start(s) || Start(Mirror(s))
    ensures Settling(s)
  {}

  /** Two peers that have only just been created, at least one of them polite, are a start. */
  lemma FreshPeersStart(politeLeft: bool, politeRight: bool)
    requires politeLeft || politeRight
    ensures var s := Init(politeLeft, politeRight); Start(s) || Start(Mirror(s))
  {}

  /** What is left to do if nobody starts another offer: an offer to send costs its delivery, and
      an offer delivered costs its answer. */
  function Work(s: System): nat {
    3 * (s.left.inFlight + s.right.inFlight) + Load(s.toLeft) + Load(s.toRight)
  }

  function Load(ms: seq<Message>): nat {
    if ms == [] then 0 else (if ms[0].Offer? then 2 else 1) + Load(ms[1..])
  }

  lemma {:induction false} LoadAppend(ms: seq<Message>, m: Message)
    ensures Load(ms + [m]) == Load(ms) + if m.Offer? then 2 else 1
  {
    if ms == [] {
      assert [m][1..] == [];
    } else {
      assert (ms + [m])[1..] == ms[1..] + [m];
      LoadAppend(ms[1..], m);
    }
  }

  /** Negotiation settles: unless a new offer is started every step uses up work, and there is a
      step to take until the system is quiescent. */
  lemma StepsUseUpWork(s: System, a: Action)
    ensures Enabled(s, a) && !a.Begin? ==> Work(Step(s, a)) < Work(s)
    ensures !Quiescent(s) <==> exists b: Action :: !b.Begin? && Enabled(s, b)
  {
    if Enabled(s, a) && !a.Begin? {
      var here := a.side == Left;
      var t := if here then s else Mirror(s);
      LoadAppend(t.toRight, Offer(s.nextId));
      if a.Deliver? {
        LoadAppend(t.toRight, Answer(s.nextId, t.toLeft[0].id));
        assert t.toRight + [] == t.toRight;
      }
    }
    assert Enabled(s, Commit(Left)) || Enabled(s, Commit(Right))
        || Enabled(s, Deliver(Left)) || Enabled(s, Deliver(Right))
      <==> !Quiescent(s);
  }

  /** Why one side must be polite: two impolite peers whose offers cross drop each other's offer
      and wait for ever. */
  lemma ImpolitePeersDeadlock() returns (run: seq<System>, actions: seq<Action>)
    ensures IsRun(run, actions) && run[0] == Init(false, false)
    ensures var last := run[|run| - 1];
            Quiescent(last) && last.left.state == HaveLocalOffer && last.right.state == HaveLocalOffer
  {
    actions := [Begin(Left), Begin(Right), Commit(Left), Commit(Right), Deliver(Left), Deliver(Right)];
    var s0 := Init(false, false);
    var s1 := Step(s0, actions[0]);
    var s2 := Step(s1, actions[1]);
    var s3 := Step(s2, actions[2]);
    var s4 := Step(s3, actions[3]);
    assert s4.toLeft == [Offer(2)] && s4.toRight == [Offer(1)];
    var s5 := Step(s4, actions[4]);
    assert s5.toLeft == [] && s5.toRight == [Offer(1)];
    var s6 := Step(s5, actions[5]);
    run := [s0, s1, s2, s3, s4, s5, s6];
  }
}
