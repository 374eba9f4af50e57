/** The broadcast relay of a room: a ring that keeps the last 64 messages, and for every peer a
    loop that forwards what the others send and ends when it has fallen too far behind. */
module Relay {

  const CHANNEL_CAPACITY := 64

  type PeerId = int

  datatype TaggedSignal = TaggedSignal(from: PeerId, payload: string)

  // ----- the ring

  datatype Slot = Unused | Used(pos: nat, signal: TaggedSignal)

  datatype Ring = Ring(slots: seq<Slot>, tail: nat)

  datatype Received = Nothing | Lagged | Received(signal: TaggedSignal)

  function EmptyRing(): Ring {
    Ring(seq(64, _ => Unused), 0)
  }

  function Sent(r: Ring, m: TaggedSignal): Ring
    requires |r.slots| == CHANNEL_CAPACITY
  {
    Ring(r.slots[r.tail % 64 := Used(r.tail, m)], r.tail + 1)
  }

  /** What a receiver that wants message `next` gets. */
  function Receive(r: Ring, next: nat): Received
    requires |r.slots| == CHANNEL_CAPACITY
  {
    if next >= r.tail then Nothing
    else match r.slots[next % 64]
         case Used(pos, m) => if pos == next then Received(m) else Lagged
         case Unused => Lagged
  }

  /** The ring holds the last 64 messages of the log. */
  ghost predicate Holds(r: Ring, log: seq<TaggedSignal>) {
    && |r.slots| == CHANNEL_CAPACITY && r.tail == |log|
    && forall i | 0 <= i < 64 ::
         match r.slots[i]
         case Used(pos, m) => pos < |log| <= pos + 64 && pos % 64 == i && m == log[pos]
         case Unused => |log| <= i
  }

  lemma SendHolds(r: Ring, log: seq<TaggedSignal>, m: TaggedSignal)
    requires Holds(r, log)
    ensures Holds(Sent(r, m), log + [m])
  {
    var t := Sent(r, m);
    forall i | 0 <= i < 64
      ensures match t.slots[i]
              case Used(pos, m') => pos < |log| + 1 <= pos + 64 && pos % 64 == i && m' == (log + [m])[pos]
              case Unused => |log| + 1 <= i
    {
      if i != r.tail % 64 && r.slots[i].Used? {
        assert r.slots[i].pos != |log| - 64;
      }
    }
  }

  /** A receiver gets exactly the message it wants as long as it is no more than 64 behind. */
  lemma ReceiveExact(r: Ring, log: seq<TaggedSignal>, next: nat)
    requires Holds(r, log) && next < |log|
    ensures Receive(r, next) == if |log| - next <= 64 then Received(log[next]) else Lagged
  {
    var i := next % 64;
    if |log| - next <= 64 {
      assert r.slots[i].Used?;
      assert r.slots[i].pos % 64 == next % 64;
    }
  }

  // ----- peers

  /** One peer: where it subscribed, which message it wants next, the payload it is handing over,
      and what it has handed to the socket task. */
  datatype Peer = Peer(since: nat, next: nat, hand: seq<string>, forwarded: seq<string>, running: bool)

  datatype State = State(ring: Ring, log: seq<TaggedSignal>, peers: map<PeerId, Peer>)

  datatype Event =
    | Subscribe(id: PeerId)
    | Broadcast(from: PeerId, payload: string)
    | Take(id: PeerId)                 // rx.recv().await returns
    | HandOver(id: PeerId, ok: bool)   // fwd_tx.send(..).await returns
    | Abort(id: PeerId)

  function Init(): State { State(EmptyRing(), [], map[]) }

  predicate Busy(s: State, id: PeerId) {
    id in s.peers && s.peers[id].running
  }

  predicate Enabled(s: State, e: Event) {
    match e
    case Subscribe(id) => id !in s.peers
    case Broadcast(_, _) => true
    case Take(id) => Busy(s, id) && s.peers[id].hand == [] && s.peers[id].next < s.ring.tail
    case HandOver(id, _) => Busy(s, id) && s.peers[id].hand != []
    case Abort(id) => Busy(s, id)
  }

  /** One turn of `while let Ok(tagged) = rx.recv().await`. */
  function Taken(p: Peer, id: PeerId, r: Received): Peer {
    match r
    case Nothing => p
    case Lagged => p.(running := false)
    case Received(m) => if m.from == id then p.(next := p.next + 1) else p.(next := p.next + 1, hand := [m.payload])
  }

  function Step(s: State, e: Event): State
    requires Enabled(s, e) && |s.ring.slots| == CHANNEL_CAPACITY
  {
    match e
    case Subscribe(id) => s.(peers := s.peers[id := Peer(s.ring.tail, s.ring.tail, [], [], true)])
    case Broadcast(from, payload) =>
      var m := TaggedSignal(from, payload);
      s.(ring := Sent(s.ring, m), log := s.log + [m])
    case Take(id) =>
      var p := s.peers[id];
      s.(peers := s.peers[id := Taken(p, id, Receive(s.ring, p.next))])
    case HandOver(id, ok) =>
      var p := s.peers[id];
      s.(peers := s.peers[id :=
        if ok then p.(hand := [], forwarded := p.forwarded + p.hand) else p.(hand := [], running := false)])
    case Abort(id) => s.(peers := s.peers[id := s.peers[id].(hand := [], running := false)])
  }

  ghost predicate IsRun(run: seq<State>, events: seq<Event>) {
    && |run| == |events| + 1
    && forall i | 0 <= i < |events| ::
         Enabled(run[i], events[i]) && |run[i].ring.slots| == CHANNEL_CAPACITY && run[i + 1] == Step(run[i], events[i])
  }

  // ----- what is forwarded

  /** The payloads that others than `id` sent. */
  function Others(log: seq<TaggedSignal>, id: PeerId): seq<string> {
    if log == [] then [] else (if log[0].from == id then [] else [log[0].payload]) + Others(log[1..], id)
  }

  lemma {:induction false} OthersAppend(a: seq<TaggedSignal>, b: seq<TaggedSignal>, id: PeerId)
    ensures Others(a + b, id) == Others(a, id) + Others(b, id)
  {
    if a == [] {
      assert a + b == b;
    } else {
      assert (a + b)[1..] == a[1..] + b;
      OthersAppend(a[1..], b, id);
    }
  }

  /** What a peer has forwarded or holds is what the others sent from its subscription up to the
      message it wants next; while it runs it holds on to what it took. */
  ghost predicate InStep(s: State, id: PeerId)
    requires id in s.peers
  {
    var p := s.peers[id];
    && p.since <= p.next <= |s.log|
    && (p.running ==> p.forwarded + p.hand == Others(s.log[p.since..p.next], id))
    && p.forwarded <= Others(s.log[p.since..p.next], id)
  }

  ghost predicate Inv(s: State) {
    Holds(s.ring, s.log) && forall id | id in s.peers :: InStep(s, id)
  }

  lemma BroadcastKeepsStep(s: State, m: TaggedSignal, id: PeerId)
    requires id in s.peers && InStep(s, id)
    ensures InStep(s.(ring := Ring(s.ring.slots, s.ring.tail), log := s.log + [m]), id)
  {
    var p := s.peers[id];
    assert (s.log + [m])[p.since..p.next] == s.log[p.since..p.next];
  }

  lemma TakeKeepsStep(s: State, id: PeerId)
    requires Holds(s.ring, s.log) && Enabled(s, Take(id)) && InStep(s, id)
    ensures InStep(Step(s, Take(id)), id)
  {
    var p := s.peers[id];
    ReceiveExact(s.ring, s.log, p.next);
    if |s.log| - p.next <= 64 {
      var m := s.log[p.next];
      assert s.log[p.since..p.next + 1] == s.log[p.since..p.next] + [m];
      OthersAppend(s.log[p.since..p.next], [m], id);
      assert p.forwarded + [] == p.forwarded;
    }
  }

  lemma StepKeepsInv(s: State, e: Event)
    requires Inv(s) && Enabled(s, e)
    ensures Inv(Step(s, e))
  {
    var t := Step(s, e);
    match e
    case Subscribe(id) =>
      assert t.log[s.ring.tail..s.ring.tail] == [];
    case Broadcast(from, payload) =>
      var m := TaggedSignal(from, payload);
      SendHolds(s.ring, s.log, m);
      forall id | id in t.peers ensures InStep(t, id) {
        BroadcastKeepsStep(s, m, id);
      }
    case Take(id) => TakeKeepsStep(s, id);
    case HandOver(id, ok) =>
      assert s.peers[id].forwarded + s.peers[id].hand + [] == s.peers[id].forwarded + s.peers[id].hand;
    case Abort(id) =>
  }

  lemma {:induction false} RunKeepsInv(run: seq<State>, events: seq<Event>, n: nat)
    requires IsRun(run, events) && run[0] == Init() && n < |run|
    ensures Inv(run[n])
  {
    if n > 0 {
      RunKeepsInv(run, events, n - 1);
      StepKeepsInv(run[n - 1], events[n - 1]);
    }
  }

  /** In every run, what the relay has forwarded to a peer is a gap-free prefix of what the other
      peers have broadcast since it subscribed, in the order of sending, without repeats and never
      its own; and a peer whose loop is still running and has caught up has been given it all. */
  lemma ForwardsAGapFreePrefix(run: seq<State>, events: seq<Event>, n: nat, id: PeerId)
    requires IsRun(run, events) && run[0] == Init() && n < |run| && id in run[n].peers
    ensures var s, p := run[n], run[n].peers[id];
            && p.since <= p.next <= |s.log|
            && p.forwarded <= Others(s.log[p.since..], id)
            && (p.running && p.hand == [] && p.next == |s.log| ==> p.forwarded == Others(s.log[p.since..], id))
  {
    RunKeepsInv(run, events, n);
    var s, p := run[n], run[n].peers[id];
    assert InStep(s, id);
    assert s.log[p.since..] == s.log[p.since..p.next] + s.log[p.next..];
    OthersAppend(s.log[p.since..p.next], s.log[p.next..], id);
    assert p.next == |s.log| ==> s.log[p.since..] == s.log[p.since..p.next];
  }

  /** Taking a message ends the loop in exactly one case: more than 64 messages are waiting. (It also
      ends when handing over fails.) */
  lemma LoopEndsOnlyOnLag(run: seq<State>, events: seq<Event>, n: nat, id: PeerId)
    requires IsRun(run, events) && run[0] == Init() && n < |run| && Enabled(run[n], Take(id))
    ensures |run[n].ring.slots| == CHANNEL_CAPACITY
    ensures !Step(run[n], Take(id)).peers[id].running <==> |run[n].log| - run[n].peers[id].next > CHANNEL_CAPACITY
  {
    RunKeepsInv(run, events, n);
    ReceiveExact(run[n].ring, run[n].log, run[n].peers[id].next);
  }

  // ----- read off the events

  /** The payloads broadcast by others than `id`, in order. */
  function SentByOthers(events: seq<Event>, id: PeerId): seq<string> {
    if events == [] then []
    else SentByOthers(events[..|events| - 1], id) + SentNow(events[|events| - 1], id)
  }

  function SentNow(e: Event, id: PeerId): seq<string> {
    match e
    case Broadcast(from, payload) => if from != id then [payload] else []
    case _ => []
  }

  /** A subscription starts at the end of the log, and stays where it is. */
  lemma StepSince(s: State, e: Event, id: PeerId)
    requires |s.ring.slots| == CHANNEL_CAPACITY && Enabled(s, e)
    ensures var t := Step(s, e);
      && (e == Subscribe(id) ==> id in t.peers && t.peers[id].since == s.ring.tail && t.log == s.log)
      && (id in s.peers ==> id in t.peers && t.peers[id].since == s.peers[id].since)
      && (if e.Broadcast? then
            |t.log| == |s.log| + 1 && t.log[..|s.log|] == s.log && Others(t.log[|s.log|..], id) == SentNow(e, id)
          else t.log == s.log && SentNow(e, id) == [])
  {
    if e.Broadcast? {
      var m := TaggedSignal(e.from, e.payload);
      assert Step(s, e).log[|s.log|..] == [m];
      OthersOne(m, id);
    }
  }

  lemma OthersOne(m: TaggedSignal, id: PeerId)
    ensures Others([m], id) == if m.from == id then [] else [m.payload]
  {
    assert [m][1..] == [];
  }

  lemma SentOneMore(events: seq<Event>, j: nat, n: nat, id: PeerId)
    requires j < n <= |events|
    ensures SentByOthers(events[j..n], id) == SentByOthers(events[j..n - 1], id) + SentNow(events[n - 1], id)
  {
    var some := events[j..n];
    assert some[..|some| - 1] == events[j..n - 1] && some[|some| - 1] == events[n - 1];
    hide SentNow;
  }

  lemma OthersSince(was: seq<TaggedSignal>, now: seq<TaggedSignal>, since: nat, id: PeerId)
    requires since <= |was| <= |now| && now[..|was|] == was
    ensures Others(now[since..], id) == Others(was[since..], id) + Others(now[|was|..], id)
  {
    assert now[since..] == was[since..] + now[|was|..];
    OthersAppend(was[since..], now[|was|..], id);
  }

  /** What others add to the log in one step. */
  lemma StepSends(s: State, e: Event, id: PeerId)
    requires |s.ring.slots| == CHANNEL_CAPACITY && Enabled(s, e)
    ensures var t := Step(s, e);
      |s.log| <= |t.log| && t.log[..|s.log|] == s.log && Others(t.log[|s.log|..], id) == SentNow(e, id)
  {
    StepSince(s, e, id);
  }

  /** `sent` is what others have added to the log since `id` subscribed. */
  ghost predicate Since(s: State, id: PeerId, sent: seq<string>) {
    id in s.peers && s.peers[id].since <= |s.log| && Others(s.log[s.peers[id].since..], id) == sent
  }

  lemma StepSendsMore(s: State, e: Event, id: PeerId, sent: seq<string>)
    requires |s.ring.slots| == CHANNEL_CAPACITY && Enabled(s, e) && Since(s, id, sent)
    ensures Since(Step(s, e), id, sent + SentNow(e, id))
  {
    StepSince(s, e, id);
    StepSends(s, e, id);
    hide Step, Enabled, Others, SentNow;
    OthersSince(s.log, Step(s, e).log, s.peers[id].since, id);
  }

  lemma SubscribingStarts(s: State, id: PeerId)
    requires Holds(s.ring, s.log) && Enabled(s, Subscribe(id))
    ensures Since(Step(s, Subscribe(id)), id, [] + SentNow(Subscribe(id), id))
  {
    StepSince(s, Subscribe(id), id);
    assert s.log[|s.log|..] == [];
  }

  lemma RunKeepsRing(run: seq<State>, events: seq<Event>, n: nat)
    requires IsRun(run, events) && run[0] == Init() && n < |run|
    ensures Holds(run[n].ring, run[n].log)
  {
    RunKeepsInv(run, events, n);
    hide Step, Enabled, Holds;
  }

  lemma NothingSent(events: seq<Event>, j: nat, id: PeerId)
    requires j <= |events|
    ensures SentByOthers(events[j..j], id) == []
  {}

  lemma {:induction false} SinceSubscription(run: seq<State>, events: seq<Event>, j: nat, n: nat, id: PeerId)
    requires IsRun(run, events) && run[0] == Init() && j < n < |run| && events[j] == Subscribe(id)
    ensures Since(run[n], id, SentByOthers(events[j..n], id))
  {
    hide Step, Enabled, Others, SentNow, SentByOthers, Since, Holds;
    RunKeepsRing(run, events, n - 1);
    SentOneMore(events, j, n, id);
    if n == j + 1 {
      NothingSent(events, j, id);
      SubscribingStarts(run[j], id);
    } else {
      SinceSubscription(run, events, j, n - 1, id);
      StepSendsMore(run[n - 1], events[n - 1], id, SentByOthers(events[j..n - 1], id));
    }
  }

  /** In every run, what has been forwarded to a peer is a gap-free prefix of the payloads that others
      broadcast after it subscribed, in order and as they were sent; and once a running peer has caught
      up it has been given them all. */
  lemma ForwardsWhatWasBroadcast(run: seq<State>, events: seq<Event>, j: nat, n: nat, id: PeerId)
    requires IsRun(run, events) && run[0] == Init() && j < n < |run| && events[j] == Subscribe(id)
    ensures id in run[n].peers && run[n].peers[id].forwarded <= SentByOthers(events[j..n], id)
    ensures run[n].peers[id].running && run[n].peers[id].hand == [] && !Enabled(run[n], Take(id)) ==>
              run[n].peers[id].forwarded == SentByOthers(events[j..n], id)
  {
    SinceSubscription(run, events, j, n, id);
    ForwardsAGapFreePrefix(run, events, n, id);
    RunKeepsInv(run, events, n);
    assert InStep(run[n], id) && run[n].ring.tail == |run[n].log|;
    hide Others, SentByOthers;
  }

  // ----- when the loop ends

  /** Event `e` ends the loop of `id`: handing over fails, the session is over, or the message it wants is
      more than 64 behind. */
  predicate Ends(s: State, e: Event, id: PeerId) {
    || e == HandOver(id, false) || e == Abort(id)
    || (e == Take(id) && id in s.peers && |s.log| - s.peers[id].next > 64)
  }

  lemma StepEnds(s: State, e: Event, id: PeerId)
    requires Inv(s) && |s.ring.slots| == CHANNEL_CAPACITY && Enabled(s, e)
    ensures var t := Step(s, e);
      && (id in s.peers ==> id in t.peers && (t.peers[id].running <==> s.peers[id].running && !Ends(s, e, id)))
      && (id in s.peers && !s.peers[id].running ==> t.peers[id] == s.peers[id])
      && (id !in s.peers ==> !Ends(s, e, id) && (id in t.peers ==> t.peers[id].running))
  {
    if e == Take(id) {
      ReceiveExact(s.ring, s.log, s.peers[id].next);
    }
    hide Holds, Receive;
  }

  /** In every run a loop that was started is running if and only if nothing has ended it. */
  lemma {:induction false} RunningExactly(run: seq<State>, events: seq<Event>, n: nat, id: PeerId)
    requires IsRun(run, events) && run[0] == Init() && n < |run|
    ensures id in run[n].peers ==>
      (run[n].peers[id].running <==> forall k | 0 <= k < n :: !Ends(run[k], events[k], id))
    ensures id !in run[n].peers ==> forall k | 0 <= k < n :: !Ends(run[k], events[k], id)
  {
    if n > 0 {
      RunningExactly(run, events, n - 1, id);
      RunKeepsInv(run, events, n - 1);
      StepEnds(run[n - 1], events[n - 1], id);
      hide Step, Enabled, Ends, Inv;
    }
  }

  /** And a loop that has ended never forwards anything again. */
  lemma {:induction false} EndedIsSilent(run: seq<State>, events: seq<Event>, i: nat, n: nat, id: PeerId)
    requires IsRun(run, events) && run[0] == Init() && i <= n < |run|
    requires id in run[i].peers && !run[i].peers[id].running
    ensures id in run[n].peers && run[n].peers[id] == run[i].peers[id]
  {
    if i < n {
      EndedIsSilent(run, events, i, n - 1, id);
      RunKeepsInv(run, events, n - 1);
      StepEnds(run[n - 1], events[n - 1], id);
      hide Step, Enabled, Ends, Inv;
    }
  }
}
