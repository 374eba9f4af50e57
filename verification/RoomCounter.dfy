/** The participant counter of one room with every atomic operation as its own step: joins add
    first and look afterwards, and a join that finds the room full takes its addition back. */
module RoomCounter {

  const MAX_PARTICIPANTS := 2
  const U8 := 256
  const U64 := 0x1_0000_0000_0000_0000

  /** Joins are numbered in the order of their first step. */
  type Join = int

  /** `impolite` and `polite` are the joins that are inside, by what they were told; `rejecting`
      are the joins that found the room full and have not yet subtracted; `ids` are the peer ids
      in the order they were handed out, to the joins in `numbered`. */
  datatype State = State(
    count: nat,
    nextPeerId: nat,
    impolite: set<Join>,
    polite: set<Join>,
    rejecting: set<Join>,
    ids: seq<nat>,
    numbered: set<Join>,
    arrivals: Join)

  datatype Action =
    | Add(join: Join)        // count.fetch_add(1), and the comparison with its result
    | TakeBack(join: Join)   // count.fetch_sub(1) of a join that found the room full
    | TakeId(join: Join)     // next_peer_id.fetch_add(1)
    | Leave(join: Join)      // count.fetch_sub(1) of a peer that leaves

  function Init(): State {
    State(0, 1, {}, {}, {}, [], {}, 0)
  }

  predicate Inside(s: State, j: Join) {
    j in s.impolite || j in s.polite
  }

  predicate Enabled(s: State, a: Action) {
    match a
    case Add(j) => j == s.arrivals
    case TakeBack(j) => j in s.rejecting
    case TakeId(j) => Inside(s, j) && j !in s.numbered
    case Leave(j) => Inside(s, j) && j in s.numbered
  }

  function Decremented(count: nat): nat { (count + 255) % 256 }

  function Added(s: State, j: Join): State {
    var prev := s.count;
    var t := s.(count := (prev + 1) % 256, arrivals := j + 1);
    if prev >= MAX_PARTICIPANTS then t.(rejecting := s.rejecting + {j})
    else if prev > 0 then t.(polite := s.polite + {j})
    else t.(impolite := s.impolite + {j})
  }

  function Step(s: State, a: Action): State
    requires Enabled(s, a)
  {
    match a
    case Add(j) => Added(s, j)
    case TakeBack(j) => s.(count := Decremented(s.count), rejecting := s.rejecting - {j})
    case TakeId(j) =>
      s.(ids := s.ids + [s.nextPeerId], numbered := s.numbered + {j},
         nextPeerId := (s.nextPeerId + 1) % 0x1_0000_0000_0000_0000)
    case Leave(j) =>
      s.(count := Decremented(s.count), impolite := s.impolite - {j}, polite := s.polite - {j})
  }

  ghost predicate IsRun(run: seq<State>, actions: seq<Action>) {
    && |run| == |actions| + 1
    && forall i | 0 <= i < |actions| ::
         Enabled(run[i], actions[i]) && run[i + 1] == Step(run[i], actions[i])
  }

  /** Peers inside and rejections in progress together fit in 8 bits. */
  predicate Within(s: State) {
    |s.impolite| + |s.polite| + |s.rejecting| < U8
  }

  /** The peer ids have not run through all 64-bit numbers. */
  predicate IdsLast(s: State) {
    |s.ids| < U64 - 1
  }

  /** What the counter is for. */
  ghost predicate Safe(s: State) {
    && s.count == |s.impolite| + |s.polite| + |s.rejecting|
    && |s.impolite| + |s.polite| <= MAX_PARTICIPANTS
    && |s.impolite| <= 1
    && forall i, j | 0 <= i < j < |s.ids| :: s.ids[i] != s.ids[j]
  }

  ghost predicate Inv(s: State) {
    && s.count == |s.impolite| + |s.polite| + |s.rejecting| < U8
    && |s.impolite| + |s.polite| <= MAX_PARTICIPANTS && |s.impolite| <= 1
    && s.nextPeerId == 1 + |s.ids| && (forall i | 0 <= i < |s.ids| :: s.ids[i] == 1 + i)
    && s.impolite !! s.polite
    && Known(s.impolite, s.arrivals) && Known(s.polite, s.arrivals) && Known(s.rejecting, s.arrivals)
  }

  ghost predicate Known(js: set<Join>, arrivals: Join) {
    forall j | j in js :: j < arrivals
  }

  lemma AddOne(js: set<Join>, j: Join)
    requires Known(js, j)
    ensures |js + {j}| == |js| + 1 && Known(js + {j}, j + 1)
  {}

  lemma RemoveOne(js: set<Join>, j: Join)
    ensures |js - {j}| == |js| - if j in js then 1 else 0
    ensures forall n :: Known(js, n) ==> Known(js - {j}, n)
  {
    if j !in js {
      assert js - {j} == js;
    }
  }

  lemma AddKeepsInv(s: State, j: Join)
    requires Inv(s) && j == s.arrivals && Within(Added(s, j))
    ensures Inv(Added(s, j))
  {
    if s.count >= MAX_PARTICIPANTS {
      AddOne(s.rejecting, j);
    } else if s.count > 0 {
      AddOne(s.polite, j);
    } else {
      AddOne(s.impolite, j);
      assert s.polite == {} && s.impolite == {};
    }
  }

  lemma TakeBackKeepsInv(s: State, j: Join)
    requires Inv(s) && Enabled(s, TakeBack(j))
    ensures Inv(Step(s, TakeBack(j)))
  {
    RemoveOne(s.rejecting, j);
  }

  lemma LeaveKeepsInv(s: State, j: Join)
    requires Inv(s) && Enabled(s, Leave(j))
    ensures Inv(Step(s, Leave(j)))
  {
    RemoveOne(s.impolite, j);
    RemoveOne(s.polite, j);
  }

  lemma StepKeepsInv(s: State, a: Action)
    requires Inv(s) && Enabled(s, a) && Within(Step(s, a)) && IdsLast(Step(s, a))
    ensures Inv(Step(s, a))
  {
    match a
    case Add(j) => AddKeepsInv(s, j);
    case TakeBack(j) => TakeBackKeepsInv(s, j);
    case TakeId(j) =>
    case Leave(j) => LeaveKeepsInv(s, j);
  }

  /** Exactly then is the counter right: all along a run it counts the admitted peers and the
      rejections in progress without wrapping, lets at most two peers in, tells at most one that it
      is impolite and gives all of them different ids, if and only if all along the run those peers
      and rejections are fewer than 256. */
  lemma SafeExactlyWithin(run: seq<State>, actions: seq<Action>, n: nat)
    requires IsRun(run, actions) && run[0] == Init() && n < |run|
    requires forall i | 0 <= i <= n :: IdsLast(run[i])
    ensures (forall i | 0 <= i <= n :: Safe(run[i])) <==> forall i | 0 <= i <= n :: Within(run[i])
  {
    forall i | 0 <= i <= n ensures run[i].count < U8 {
      CountIsAByte(run, actions, i);
    }
    if forall i | 0 <= i <= n :: Within(run[i]) {
      forall i | 0 <= i <= n ensures Safe(run[i]) {
        RunKeepsInv(run, actions, i);
      }
    }
  }

  lemma {:induction false} CountIsAByte(run: seq<State>, actions: seq<Action>, n: nat)
    requires IsRun(run, actions) && run[0] == Init() && n < |run|
    ensures run[n].count < U8
  {
    if n > 0 {
      CountIsAByte(run, actions, n - 1);
    }
  }

  lemma {:induction false} RunKeepsInv(run: seq<State>, actions: seq<Action>, n: nat)
    requires IsRun(run, actions) && run[0] == Init() && n < |run|
    requires forall i | 0 <= i <= n :: Within(run[i]) && IdsLast(run[i])
    ensures Inv(run[n])
  {
    if n > 0 {
      RunKeepsInv(run, actions, n - 1);
      StepKeepsInv(run[n - 1], actions[n - 1]);
    }
  }

  /** At most 253 joins are between their addition and their subtraction. */
  predicate Bounded(s: State) {
    |s.rejecting| <= 253 && IdsLast(s)
  }

  lemma StepLetsTwoIn(s: State, a: Action)
    requires Inv(s) && Enabled(s, a)
    ensures |Step(s, a).impolite| + |Step(s, a).polite| <= MAX_PARTICIPANTS
  {
    match a
    case Add(j) =>
      AddOne(s.polite, j);
      AddOne(s.impolite, j);
    case Leave(j) =>
      RemoveOne(s.impolite, j);
      RemoveOne(s.polite, j);
    case _ =>
  }

  /** With at most 253 rejections in progress the bound holds whoever is inside. */
  lemma {:induction false} BoundedRunsAreSafe(run: seq<State>, actions: seq<Action>, n: nat)
    requires IsRun(run, actions) && run[0] == Init() && n < |run|
    requires forall i | 0 <= i <= n :: Bounded(run[i])
    ensures Inv(run[n]) && Safe(run[n])
  {
    if n > 0 {
      BoundedRunsAreSafe(run, actions, n - 1);
      StepLetsTwoIn(run[n - 1], actions[n - 1]);
      StepKeepsInv(run[n - 1], actions[n - 1]);
    }
  }

  // ----- the bound is sharp

  /** No more than `n` rejections are in progress, and no peer id has been used. */
  predicate Waiting(s: State, n: nat) {
    |s.rejecting| <= n && s.ids == []
  }

  /** The joins from 2 up to `n`. */
  function Late(n: nat): (r: set<Join>)
    requires n >= 2
    ensures |r| == n - 2 && forall j :: j in r <==> 2 <= j < n
  {
    if n == 2 then {} else Late(n - 1) + {n - 1}
  }

  /** Three peers are inside, two of them impolite. */
  predicate Overfull(s: State) {
    s.impolite == {0, 256} && s.polite == {1}
  }

  /** Two peers inside and all later joins up to `n` waiting to take their addition back. */
  function Crowded(n: nat): State
    requires n >= 2
  {
    State(n % 256, 1, {0}, {1}, Late(n), [], {}, n)
  }

  lemma CrowdStarts(n: nat)
    requires n == 2
    ensures var s := Added(Init(), 0);
            IsRun([Init(), s, Crowded(n)], [Add(0), Add(1)]) && Waiting(s, 0)
  {
    var s := Added(Init(), 0);
    assert Added(s, 1) == State(2, 1, {0}, {1}, {}, [], {}, 2);
    assert Late(n) == {};
  }

  lemma CrowdGrows(n: nat)
    requires 2 <= n < 256
    ensures Enabled(Crowded(n), Add(n)) && Step(Crowded(n), Add(n)) == Crowded(n + 1)
  {
    LateGrows(n);
    AddRejected(Crowded(n), n);
    hide Late, Added;
  }

  lemma AddRejected(s: State, j: Join)
    requires s.count >= MAX_PARTICIPANTS
    ensures Added(s, j) == s.(count := (s.count + 1) % 256, arrivals := j + 1, rejecting := s.rejecting + {j})
  {}

  lemma LateGrows(n: nat)
    requires n >= 2
    ensures Late(n + 1) == Late(n) + {n}
  {}

  lemma {:induction false} CrowdGathers(n: nat) returns (run: seq<State>, actions: seq<Action>)
    requires 2 <= n <= 256
    ensures IsRun(run, actions) && run[0] == Init() && run[|run| - 1] == Crowded(n)
    ensures forall i | 0 <= i < |run| :: Waiting(run[i], n - 2)
  {
    if n == 2 {
      CrowdStarts(n);
      run, actions := [Init(), Added(Init(), 0), Crowded(n)], [Add(0), Add(1)];
    } else {
      run, actions := CrowdGathers(n - 1);
      CrowdGrows(n - 1);
      assert Waiting(Crowded(n), n - 2);
      hide Step, Crowded, Enabled;
      Extend(run, actions, Add(n - 1));
      run, actions := run + [Crowded(n)], actions + [Add(n - 1)];
    }
  }

  lemma Extend(run: seq<State>, actions: seq<Action>, a: Action)
    requires IsRun(run, actions) && Enabled(run[|run| - 1], a)
    ensures IsRun(run + [Step(run[|run| - 1], a)], actions + [a])
  {
    hide Step, Enabled;
    var t, acts := run + [Step(run[|run| - 1], a)], actions + [a];
    forall i | 0 <= i < |acts| ensures Enabled(t[i], acts[i]) && t[i + 1] == Step(t[i], acts[i]) {
      assert t[i] == run[i];
      if i < |actions| {
        assert acts[i] == actions[i] && t[i + 1] == run[i + 1];
      }
    }
  }

  lemma FullCircle(n: nat)
    requires n == 256
    ensures var s := Crowded(n);
            var t := Step(s, Add(n));
            Enabled(s, Add(n)) && Waiting(t, 254) && Overfull(t)
  {}

  /** With two peers inside, 254 rejections in progress wrap the 8-bit counter to zero, and a third
      peer is let in and told that it, too, is impolite. */
  lemma OneMoreRejectionWraps() returns (run: seq<State>, actions: seq<Action>)
    ensures IsRun(run, actions) && run[0] == Init()
    ensures forall i | 0 <= i < |run| :: Waiting(run[i], 254)
    ensures Overfull(run[|run| - 1])
  {
    var n := 256;
    FullCircle(n);
    hide *;
    var r, acts := CrowdGathers(n);
    var t := Step(Crowded(n), Add(n));
    Extend(r, acts, Add(n));
    run, actions := r + [t], acts + [Add(n)];
    assert forall i | 0 <= i < |r| :: run[i] == r[i];
  }
}
