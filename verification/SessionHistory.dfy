/** What the registry and the sessions hold, told from the events of a run: the outcomes that were
    reported, the rooms that a cleanup finds joined, and the peer ids that were handed out. */
module SessionHistory {
  import opened Rooms
  import opened Sessions
  import opened SessionProofs
  import opened SessionLaws
  import opened RoomRoles
  import opened CallReports

  // ----- reported outcomes

  /** What may happen to a session that is counted. */
  datatype Outcome = Enters | Goes | Succeeds | Fails

  /** The room that `sid` asks for has somebody in both its places. */
  predicate FindsItFull(w: World, sid: nat) {
    sid in w.sessions && |Occupants(w, w.sessions[sid].room)| == 2
  }

  /** Event `e` in world `w` lets `sid` in, takes it out, tells it so, or turns it away. */
  predicate Happens(w: World, e: Event, sid: nat, what: Outcome) {
    match what
    case Enters => e == JoinRoom(sid) && !FindsItFull(w, sid)
    case Goes => (e.AckFails? || e.LeaveRoom?) && e.sid == sid
    case Succeeds => e == AckSent(sid)
    case Fails => e == GiveUp(sid) || (e == JoinRoom(sid) && FindsItFull(w, sid)) || (e.AckFails? && e.sid == sid)
  }

  ghost predicate Happened(run: seq<World>, events: seq<Event>, n: nat, sid: nat, what: Outcome)
    requires IsRun(run, events) && n <= |events|
  {
    exists k: nat :: k < n && Happens(run[k], events[k], sid, what)
  }

  function Count(x: Session, what: Outcome): nat {
    match what
    case Enters => x.joins
    case Goes => x.leaves
    case Succeeds => x.joinOk
    case Fails => x.joinErr
  }

  lemma FullIsFull(w: World, sid: nat)
    requires Good(w) && AtStage(w, sid, Waiting)
    ensures FindsItFull(w, sid) <==> !HasSpace(w.reg, w.sessions[sid].room)
  {
    var id := w.sessions[sid].room;
    assert Occupancy(w);
    if id in w.reg.rooms {
      assert RoomFits(w, id);
    } else {
      NoRoomNoOccupants(w, id);
    }
    hide Occupants;
  }

  /** The event is one of session `sid`. */
  predicate Own(e: Event, sid: nat) {
    !e.Collect? && !e.Recheck? && !e.EndSweep? && e.sid == sid
  }

  lemma OthersAreUntouched(w: World, e: Event, sid: nat)
    requires Enabled(w, e) && sid in w.sessions && !Own(e, sid)
    ensures sid in Step(w, e).sessions && Step(w, e).sessions[sid] == w.sessions[sid]
  {}

  lemma JoinCounts(w: World, sid: nat, what: Outcome)
    requires Good(w) && AtStage(w, sid, Waiting)
    ensures Count(DoJoin(w, sid).sessions[sid], what) ==
              Count(w.sessions[sid], what) + if Happens(w, JoinRoom(sid), sid, what) then 1 else 0
  {
    FullIsFull(w, sid);
    hide Good, FindsItFull, HasSpace;
  }

  lemma OwnCounts(w: World, e: Event, sid: nat, what: Outcome)
    requires Enabled(w, e) && Own(e, sid) && !e.JoinRoom? && sid in w.sessions
    ensures sid in Step(w, e).sessions
    ensures Count(Step(w, e).sessions[sid], what) ==
              Count(w.sessions[sid], what) + if Happens(w, e, sid, what) then 1 else 0
  {
    hide FindsItFull;
  }

  /** What one step adds to the counts of `sid`. */
  lemma StepCounts(w: World, e: Event, sid: nat, what: Outcome)
    requires Good(w) && Enabled(w, e) && sid in w.sessions
    ensures sid in Step(w, e).sessions
    ensures Count(Step(w, e).sessions[sid], what) ==
              Count(w.sessions[sid], what) + if Happens(w, e, sid, what) then 1 else 0
  {
    hide Good, FindsItFull, Count, DoJoin;
    if e == JoinRoom(sid) {
      JoinCounts(w, sid, what);
      JoinersStay(w, sid);
    } else if Own(e, sid) {
      OwnCounts(w, e, sid, what);
    } else {
      OthersAreUntouched(w, e, sid);
    }
  }

  lemma JoinersStay(w: World, sid: nat)
    requires sid in w.sessions
    ensures sid in DoJoin(w, sid).sessions
  {}

  lemma AbsentDoNothing(w: World, e: Event, sid: nat, what: Outcome)
    requires Enabled(w, e) && sid !in w.sessions
    ensures !Happens(w, e, sid, what)
    ensures sid in Step(w, e).sessions ==> Count(Step(w, e).sessions[sid], what) == 0
  {}

  lemma PresentStayPresent(w: World, e: Event, sid: nat)
    requires Enabled(w, e) && sid in w.sessions
    ensures sid in Step(w, e).sessions
  {}

  lemma CountsAreSmall(w: World, sid: nat, what: Outcome)
    requires Good(w) && sid in w.sessions
    ensures Count(w.sessions[sid], what) <= 1
  {
    assert AllAccounted(w) && Accounted(w.sessions[sid]);
    hide Occupancy, Incarnations, SweepFits, Connections;
  }

  lemma HappenedOneStepOn(run: seq<World>, events: seq<Event>, n: nat, sid: nat, what: Outcome)
    requires IsRun(run, events) && n < |events|
    ensures Happened(run, events, n + 1, sid, what) <==>
              Happened(run, events, n, sid, what) || Happens(run[n], events[n], sid, what)
  {
    hide Happens;
    if Happens(run[n], events[n], sid, what) {
      assert Happened(run, events, n + 1, sid, what);
    }
  }

  /** Nothing is counted of a session that has not connected. */
  lemma {:induction false} NothingBefore(run: seq<World>, events: seq<Event>, n: nat, sid: nat, what: Outcome)
    requires IsRun(run, events) && n < |run| && sid !in run[n].sessions
    ensures !Happened(run, events, n, sid, what)
  {
    if n > 0 {
      var (w, e) := (run[n - 1], events[n - 1]);
      assert Enabled(w, e) && run[n] == Step(w, e);
      if sid in w.sessions {
        PresentStayPresent(w, e, sid);
      }
      AbsentDoNothing(w, e, sid, what);
      hide Step, Enabled, Happens;
      NothingBefore(run, events, n - 1, sid, what);
    }
  }

  /** In every run: that a session was let in, went out, was told of its success or was turned away has
      been counted if and only if it has happened; and it has been counted once. */
  lemma {:induction false} CountedExactly(run: seq<World>, events: seq<Event>, n: nat, sid: nat, what: Outcome)
    requires IsRun(run, events) && run[0] == Init() && n < |run| && sid in run[n].sessions
    ensures Count(run[n].sessions[sid], what) == if Happened(run, events, n, sid, what) then 1 else 0
  {
    hide Step, Enabled, Good, Happens, Happened, Count;
    if n > 0 {
      var (w, e) := (run[n - 1], events[n - 1]);
      assert Enabled(w, e) && run[n] == Step(w, e);
      RunsAreGood(run, events, n - 1);
      RunsAreGood(run, events, n);
      CountsAreSmall(run[n], sid, what);
      HappenedOneStepOn(run, events, n - 1, sid, what);
      if sid in w.sessions {
        StepCounts(w, e, sid, what);
        CountedExactly(run, events, n - 1, sid, what);
      } else {
        AbsentDoNothing(w, e, sid, what);
        NothingBefore(run, events, n - 1, sid, what);
      }
    }
  }

  // ----- one outcome for everybody

  /** A session that was accepted and has got past the door has reported one outcome: success or failure. */
  predicate Answered(x: Session) {
    x.joinOk + x.joinErr == 1
  }

  /** Whether `x` was accepted and no longer waits for its answer. */
  predicate Settled(x: Session, accepted: bool) {
    match x.stage
    case Connected => !accepted
    case Waiting => accepted
    case Acking => accepted
    case Subscribed => accepted && Answered(x)
    case Relaying => accepted && Answered(x)
    case Finishing(_) => accepted && Answered(x)
    case Departed(_) => accepted && Answered(x)
    case _ => accepted <==> Answered(x)
  }

  ghost predicate Accepted(run: seq<World>, events: seq<Event>, n: nat, sid: nat)
    requires IsRun(run, events) && n <= |events|
  {
    exists k: nat :: k < n && events[k] == Accept(sid)
  }

  lemma StepSettles(w: World, e: Event, sid: nat, accepted: bool)
    requires Good(w) && Enabled(w, e) && sid in w.sessions && Settled(w.sessions[sid], accepted)
    ensures sid in Step(w, e).sessions && Settled(Step(w, e).sessions[sid], accepted || e == Accept(sid))
  {
    if Own(e, sid) {
      SessionsAreAccounted(w, sid);
      hide Good;
      OwnSettles(w, e, sid, accepted);
    } else {
      hide Good, Settled;
      OthersAreUntouched(w, e, sid);
    }
  }

  lemma SessionsAreAccounted(w: World, sid: nat)
    requires Good(w) && sid in w.sessions
    ensures Accounted(w.sessions[sid])
  {
    assert AllAccounted(w);
    hide Occupancy, Incarnations, SweepFits, Connections, Accounted;
  }

  lemma OwnSettles(w: World, e: Event, sid: nat, accepted: bool)
    requires Enabled(w, e) && Own(e, sid) && sid in w.sessions && Settled(w.sessions[sid], accepted)
    requires Accounted(w.sessions[sid])
    ensures sid in Step(w, e).sessions && Settled(Step(w, e).sessions[sid], accepted || e == Accept(sid))
  {}

  lemma NewcomersAreNotAccepted(w: World, e: Event, sid: nat)
    requires Enabled(w, e) && sid !in w.sessions
    ensures e != Accept(sid)
    ensures sid in Step(w, e).sessions ==> Settled(Step(w, e).sessions[sid], false)
  {}

  lemma AcceptedOneStepOn(run: seq<World>, events: seq<Event>, n: nat, sid: nat)
    requires IsRun(run, events) && n < |events|
    ensures Accepted(run, events, n + 1, sid) <==> Accepted(run, events, n, sid) || events[n] == Accept(sid)
  {
    if events[n] == Accept(sid) {
      assert Accepted(run, events, n + 1, sid);
    }
  }

  lemma {:induction false} RunSettles(run: seq<World>, events: seq<Event>, n: nat, sid: nat)
    requires IsRun(run, events) && run[0] == Init() && n < |run|
    ensures if sid in run[n].sessions then Settled(run[n].sessions[sid], Accepted(run, events, n, sid))
            else !Accepted(run, events, n, sid)
  {
    if n > 0 {
      var (w, e) := (run[n - 1], events[n - 1]);
      assert Enabled(w, e) && run[n] == Step(w, e);
      RunsAreGood(run, events, n - 1);
      AcceptedOneStepOn(run, events, n - 1, sid);
      RunSettles(run, events, n - 1, sid);
      if sid in w.sessions {
        StepSettles(w, e, sid, Accepted(run, events, n - 1, sid));
      } else {
        NewcomersAreNotAccepted(w, e, sid);
      }
      hide Step, Enabled, Good, Accepted, Settled;
    }
  }

  /** In every run: of a session that is gone exactly one outcome was reported if it was accepted, and
      none if it was refused. */
  lemma GoneSessionsWereAnswered(run: seq<World>, events: seq<Event>, n: nat, sid: nat)
    requires IsRun(run, events) && run[0] == Init() && n < |run| && AtStage(run[n], sid, Gone)
    ensures var x := run[n].sessions[sid];
      x.joinOk + x.joinErr == if Accepted(run, events, n, sid) then 1 else 0
  {
    RunSettles(run, events, n, sid);
    RunsAreGood(run, events, n);
    assert AllAccounted(run[n]) && Accounted(run[n].sessions[sid]);
    hide Step, Enabled, Good, Accepted;
  }

  /** A session that is not gone can always take its next step. */
  lemma SessionsGoOn(w: World, sid: nat)
    requires sid in w.sessions && w.sessions[sid].stage != Gone
    ensures exists e: Event :: Enabled(w, e) && !e.Collect? && !e.Recheck? && !e.EndSweep? && e.sid == sid
                               && Step(w, e).sessions[sid].stage != w.sessions[sid].stage
  {
    var e := match w.sessions[sid].stage
      case Connected => Accept(sid)
      case Waiting => JoinRoom(sid)
      case Acking => AckSent(sid)
      case Subscribed => StartRelay(sid, w.clock)
      case Relaying => Finish(sid)
      case Finishing(_) => LeaveRoom(sid, w.clock)
      case Departed(_) => Report(sid)
      case _ => Disconnect(sid);
    assert Enabled(w, e) && e.sid == sid;
  }

  // ----- which evictions are early

  /** The cleanup under way at `n` collected its rooms at step `c`. */
  ghost predicate CollectedAt(run: seq<World>, events: seq<Event>, c: nat, n: nat) {
    && IsRun(run, events) && c < n <= |events|
    && events[c].Collect? && forall k | c < k < n :: events[k] != EndSweep
  }

  /** Since step `c` somebody has been let into room `id`. */
  ghost predicate JoinedSince(run: seq<World>, events: seq<Event>, c: nat, n: nat, id: string)
    requires IsRun(run, events) && n <= |events|
  {
    exists k: nat, a: nat :: c < k < n && LetIn(run, events, k, id, a)
  }

  lemma StepTouches(w: World, e: Event, id: string)
    requires Enabled(w, e) && w.sweep.Sweeping? && e != EndSweep
    ensures var v := Step(w, e);
      && v.sweep.Sweeping? && v.sweep.now == w.sweep.now
      && (id in v.sweep.touched <==>
            id in w.sweep.touched || (e.JoinRoom? && w.sessions[e.sid].room == id && HasSpace(w.reg, id)))
  {}

  lemma {:induction false} TouchedExactly(run: seq<World>, events: seq<Event>, c: nat, n: nat, id: string)
    requires CollectedAt(run, events, c, n)
    ensures run[n].sweep.Sweeping? && run[n].sweep.now == events[c].now
    ensures id in run[n].sweep.touched <==> JoinedSince(run, events, c, n, id)
  {
    var (w, e) := (run[n - 1], events[n - 1]);
    assert Enabled(w, e) && run[n] == Step(w, e);
    if n > c + 1 {
      TouchedExactly(run, events, c, n - 1, id);
      StepTouches(w, e, id);
      if e.JoinRoom? && w.sessions[e.sid].room == id && HasSpace(w.reg, id) {
        assert LetIn(run, events, n - 1, id, e.sid);
      }
      hide Step, Enabled, HasSpace;
    }
  }

  /** In every run: a room that a cleanup removes had been empty for longer than 600 seconds when the
      rooms were collected if and only if nobody has been let into it since. */
  lemma EarlyExactly(run: seq<World>, events: seq<Event>, c: nat, n: nat)
    requires CollectedAt(run, events, c, n) && run[0] == Init() && n < |events| && events[n] == Recheck
    ensures var w := run[n];
      && w.sweep.Sweeping? && w.sweep.pending != []
      && var id := w.sweep.pending[0];
         id in w.reg.rooms && id !in run[n + 1].reg.rooms ==>
           (0 < w.reg.rooms[id].emptySince < events[c].now - 600 <==> !JoinedSince(run, events, c, n, id))
  {
    assert Enabled(run[n], events[n]);
    EvictionExact(run, events, n);
    TouchedExactly(run, events, c, n, run[n].sweep.pending[0]);
    hide Step, JoinedSince;
  }

  // ----- peer ids

  /** The id that the next visitor of room `id` gets; a room that is opened starts with 1. */
  function NextPeerId(g: Registry, id: string): int {
    if id in g.rooms then g.rooms[id].nextPeerId else 1
  }

  lemma StepKeepsPeerIds(w: World, e: Event, id: string, n: nat)
    requires Enabled(w, e) && 1 <= NextPeerId(w.reg, id) <= n < 0xFFFF_FFFF_FFFF_FFFF
    ensures 1 <= NextPeerId(Step(w, e).reg, id) <= n + 1
    ensures id in w.reg.rooms && id in Step(w, e).reg.rooms ==>
              NextPeerId(Step(w, e).reg, id) >= NextPeerId(w.reg, id)
  {}

  lemma {:induction false} PeerIdsAreBounded(run: seq<World>, events: seq<Event>, n: nat, id: string)
    requires IsRun(run, events) && run[0] == Init() && n < |run| < 0xFFFF_FFFF_FFFF_FFFF
    ensures 1 <= NextPeerId(run[n].reg, id) <= n + 1
  {
    if n > 0 {
      PeerIdsAreBounded(run, events, n - 1, id);
      StepKeepsPeerIds(run[n - 1], events[n - 1], id, n);
      hide Step, Enabled, NextPeerId;
    }
  }

  lemma {:induction false} PeerIdsGrow(run: seq<World>, events: seq<Event>, i: nat, n: nat, id: string)
    requires IsRun(run, events) && run[0] == Init() && i <= n < |run| < 0xFFFF_FFFF_FFFF_FFFF
    requires forall k | i <= k <= n :: id in run[k].reg.rooms
    ensures NextPeerId(run[n].reg, id) >= NextPeerId(run[i].reg, id)
  {
    if i < n {
      PeerIdsGrow(run, events, i, n - 1, id);
      PeerIdsAreBounded(run, events, n - 1, id);
      StepKeepsPeerIds(run[n - 1], events[n - 1], id, n);
      hide Step, Enabled, NextPeerId;
    }
  }

  lemma LetInTakesId(run: seq<World>, events: seq<Event>, j: nat, id: string, a: nat)
    requires LetIn(run, events, j, id, a) && 1 <= NextPeerId(run[j].reg, id) < 0xFFFF_FFFF_FFFF_FFFF
    ensures JoinResult(run[j].reg, id).Joined? && JoinResult(run[j].reg, id).peerId == NextPeerId(run[j].reg, id)
    ensures id in run[j + 1].reg.rooms && a in run[j + 1].sessions
    ensures run[j + 1].sessions[a].inc == run[j + 1].reg.rooms[id].inc
    ensures NextPeerId(run[j + 1].reg, id) == NextPeerId(run[j].reg, id) + 1
  {
    assert AtStage(run[j], a, Waiting) && run[j + 1] == DoJoin(run[j], a);
  }

  lemma StandsBetween(run: seq<World>, events: seq<Event>, j: nat, k: nat, id: string)
    requires IsRun(run, events) && run[0] == Init() && j <= k < |run|
    requires id in run[j].reg.rooms && id in run[k].reg.rooms && run[j].reg.rooms[id].inc == run[k].reg.rooms[id].inc
    ensures forall i | j <= i <= k :: id in run[i].reg.rooms
  {
    forall i | j <= i <= k ensures id in run[i].reg.rooms {
      if id !in run[i].reg.rooms {
        RunsAreGood(run, events, j);
        assert Incarnations(run[j]);
        hide Step, Enabled, Good, Incarnations;
        NextIncGrows(run, events, j, i);
        ReopenedRoomsAreNew(run, events, i, k, id);
      }
    }
  }

  /** In every run of less than 2^64 - 2 events: of two sessions that are let into one incarnation of a
      room, the later one gets a greater peer id, so that neither takes the other's messages for its own. */
  lemma PeerIdsDiffer(run: seq<World>, events: seq<Event>, j: nat, k: nat, id: string, a: nat, b: nat)
    requires run != [] && run[0] == Init() && |run| < 0xFFFF_FFFF_FFFF_FFFF && j < k
    requires LetIn(run, events, j, id, a) && LetIn(run, events, k, id, b)
    requires a in run[j + 1].sessions && b in run[k + 1].sessions
    requires run[j + 1].sessions[a].inc == run[k + 1].sessions[b].inc
    ensures JoinResult(run[j].reg, id).Joined? && JoinResult(run[k].reg, id).Joined?
    ensures JoinResult(run[j].reg, id).peerId < JoinResult(run[k].reg, id).peerId
  {
    LetInIsRun(run, events, j, id, a);
    PeerIdsAreBounded(run, events, j, id);
    PeerIdsAreBounded(run, events, k, id);
    LetInTakesId(run, events, j, id, a);
    LetInTakesId(run, events, k, id, b);
    hide LetIn, JoinResult, NextPeerId, Step, Enabled;
    StandsBetween(run, events, j + 1, k + 1, id);
    PeerIdsGrow(run, events, j + 1, k, id);
  }
}
