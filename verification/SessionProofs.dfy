/** Every reachable state of the sessions, the registry and the cleanup is good. */
module SessionProofs {
  import opened Rooms
  import opened Sessions

  // ----- occupancy

  ghost predicate Occupancy(w: World) {
    && w.clock > 0 && (forall id | id in w.reg.rooms :: RoomFits(w, id)) && Housed(w)
    && w.reg.roomsActive == |w.reg.rooms|
  }

  /** The registries hold the same rooms with the same people in them. */
  ghost predicate SameOccupancy(g: Registry, h: Registry) {
    && g.rooms.Keys == h.rooms.Keys && g.roomsActive == h.roomsActive
    && forall id | id in g.rooms ::
         g.rooms[id].count == h.rooms[id].count && g.rooms[id].emptySince == h.rooms[id].emptySince
          && g.rooms[id].inc == h.rooms[id].inc
  }

  /** `sid` moves without entering or leaving a room. */
  ghost predicate StaysPut(w: World, v: World, sid: nat) {
    && v.sessions.Keys == w.sessions.Keys + {sid}
    && (forall s | s in w.sessions && s != sid :: v.sessions[s] == w.sessions[s])
    && (if sid in w.sessions && InRoom(w.sessions[sid]) then
          var x, y := w.sessions[sid], v.sessions[sid];
          InRoom(y) && y.room == x.room && y.polite == x.polite && y.inc == x.inc
        else !InRoom(v.sessions[sid]))
  }

  lemma SameOccupants(w: World, v: World, sid: nat)
    requires StaysPut(w, v, sid)
    ensures forall id :: Occupants(v, id) == Occupants(w, id)
  {
    forall id ensures Occupants(v, id) == Occupants(w, id) {
      assert forall s :: s in Occupants(v, id) <==> s in Occupants(w, id);
    }
  }

  lemma SizeOfSameKeys(a: map<string, Room>, b: map<string, Room>)
    requires a.Keys == b.Keys
    ensures |a| == |b|
  {
    assert |a| == |a.Keys| && |b| == |b.Keys|;
  }

  lemma StayFits(w: World, v: World, sid: nat, id: string)
    requires StaysPut(w, v, sid) && SameOccupancy(w.reg, v.reg) && v.clock >= w.clock
    requires id in w.reg.rooms && id in v.reg.rooms && RoomFits(w, id)
    requires Occupants(v, id) == Occupants(w, id)
    ensures RoomFits(v, id)
  {
    assert forall s | s in Occupants(w, id) :: v.sessions[s].polite == w.sessions[s].polite;
  }

  lemma StayHouses(w: World, v: World, sid: nat)
    requires StaysPut(w, v, sid) && SameOccupancy(w.reg, v.reg) && Housed(w)
    ensures Housed(v)
  {}

  lemma StayKeepsOccupancy(w: World, v: World, sid: nat)
    requires Occupancy(w) && StaysPut(w, v, sid) && SameOccupancy(w.reg, v.reg) && v.clock >= w.clock
    ensures Occupancy(v)
  {
    SameOccupants(w, v, sid);
    StayHouses(w, v, sid);
    SizeOfSameKeys(w.reg.rooms, v.reg.rooms);
    hide StaysPut, RoomFits, Housed, Occupants;
    forall id | id in v.reg.rooms ensures RoomFits(v, id) {
      StayFits(w, v, sid, id);
    }
  }

  lemma JoinOccupants(w: World, sid: nat)
    requires AtStage(w, sid, Waiting) && HasSpace(w.reg, w.sessions[sid].room)
    ensures var v := DoJoin(w, sid);
            && Occupants(v, w.sessions[sid].room) == Occupants(w, w.sessions[sid].room) + {sid}
            && sid !in Occupants(w, w.sessions[sid].room)
            && forall id | id != w.sessions[sid].room :: Occupants(v, id) == Occupants(w, id)
  {
    var v, room := DoJoin(w, sid), w.sessions[sid].room;
    assert Occupants(v, room) == Occupants(w, room) + {sid};
    forall id | id != room ensures Occupants(v, id) == Occupants(w, id) {
      assert forall s :: s in Occupants(v, id) <==> s in Occupants(w, id);
    }
  }

  lemma NoRoomNoOccupants(w: World, id: string)
    requires Housed(w) && id !in w.reg.rooms
    ensures Occupants(w, id) == {}
  {}

  lemma JoinKeepsOccupancy(w: World, sid: nat)
    requires Occupancy(w) && AtStage(w, sid, Waiting) && HasSpace(w.reg, w.sessions[sid].room)
    ensures Occupancy(DoJoin(w, sid))
  {
    var v, room := DoJoin(w, sid), w.sessions[sid].room;
    JoinOccupants(w, sid);
    if room !in w.reg.rooms {
      NoRoomNoOccupants(w, room);
    } else {
      assert RoomFits(w, room);
    }
    var before := Occupants(w, room);
    assert |before + {sid}| == |before| + 1;
    assert Find(w.reg, room).count == |before|;
    assert v.reg.rooms.Keys == w.reg.rooms.Keys + {room};
    assert |v.reg.rooms| == |w.reg.rooms.Keys + {room}|;
    forall id | id in v.reg.rooms ensures RoomFits(v, id) {
      if id != room {
        assert RoomFits(w, id);
        OthersAsBefore(w, v, sid, id);
      } else {
        JoinerFits(w, sid);
      }
    }
    JoinHouses(w, sid);
  }

  lemma OthersAsBefore(w: World, v: World, sid: nat, id: string)
    requires id in w.reg.rooms && id in v.reg.rooms && v.reg.rooms[id] == w.reg.rooms[id] && RoomFits(w, id)
    requires Occupants(v, id) == Occupants(w, id) && sid !in Occupants(w, id) && v.clock >= w.clock
    requires forall s | s in w.sessions && s != sid :: s in v.sessions && v.sessions[s] == w.sessions[s]
    ensures RoomFits(v, id)
  {}

  lemma JoinerFits(w: World, sid: nat)
    requires Occupancy(w) && AtStage(w, sid, Waiting) && HasSpace(w.reg, w.sessions[sid].room)
    ensures RoomFits(DoJoin(w, sid), w.sessions[sid].room)
  {
    var v, room := DoJoin(w, sid), w.sessions[sid].room;
    JoinOccupants(w, sid);
    var before := Occupants(w, room);
    if room !in w.reg.rooms {
      NoRoomNoOccupants(w, room);
    } else {
      assert RoomFits(w, room);
    }
    assert |before| == Find(w.reg, room).count;
    if |before| == 0 {
      assert before == {};
    } else {
      assert v.sessions[sid].polite;
    }
  }

  lemma JoinHouses(w: World, sid: nat)
    requires Occupancy(w) && AtStage(w, sid, Waiting) && HasSpace(w.reg, w.sessions[sid].room)
    ensures Housed(DoJoin(w, sid))
  {}

  /** `sid` leaves its room at time `now`. */
  ghost predicate WalksOut(w: World, v: World, sid: nat, now: int) {
    && sid in w.sessions && InRoom(w.sessions[sid]) && now >= w.clock
    && v.sessions.Keys == w.sessions.Keys
    && (forall s | s in w.sessions && s != sid :: v.sessions[s] == w.sessions[s])
    && !InRoom(v.sessions[sid])
    && v.reg == AfterLeave(w.reg, w.sessions[sid].room, now) && v.clock == now
  }

  lemma LeaveOccupants(w: World, v: World, sid: nat, now: int)
    requires WalksOut(w, v, sid, now)
    ensures Occupants(v, w.sessions[sid].room) == Occupants(w, w.sessions[sid].room) - {sid}
    ensures sid in Occupants(w, w.sessions[sid].room)
    ensures forall id | id != w.sessions[sid].room :: Occupants(v, id) == Occupants(w, id)
  {
    var room := w.sessions[sid].room;
    assert Occupants(v, room) == Occupants(w, room) - {sid};
    forall id | id != room ensures Occupants(v, id) == Occupants(w, id) {
      assert forall s :: s in Occupants(v, id) <==> s in Occupants(w, id);
    }
  }

  /** `leave` finds the room, and finds somebody in it: the counter never goes below zero. */
  lemma LeaveNeverUnderflows(w: World, v: World, sid: nat, now: int)
    requires Occupancy(w) && WalksOut(w, v, sid, now)
    ensures var room := w.sessions[sid].room;
            room in w.reg.rooms && w.reg.rooms[room].inc == w.sessions[sid].inc && w.reg.rooms[room].count >= 1
    ensures var room := w.sessions[sid].room;
            room in v.reg.rooms && v.reg.rooms[room].count == w.reg.rooms[room].count - 1
  {
    LeaveOccupants(w, v, sid, now);
    assert RoomFits(w, w.sessions[sid].room);
  }

  lemma LeaveKeepsOccupancy(w: World, v: World, sid: nat, now: int)
    requires Occupancy(w) && WalksOut(w, v, sid, now)
    ensures Occupancy(v)
  {
    var room := w.sessions[sid].room;
    LeaveOccupants(w, v, sid, now);
    LeaveNeverUnderflows(w, v, sid, now);
    assert v.reg.rooms.Keys == w.reg.rooms.Keys;
    assert |v.reg.rooms| == |w.reg.rooms.Keys|;
    forall id | id in v.reg.rooms ensures RoomFits(v, id) {
      assert RoomFits(w, id);
      if id != room {
        OthersAsBefore(w, v, sid, id);
      }
    }
  }

  lemma SessionsFixOccupants(w: World, v: World)
    requires v.sessions == w.sessions
    ensures forall id :: Occupants(v, id) == Occupants(w, id)
  {
    forall id ensures Occupants(v, id) == Occupants(w, id) {}
  }

  lemma SessionsFixFit(w: World, v: World, id: string)
    requires v.sessions == w.sessions && v.clock >= w.clock
    requires id in w.reg.rooms && id in v.reg.rooms && v.reg.rooms[id] == w.reg.rooms[id] && RoomFits(w, id)
    ensures RoomFits(v, id)
  {
    SessionsFixOccupants(w, v);
  }

  /** A room that the cleanup may remove has nobody in it. */
  lemma EvictedIsEmpty(w: World, id: string)
    requires Occupancy(w) && Evicts(w.reg, id)
    ensures Occupants(w, id) == {}
    ensures forall sid | sid in w.sessions && InRoom(w.sessions[sid]) :: w.sessions[sid].room != id
  {
    assert RoomFits(w, id);
    var inside := Occupants(w, id);
    assert inside == {};
    forall sid | sid in w.sessions && InRoom(w.sessions[sid]) ensures w.sessions[sid].room != id {
      assert sid !in inside;
    }
  }

  lemma EvictHouses(w: World, v: World, id: string)
    requires Occupancy(w) && Evicts(w.reg, id) && v.sessions == w.sessions && v.reg == AfterRecheck(w.reg, id)
    ensures Housed(v) && |v.reg.rooms| == |w.reg.rooms| - 1
  {
    EvictedIsEmpty(w, id);
    assert v.reg.rooms.Keys == w.reg.rooms.Keys - {id};
    assert |v.reg.rooms| == |v.reg.rooms.Keys|;
  }

  lemma RecheckKeepsOccupancy(w: World, v: World, id: string)
    requires Occupancy(w) && v.sessions == w.sessions && v.clock == w.clock && v.reg == AfterRecheck(w.reg, id)
    ensures Occupancy(v)
  {
    if Evicts(w.reg, id) {
      EvictHouses(w, v, id);
    }
    hide RoomFits, Housed;
    forall k | k in v.reg.rooms ensures RoomFits(v, k) {
      SessionsFixFit(w, v, k);
    }
    if !Evicts(w.reg, id) {
      SessionsHouse(w, v);
    }
  }

  lemma SessionsHouse(w: World, v: World)
    requires v.sessions == w.sessions && v.reg == w.reg && Housed(w)
    ensures Housed(v)
  {}

  lemma SweepMoveKeepsOccupancy(w: World, v: World)
    requires Occupancy(w) && v.sessions == w.sessions && v.reg == w.reg && v.clock >= w.clock
    ensures Occupancy(v)
  {
    SessionsHouse(w, v);
    hide RoomFits, Housed;
    forall k | k in v.reg.rooms ensures RoomFits(v, k) {
      SessionsFixFit(w, v, k);
    }
  }

  /** The steps of a session that neither enter nor leave a room. */
  predicate Quiet(w: World, e: Event) {
    match e
    case Connect(_, _) | Refuse(_) | Accept(_) | GiveUp(_) | AckSent(_) | StartRelay(_, _) | Finish(_) | Report(_)
      | Disconnect(_) => true
    case JoinRoom(sid) => sid in w.sessions && !HasSpace(w.reg, w.sessions[sid].room)
    case _ => false
  }

  function Mover(e: Event): nat
    requires !e.Collect? && !e.Recheck? && !e.EndSweep?
  {
    e.sid
  }

  lemma QuietStaysPut(w: World, e: Event)
    requires Enabled(w, e) && Quiet(w, e)
    ensures StaysPut(w, Step(w, e), Mover(e))
  {}

  lemma QuietSameOccupancy(w: World, e: Event)
    requires Enabled(w, e) && Quiet(w, e)
    ensures SameOccupancy(w.reg, Step(w, e).reg) && Step(w, e).clock >= w.clock
  {
    match e
    case StartRelay(sid, now) => assert SameOccupancy(w.reg, AfterConnected(w.reg, w.sessions[sid].room, now));
    case Report(sid) => assert SameOccupancy(w.reg, AfterEnd(w.reg, w.sessions[sid].room));
    case _ =>
  }

  lemma StepKeepsOccupancy(w: World, e: Event)
    requires Occupancy(w) && Enabled(w, e)
    ensures Occupancy(Step(w, e))
  {
    var v := Step(w, e);
    if Quiet(w, e) {
      QuietStaysPut(w, e);
      QuietSameOccupancy(w, e);
      hide *;
      StayKeepsOccupancy(w, v, Mover(e));
    } else {
      match e
      case JoinRoom(sid) => JoinKeepsOccupancy(w, sid);
      case AckFails(sid, now) => LeaveKeepsOccupancy(w, v, sid, now);
      case LeaveRoom(sid, now) => LeaveKeepsOccupancy(w, v, sid, now);
      case Recheck => RecheckKeepsOccupancy(w, v, w.sweep.pending[0]);
      case Collect(_, _) => SweepMoveKeepsOccupancy(w, v);
      case EndSweep => SweepMoveKeepsOccupancy(w, v);
    }
  }

  // ----- accounting

  /** Connects equal disconnects plus the sessions still there. */
  predicate Connections(w: World) {
    w.connects == w.disconnects + |Live(w)|
  }

  lemma StepKeepsConnections(w: World, e: Event)
    requires Connections(w) && Enabled(w, e)
    ensures Connections(Step(w, e))
  {
    var v := Step(w, e);
    match e
    case Connect(sid, _) => assert Live(v) == Live(w) + {sid};
    case Disconnect(sid) => assert Live(v) == Live(w) - {sid};
    case _ => SameLive(w, e);
  }

  lemma SameLive(w: World, e: Event)
    requires Enabled(w, e) && !e.Connect? && !e.Disconnect?
    ensures Live(Step(w, e)) == Live(w)
  {
    var v := Step(w, e);
    assert forall s :: s in Live(v) <==> s in Live(w);
  }

  ghost predicate AllAccounted(w: World) {
    forall sid | sid in w.sessions :: Accounted(w.sessions[sid])
  }

  lemma OnlyMoverChanges(w: World, e: Event)
    requires Enabled(w, e)
    ensures forall sid | sid in Step(w, e).sessions ::
              (e.Collect? || e.Recheck? || e.EndSweep? || sid != e.sid) ==>
                sid in w.sessions && Step(w, e).sessions[sid] == w.sessions[sid]
  {}

  lemma MoverAccounted(w: World, e: Event)
    requires AllAccounted(w) && Enabled(w, e) && !e.Collect? && !e.Recheck? && !e.EndSweep?
    ensures e.sid in Step(w, e).sessions && Accounted(Step(w, e).sessions[e.sid])
  {
    assert e.sid in w.sessions ==> Accounted(w.sessions[e.sid]);
  }

  lemma StepKeepsAccounts(w: World, e: Event)
    requires AllAccounted(w) && Enabled(w, e)
    ensures AllAccounted(Step(w, e))
  {
    OnlyMoverChanges(w, e);
    if !e.Collect? && !e.Recheck? && !e.EndSweep? {
      MoverAccounted(w, e);
    }
    hide Step, Enabled, Accounted;
  }

  // ----- incarnations

  lemma JoinKeepsIncarnations(w: World, sid: nat)
    requires Incarnations(w) && AtStage(w, sid, Waiting)
    ensures Incarnations(DoJoin(w, sid))
  {
    assert w.reg.nextInc !in w.callsEnded;
  }

  lemma ReportKeepsIncarnations(w: World, sid: nat)
    requires Incarnations(w) && sid in w.sessions && w.sessions[sid].stage.Departed?
    ensures Incarnations(DoReport(w, sid))
  {}

  /** The same rooms or fewer, and nothing reported. */
  lemma FewerKeepsIncarnations(w: World, v: World)
    requires Incarnations(w) && v.callsEnded == w.callsEnded && v.reg.nextInc == w.reg.nextInc
    requires v.reg.rooms.Keys <= w.reg.rooms.Keys
    requires forall id | id in v.reg.rooms ::
      v.reg.rooms[id].inc == w.reg.rooms[id].inc && v.reg.rooms[id].ended == w.reg.rooms[id].ended
    ensures Incarnations(v)
  {}

  lemma StepKeepsIncarnations(w: World, e: Event)
    requires Incarnations(w) && Enabled(w, e)
    ensures Incarnations(Step(w, e))
  {
    hide Incarnations;
    match e
    case JoinRoom(sid) => JoinKeepsIncarnations(w, sid);
    case Report(sid) => ReportKeepsIncarnations(w, sid);
    case _ => FewerKeepsIncarnations(w, Step(w, e));
  }

  // ----- the cleanup

  lemma StepKeepsSweep(w: World, e: Event)
    requires SweepFits(w) && Occupancy(w) && Enabled(w, e)
    ensures SweepFits(Step(w, e))
  {
    var v := Step(w, e);
    match e
    case JoinRoom(sid) => JoinKeepsSweep(w, sid);
    case AckFails(sid, now) => LeaveKeepsSweep(w, v, sid, now);
    case LeaveRoom(sid, now) => LeaveKeepsSweep(w, v, sid, now);
    case Recheck => RecheckKeepsSweep(w);
    case Collect(_, _) =>
      CollectStartsSweep(w, e);
    case EndSweep =>
    case _ =>
      QuietSameOccupancy(w, e);
      QuietKeepsSweep(w, v);
  }

  lemma QuietKeepsSweep(w: World, v: World)
    requires SweepFits(w) && SameOccupancy(w.reg, v.reg) && v.sweep == w.sweep && v.clock >= w.clock
    ensures SweepFits(v)
  {}

  lemma JoinKeepsSweep(w: World, sid: nat)
    requires SweepFits(w) && AtStage(w, sid, Waiting)
    requires Occupancy(w)
    ensures SweepFits(DoJoin(w, sid))
  {
    var room := w.sessions[sid].room;
    assert room in w.reg.rooms ==> RoomFits(w, room);
  }

  lemma LeaveKeepsSweep(w: World, v: World, sid: nat, now: int)
    requires SweepFits(w) && Occupancy(w) && WalksOut(w, v, sid, now) && v.sweep == w.sweep
    ensures SweepFits(v)
  {
    LeaveNeverUnderflows(w, v, sid, now);
  }

  lemma RecheckKeepsSweep(w: World)
    requires SweepFits(w) && Enabled(w, Recheck)
    ensures SweepFits(Step(w, Recheck))
  {
    var v := Step(w, Recheck);
    var p := w.sweep.pending;
    forall i, j | 0 <= i < j < |p| - 1 ensures p[1..][i] != p[1..][j] {
      assert p[1..][i] == p[i + 1] && p[1..][j] == p[j + 1];
    }
    forall id | id in p[1..] ensures id in p && id != p[0] {
      var k :| 0 <= k < |p| - 1 && p[1..][k] == id;
      assert p[k + 1] == id;
    }
  }

  lemma CollectStartsSweep(w: World, e: Event)
    requires Occupancy(w) && Enabled(w, e) && e.Collect?
    ensures SweepFits(Step(w, e))
  {
    forall id | id in e.order
      ensures id in w.reg.rooms && w.reg.rooms[id].count == 0 && Overdue(w.reg.rooms[id], e.now)
    {
      assert id in OverdueKeys(w.reg, e.now);
      assert RoomFits(w, id);
    }
  }

  // ----- every run

  ghost predicate Good(w: World) {
    Occupancy(w) && Connections(w) && AllAccounted(w) && Incarnations(w) && SweepFits(w)
  }

  lemma StepKeepsGood(w: World, e: Event)
    requires Good(w) && Enabled(w, e)
    ensures Good(Step(w, e))
  {
    hide Occupancy, Connections, AllAccounted, Incarnations, SweepFits, Step, Enabled;
    StepKeepsOccupancy(w, e);
    StepKeepsConnections(w, e);
    StepKeepsAccounts(w, e);
    StepKeepsIncarnations(w, e);
    StepKeepsSweep(w, e);
  }

  lemma InitIsGood()
    ensures Good(Init())
  {
    assert Live(Init()) == {};
  }

  /** In every reachable state: each room's count is the number of sessions inside it and at most
      two, of whom at most one is impolite; `empty_since` is zero exactly when somebody is inside;
      the gauge is the number of rooms; connects are disconnects plus live sessions; every session
      has reported at most one outcome and, once out of the room, has left exactly as often as it
      joined; and a room is marked as ended exactly when the end of its call was reported, which happens once
      for an incarnation at most. */
  lemma {:induction false} RunsAreGood(run: seq<World>, events: seq<Event>, n: nat)
    requires IsRun(run, events) && run[0] == Init() && n < |run|
    ensures Good(run[n])
  {
    if n == 0 {
      InitIsGood();
    } else {
      hide Good, Step, Enabled;
      RunsAreGood(run, events, n - 1);
      StepKeepsGood(run[n - 1], events[n - 1]);
    }
  }
}
