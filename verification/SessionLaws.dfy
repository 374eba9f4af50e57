/** What the good states say about sessions, eviction and roles. */
module SessionLaws {
  import opened Rooms
  import opened Sessions
  import opened SessionProofs

  /** Whenever in a run a session leaves, on whatever path, it finds the very room it joined, still
      open and with somebody in it; so it takes exactly one off the count, and it has then left once. */
  lemma EveryLeaveFindsItsRoom(run: seq<World>, events: seq<Event>, n: nat)
    requires IsRun(run, events) && run[0] == Init() && n < |events| && (events[n].AckFails? || events[n].LeaveRoom?)
    ensures var (w, v, sid) := (run[n], run[n + 1], events[n].sid);
            && sid in w.sessions && sid in v.sessions
            && var x := w.sessions[sid];
               && x.room in w.reg.rooms && w.reg.rooms[x.room].inc == x.inc && w.reg.rooms[x.room].count >= 1
               && x.room in v.reg.rooms && v.reg.rooms[x.room].count == w.reg.rooms[x.room].count - 1
               && v.sessions[sid].leaves == 1 == v.sessions[sid].joins
  {
    RunsAreGood(run, events, n);
    LeaveFindsRoom(run[n], events[n]);
  }

  lemma LeaveFindsRoom(w: World, e: Event)
    requires Good(w) && Enabled(w, e) && (e.AckFails? || e.LeaveRoom?)
    ensures var x, v := w.sessions[e.sid], Step(w, e);
            && x.room in w.reg.rooms && w.reg.rooms[x.room].inc == x.inc && w.reg.rooms[x.room].count >= 1
            && x.room in v.reg.rooms && v.reg.rooms[x.room].count == w.reg.rooms[x.room].count - 1
            && v.sessions[e.sid].leaves == 1 == v.sessions[e.sid].joins
  {
    var v := Step(w, e);
    LeaverWalksOut(w, e);
    LeaveNeverUnderflows(w, v, e.sid, e.now);
    StepKeepsAccounts(w, e);
    hide Occupancy, WalksOut, Incarnations, SweepFits, Connections;
    assert Accounted(w.sessions[e.sid]) && Accounted(v.sessions[e.sid]);
  }

  lemma LeaverWalksOut(w: World, e: Event)
    requires Enabled(w, e) && (e.AckFails? || e.LeaveRoom?)
    ensures WalksOut(w, Step(w, e), e.sid, e.now)
  {}

  /** A session that is gone has left exactly as often as it was admitted, and has reported one
      outcome at most. */
  lemma GoneSessionsAreSettled(run: seq<World>, events: seq<Event>, n: nat, sid: nat)
    requires IsRun(run, events) && run[0] == Init() && n < |run| && AtStage(run[n], sid, Gone)
    ensures var x := run[n].sessions[sid]; x.leaves == x.joins <= 1 && x.joinOk + x.joinErr <= 1
  {
    RunsAreGood(run, events, n);
    assert Accounted(run[n].sessions[sid]);
  }

  // ----- eviction

  /** How `emptySince` of room `id` must have moved in a step from `w` to `v`. */
  ghost predicate Dated(w: World, v: World, id: string)
    requires id in w.reg.rooms && id in v.reg.rooms
  {
    v.reg.rooms[id].emptySince ==
      if Occupants(v, id) != {} then 0
      else if Occupants(w, id) == {} then w.reg.rooms[id].emptySince
      else v.clock
  }

  lemma LeaveIsDated(w: World, v: World, sid: nat, now: int, id: string)
    requires Occupancy(w) && Occupancy(v) && WalksOut(w, v, sid, now) && v.clock == now
    requires id in w.reg.rooms && id in v.reg.rooms
    ensures Dated(w, v, id)
  {
    assert RoomFits(w, id) && RoomFits(v, id);
    LeaveOccupants(w, v, sid, now);
    hide Occupants, Occupancy;
    assert |Occupants(v, id)| == 0 <==> Occupants(v, id) == {};
    assert |Occupants(w, id)| == 0 <==> Occupants(w, id) == {};
  }

  /** Steps that leave occupants and dates alone. */
  lemma RestIsDated(w: World, v: World, id: string)
    requires Occupancy(w) && id in w.reg.rooms && id in v.reg.rooms
    requires Occupants(v, id) == Occupants(w, id) && v.reg.rooms[id].emptySince == w.reg.rooms[id].emptySince
    ensures Dated(w, v, id)
  {
    assert RoomFits(w, id);
    hide Occupants, Occupancy;
    assert |Occupants(w, id)| == 0 <==> Occupants(w, id) == {};
  }

  lemma JoinEndsEmptiness(w: World, sid: nat)
    requires AtStage(w, sid, Waiting) && HasSpace(w.reg, w.sessions[sid].room)
    ensures var (v, id) := (DoJoin(w, sid), w.sessions[sid].room); id in v.reg.rooms && v.reg.rooms[id].emptySince == 0
  {}

  lemma JoinIsDated(w: World, sid: nat, id: string)
    requires Occupancy(w) && AtStage(w, sid, Waiting) && HasSpace(w.reg, w.sessions[sid].room)
    requires id in w.reg.rooms && id in DoJoin(w, sid).reg.rooms
    ensures Dated(w, DoJoin(w, sid), id)
  {
    JoinOccupants(w, sid);
    hide Occupants, Occupancy, HasSpace;
    if id != w.sessions[sid].room {
      RestIsDated(w, DoJoin(w, sid), id);
    } else {
      assert sid in Occupants(DoJoin(w, sid), id);
      JoinEndsEmptiness(w, sid);
    }
  }

  lemma QuietIsDated(w: World, e: Event, id: string)
    requires Occupancy(w) && Enabled(w, e) && Quiet(w, e) && id in w.reg.rooms && id in Step(w, e).reg.rooms
    ensures Dated(w, Step(w, e), id)
  {
    hide Occupancy, Occupants, Dated;
    QuietStaysPut(w, e);
    QuietSameOccupancy(w, e);
    hide Step, Enabled, Quiet;
    SameOccupants(w, Step(w, e), Mover(e));
    RestIsDated(w, Step(w, e), id);
  }

  lemma LeaveEventIsDated(w: World, e: Event, id: string)
    requires Occupancy(w) && Enabled(w, e) && (e.AckFails? || e.LeaveRoom?) && Occupancy(Step(w, e))
    requires id in w.reg.rooms && id in Step(w, e).reg.rooms
    ensures Dated(w, Step(w, e), id)
  {
    hide Occupancy, Dated;
    LeaverWalksOut(w, e);
    LeaveIsDated(w, Step(w, e), e.sid, e.now, id);
  }

  lemma SweepIsDated(w: World, e: Event, id: string)
    requires Occupancy(w) && Enabled(w, e) && (e.Collect? || e.Recheck? || e.EndSweep?)
    requires id in w.reg.rooms && id in Step(w, e).reg.rooms
    ensures Dated(w, Step(w, e), id)
  {
    hide Occupancy, Occupants, Dated;
    SessionsFixOccupants(w, Step(w, e));
    RestIsDated(w, Step(w, e), id);
  }

  lemma JoinEventIsDated(w: World, e: Event, id: string)
    requires Occupancy(w) && Enabled(w, e) && e.JoinRoom? && !Quiet(w, e)
    requires id in w.reg.rooms && id in Step(w, e).reg.rooms
    ensures Dated(w, Step(w, e), id)
  {
    hide Occupancy, Occupants, Dated;
    JoinIsDated(w, e.sid, id);
  }

  /** `empty_since` is the time at which the room last became empty: whatever step a run takes, it
      is zero while somebody is inside, is set when the last one leaves, and then stays. */
  lemma EmptinessIsDated(run: seq<World>, events: seq<Event>, n: nat, id: string)
    requires IsRun(run, events) && run[0] == Init() && n < |events|
    requires id in run[n].reg.rooms && id in run[n + 1].reg.rooms
    ensures Dated(run[n], run[n + 1], id)
  {
    RunsAreGood(run, events, n);
    StepIsDated(run[n], events[n], id);
  }

  lemma StepIsDated(w: World, e: Event, id: string)
    requires Good(w) && Enabled(w, e) && id in w.reg.rooms && id in Step(w, e).reg.rooms
    ensures Dated(w, Step(w, e), id)
  {
    StepKeepsGood(w, e);
    assert Occupancy(w) && Occupancy(Step(w, e));
    hide Occupancy, Good, Dated, Step;
    if e.AckFails? || e.LeaveRoom? {
      LeaveEventIsDated(w, e, id);
    } else if e.Collect? || e.Recheck? || e.EndSweep? {
      SweepIsDated(w, e, id);
    } else if Quiet(w, e) {
      QuietIsDated(w, e, id);
    } else {
      JoinEventIsDated(w, e, id);
    }
  }

  /** The second look of the cleanup never removes a room that somebody is in. Whether what it
      removes had really stood empty for longer than the grace period depends on one thing: that
      nobody joined the room after the cleanup collected it. */
  lemma EvictionExact(run: seq<World>, events: seq<Event>, n: nat)
    requires IsRun(run, events) && run[0] == Init() && n < |events| && events[n] == Recheck
    ensures var w, v := run[n], run[n + 1];
            && w.sweep.Sweeping? && w.sweep.pending != []
            && var id := w.sweep.pending[0];
               && (Occupants(w, id) != {} && id in w.reg.rooms ==> id in v.reg.rooms)
               && (id in w.reg.rooms && id !in v.reg.rooms ==>
                     (Overdue(w.reg.rooms[id], w.sweep.now) <==> id !in w.sweep.touched))
               && (id !in w.sweep.touched ==> id in w.reg.rooms && id !in v.reg.rooms)
  {
    RunsAreGood(run, events, n);
    RecheckIsExact(run[n]);
  }

  lemma RecheckIsExact(w: World)
    requires Good(w) && Enabled(w, Recheck)
    ensures var id, v := w.sweep.pending[0], Step(w, Recheck);
            && (Occupants(w, id) != {} && id in w.reg.rooms ==> id in v.reg.rooms)
            && (id in w.reg.rooms && id !in v.reg.rooms ==>
                  (Overdue(w.reg.rooms[id], w.sweep.now) <==> id !in w.sweep.touched))
            && (id !in w.sweep.touched ==> id in w.reg.rooms && id !in v.reg.rooms)
  {
    var id := w.sweep.pending[0];
    assert id in w.sweep.pending;
    if Evicts(w.reg, id) {
      EvictedIsEmpty(w, id);
    }
  }

  /** In every reachable state: a cleanup whose two loops are not interrupted removes exactly the
      rooms that have been empty for more than 600 seconds; so a room goes with the first such
      cleanup. */
  lemma UninterruptedCleanupIsExact(
    run: seq<World>, events: seq<Event>, n: nat, now: int, order: seq<string>, id: string)
    requires IsRun(run, events) && run[0] == Init() && n < |run|
    requires now >= run[n].clock && Collects(run[n].reg, now, order) && id in run[n].reg.rooms
    ensures var w := run[n];
            && AfterRechecks(w.reg, order) == Swept(w.reg, now)
            && (id !in AfterRechecks(w.reg, order).rooms
                <==> Occupants(w, id) == {} && now - w.reg.rooms[id].emptySince > ROOM_GRACE_PERIOD_SECS)
  {
    RunsAreGood(run, events, n);
    var w := run[n];
    forall k | k in w.reg.rooms ensures w.reg.rooms[k].count == 0 <==> w.reg.rooms[k].emptySince > 0 {
      assert RoomFits(w, k);
    }
    assert RoomFits(w, id);
    assert |Occupants(w, id)| == 0 <==> Occupants(w, id) == {};
    RechecksSweep(w.reg, now, order);
  }

  // ----- a cleanup that is interrupted may remove a room too early

  ghost predicate Reaches(w: World, v: World) {
    exists run, events :: IsRun(run, events) && run[0] == w && run[|run| - 1] == v
  }

  lemma ReachesSelf(w: World)
    ensures Reaches(w, w)
  {
    assert IsRun([w], []);
  }

  lemma ReachesNext(u: World, w: World, e: Event)
    requires Reaches(u, w) && Enabled(w, e)
    ensures Reaches(u, Step(w, e))
  {
    hide Step, Enabled;
    var run, events :| IsRun(run, events) && run[0] == u && run[|run| - 1] == w;
    var run', events' := run + [Step(w, e)], events + [e];
    assert forall i | 0 <= i < |run| :: run'[i] == run[i];
    assert IsRun(run', events');
  }

  /** `w` after a visitor has joined room `id` and has gone again at time `now`. */
  function Visited(w: World, sid: nat, id: string, now: int): World {
    var r := Find(w.reg, id);
    w.(reg := AfterLeave(AfterJoin(w.reg, id), id, now),
       sessions := w.sessions[sid := Session(id, r.inc, Exiting, r.count > 0, 0, 1, 1, 1)],
       connects := w.connects + 1,
       clock := now,
       sweep := if w.sweep.Idle? then Idle else w.sweep.(touched := w.sweep.touched + {id}))
  }

  lemma Visit(u: World, w: World, sid: nat, id: string, now: int)
    requires Reaches(u, w) && sid !in w.sessions && HasSpace(w.reg, id) && now >= w.clock
    ensures Reaches(u, Visited(w, sid, id, now))
  {
    var w1 := Step(w, Connect(sid, id));
    ReachesNext(u, w, Connect(sid, id));
    var w2 := Step(w1, Accept(sid));
    ReachesNext(u, w1, Accept(sid));
    var w3 := Step(w2, JoinRoom(sid));
    ReachesNext(u, w2, JoinRoom(sid));
    var x := w3.sessions[sid];
    assert x == Session(id, Find(w.reg, id).inc, Acking, Find(w.reg, id).count > 0, 0, 0, 1, 0);
    ReachesNext(u, w3, AckFails(sid, now));
    assert Step(w3, AckFails(sid, now)).sessions == Visited(w, sid, id, now).sessions;
    assert Step(w3, AckFails(sid, now)) == Visited(w, sid, id, now);
  }

  /** A room is left empty at second 1. A cleanup at second 602 collects it; a visitor joins and
      is gone again; the second look then removes a room that has been empty for no time at all. */
  lemma InterruptedCleanupIsEarly(id: string) returns (w: World)
    ensures Reaches(Init(), w) && Enabled(w, Recheck) && w.sweep.pending[0] == id
    ensures id in w.reg.rooms && id !in Step(w, Recheck).reg.rooms
    ensures w.reg.rooms[id].emptySince == w.sweep.now == w.clock
  {
    hide Reaches;
    var w0 := Init();
    ReachesSelf(w0);
    Visit(w0, w0, 0, id, 1);
    var w1 := Visited(w0, 0, id, 1);
    assert w1.reg.rooms[id] == Room(0, 0, 2, 0, 1, false) && w1.reg.rooms.Keys == {id};
    var e := Event.Collect(602, [id]);
    assert OverdueKeys(w1.reg, 602) == {id};
    ReachesNext(w0, w1, e);
    var w2 := Step(w1, e);
    Visit(w0, w2, 1, id, 602);
    w := Visited(w2, 1, id, 602);
  }
}
