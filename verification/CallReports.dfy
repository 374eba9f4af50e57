/** Which incarnation of a room is charged with the end of a call: the report looks the room up by
    its name, some time after the session has left it. */
module CallReports {
  import opened Rooms
  import opened Sessions
  import opened SessionProofs
  import opened SessionLaws
  import opened RoomRoles

  // ----- incarnations over a run

  lemma StepKeepsInc(w: World, e: Event, id: string)
    requires Enabled(w, e)
    ensures var v := Step(w, e);
      && v.reg.nextInc >= w.reg.nextInc
      && (id in w.reg.rooms && id in v.reg.rooms ==> v.reg.rooms[id].inc == w.reg.rooms[id].inc)
      && (id !in w.reg.rooms && id in v.reg.rooms ==> v.reg.rooms[id].inc == w.reg.nextInc)
  {}

  lemma StepKeepsHome(w: World, e: Event, sid: nat)
    requires Enabled(w, e) && AllAccounted(w) && sid in w.sessions && w.sessions[sid].joins == 1
    ensures var v := Step(w, e);
      && sid in v.sessions && v.sessions[sid].joins == 1
      && v.sessions[sid].room == w.sessions[sid].room && v.sessions[sid].inc == w.sessions[sid].inc
  {
    assert Accounted(w.sessions[sid]);
  }

  lemma {:induction false} RunKeepsHome(run: seq<World>, events: seq<Event>, i: nat, n: nat, sid: nat)
    requires IsRun(run, events) && run[0] == Init() && i <= n < |run|
    requires sid in run[i].sessions && run[i].sessions[sid].joins == 1
    ensures sid in run[n].sessions && run[n].sessions[sid].joins == 1
    ensures run[n].sessions[sid].room == run[i].sessions[sid].room
    ensures run[n].sessions[sid].inc == run[i].sessions[sid].inc
  {
    hide Step, Enabled, Good, AllAccounted;
    if i < n {
      RunKeepsHome(run, events, i, n - 1, sid);
      RunsAreGood(run, events, n - 1);
      GoodHolds(run[n - 1]);
      StepKeepsHome(run[n - 1], events[n - 1], sid);
    }
  }

  /** A room that stays keeps its incarnation. */
  lemma {:induction false} StandingRoomsKeepInc(run: seq<World>, events: seq<Event>, i: nat, n: nat, id: string)
    requires IsRun(run, events) && i <= n < |run|
    requires forall k | i <= k <= n :: id in run[k].reg.rooms
    ensures run[n].reg.rooms[id].inc == run[i].reg.rooms[id].inc
  {
    hide Step, Enabled;
    if i < n {
      StandingRoomsKeepInc(run, events, i, n - 1, id);
      StepKeepsInc(run[n - 1], events[n - 1], id);
    }
  }

  lemma {:induction false} NextIncGrows(run: seq<World>, events: seq<Event>, i: nat, n: nat)
    requires IsRun(run, events) && i <= n < |run|
    ensures run[n].reg.nextInc >= run[i].reg.nextInc
  {
    hide Step, Enabled;
    if i < n {
      NextIncGrows(run, events, i, n - 1);
      StepKeepsInc(run[n - 1], events[n - 1], "");
    }
  }

  /** A room that has been away comes back as a later incarnation than any there was before. */
  lemma {:induction false} ReopenedRoomsAreNew(run: seq<World>, events: seq<Event>, k: nat, n: nat, id: string)
    requires IsRun(run, events) && k <= n < |run| && id !in run[k].reg.rooms && id in run[n].reg.rooms
    ensures run[n].reg.rooms[id].inc >= run[k].reg.nextInc
  {
    StepKeepsInc(run[n - 1], events[n - 1], id);
    hide Step, Enabled;
    if id in run[n - 1].reg.rooms {
      ReopenedRoomsAreNew(run, events, k, n - 1, id);
    } else {
      NextIncGrows(run, events, k, n - 1);
    }
  }

  // ----- what is charged

  /** At step `n` session `sid`, which left at step `i`, reports the end of its call. */
  ghost predicate Reports(run: seq<World>, events: seq<Event>, i: nat, n: nat, sid: nat) {
    && IsRun(run, events) && run[0] == Init() && i < n < |events|
    && events[i].LeaveRoom? && events[i].sid == sid && events[n] == Report(sid)
    && |run[n + 1].callsEnded| > |run[n].callsEnded|
  }

  lemma LeavingKeepsHome(w: World, e: Event)
    requires Good(w) && Enabled(w, e) && e.LeaveRoom?
    ensures var (v, sid) := (Step(w, e), e.sid);
      && sid in v.sessions && v.sessions[sid].joins == 1
      && v.sessions[sid].room in v.reg.rooms && v.reg.rooms[v.sessions[sid].room].inc == v.sessions[sid].inc
      && v.sessions[sid].inc < v.reg.nextInc
  {
    LeaveFindsRoom(w, e);
    StepKeepsInc(w, e, w.sessions[e.sid].room);
    assert Incarnations(w);
    hide Occupancy, SweepFits, Connections, AllAccounted;
  }

  lemma ReportCharges(w: World, sid: nat)
    requires Enabled(w, Report(sid)) && |Step(w, Report(sid)).callsEnded| > |w.callsEnded|
    ensures var x := w.sessions[sid];
      x.room in w.reg.rooms && Step(w, Report(sid)).callsEnded == w.callsEnded + [w.reg.rooms[x.room].inc]
  {}

  /** In every run: the end of the call is charged to the very incarnation that the session was in if
      and only if the room has stood all the while since the session left it. */
  lemma ChargedExactly(run: seq<World>, events: seq<Event>, i: nat, n: nat, sid: nat)
    requires Reports(run, events, i, n, sid)
    ensures sid in run[n].sessions
    ensures var x := run[n].sessions[sid];
      run[n + 1].callsEnded == run[n].callsEnded + [x.inc] <==> forall k | i < k <= n :: x.room in run[k].reg.rooms
  {
    RunsAreGood(run, events, i);
    LeavingKeepsHome(run[i], events[i]);
    RunKeepsHome(run, events, i + 1, n, sid);
    ReportCharges(run[n], sid);
    hide Step, Enabled, Good;
    var x := run[n].sessions[sid];
    var (charged, own) := (run[n].callsEnded + [run[n].reg.rooms[x.room].inc], run[n].callsEnded + [x.inc]);
    assert charged[|run[n].callsEnded|] == run[n].reg.rooms[x.room].inc && own[|run[n].callsEnded|] == x.inc;
    if forall k | i < k <= n :: x.room in run[k].reg.rooms {
      StandingRoomsKeepInc(run, events, i + 1, n, x.room);
    } else {
      var k :| i < k <= n && x.room !in run[k].reg.rooms;
      NextIncGrows(run, events, i + 1, k);
      ReopenedRoomsAreNew(run, events, k, n, x.room);
    }
  }

  // ----- a report that is late

  /** Two visitors have had a call and have left, the first of them with its report still to make. */
  lemma CallHasEnded(id: string) returns (w: World)
    ensures Reaches(Init(), w) && w.sweep == Idle && w.clock == 1
    ensures w.sessions.Keys == {0, 1} && w.sessions[0].stage == Departed(1)
    ensures w.sessions[0].room == id && w.sessions[0].inc == 0
    ensures w.reg == Registry(map[id := Room(0, 0, 3, 1, 1, false)], 1, 1)
  {
    hide Reaches;
    var w0 := Init();
    ReachesSelf(w0);
    Enter(w0, w0, 0, id);
    var w1 := Entered(w0, 0, id);
    Enter(w0, w1, 1, id);
    var w2 := Entered(w1, 1, id);
    assert w2.reg == Registry(map[id := Room(0, 2, 3, 0, 0, false)], 1, 1);
    var w3 := Talk(w0, w2, 1);
    assert w3.reg == Registry(map[id := Room(0, 2, 3, 1, 0, false)], 1, 1);
    var w4 := Talk(w0, w3, 0);
    assert w4.reg == w3.reg;
    var w5 := GoAway(w0, w4, 0);
    assert w5.reg == Registry(map[id := Room(0, 1, 3, 1, 0, false)], 1, 1);
    w := GoAway(w0, w5, 1);
    assert w.reg == Registry(map[id := Room(0, 0, 3, 1, 1, false)], 1, 1);
  }

  /** `sid` gets its acknowledgement and starts to relay at time 1. */
  lemma Talk(u: World, w: World, sid: nat) returns (v: World)
    requires Reaches(u, w) && AtStage(w, sid, Acking) && w.clock == 1
    ensures Reaches(u, v) && v.clock == 1 && v.sweep == w.sweep && v.sessions.Keys == w.sessions.Keys
    ensures var x := w.sessions[sid];
      && v.sessions == w.sessions[sid := x.(stage := Relaying, joinOk := x.joinOk + 1)]
      && v.reg == if x.polite then AfterConnected(w.reg, x.room, 1) else w.reg
  {
    hide Reaches;
    ReachesNext(u, w, AckSent(sid));
    var w1 := Step(w, AckSent(sid));
    ReachesNext(u, w1, StartRelay(sid, 1));
    v := Step(w1, StartRelay(sid, 1));
  }

  /** `sid` stops relaying and leaves at time 1. */
  lemma GoAway(u: World, w: World, sid: nat) returns (v: World)
    requires Reaches(u, w) && AtStage(w, sid, Relaying) && w.clock == 1
    ensures Reaches(u, v) && v.clock == 1 && v.sweep == w.sweep && v.sessions.Keys == w.sessions.Keys
    ensures var x := w.sessions[sid];
      && v.sessions == w.sessions[sid := x.(stage := Departed(ConnectedAt(w.reg, x.room)), leaves := x.leaves + 1)]
      && v.reg == AfterLeave(w.reg, x.room, 1)
  {
    hide Reaches;
    ReachesNext(u, w, Finish(sid));
    var w1 := Step(w, Finish(sid));
    ReachesNext(u, w1, LeaveRoom(sid, 1));
    v := Step(w1, LeaveRoom(sid, 1));
  }

  /** A call has ended; before the first peer reports it, a cleanup evicts the room and a new visitor
      opens it again. The report then ends the call of the new room, which has not begun. */
  lemma LateReportEndsTheNextCall(id: string) returns (w: World)
    ensures Reaches(Init(), w) && Enabled(w, Report(0))
    ensures w.sessions[0].inc == 0 && id in w.reg.rooms && w.reg.rooms[id] == Room(1, 1, 2, 0, 0, false)
    ensures Step(w, Report(0)).callsEnded == w.callsEnded + [1]
    ensures Step(w, Report(0)).reg.rooms[id].ended
  {
    var w1 := CallHasEnded(id);
    hide Reaches;
    assert OverdueKeys(w1.reg, 602) == {id};
    ReachesNext(Init(), w1, Event.Collect(602, [id]));
    var w2 := Step(w1, Event.Collect(602, [id]));
    ReachesNext(Init(), w2, Recheck);
    var w3 := Step(w2, Recheck);
    assert w3.reg.rooms == map[] && w3.reg.nextInc == 1;
    Enter(Init(), w3, 2, id);
    w := Entered(w3, 2, id);
  }
}
