/** When the end of a call is reported, told from the events of a run: somebody polite must have begun
    to relay in the room before the session stopped, and nobody must have reported the room yet. */
module CallEnds {
  import opened Rooms
  import opened Sessions
  import opened SessionProofs
  import opened SessionLaws
  import opened RoomRoles
  import opened CallReports

  /** A polite session begins to relay in incarnation `inc`: now there are two to talk. */
  predicate BeginsCall(w: World, e: Event, inc: nat) {
    e.StartRelay? && e.sid in w.sessions && w.sessions[e.sid].polite && w.sessions[e.sid].inc == inc
  }

  /** Before step `n` a call has begun in incarnation `inc`. */
  ghost predicate CallBegan(run: seq<World>, events: seq<Event>, n: nat, inc: nat)
    requires IsRun(run, events) && n <= |events|
  {
    exists r: nat :: r < n && BeginsCall(run[r], events[r], inc)
  }

  /** The first call in incarnation `inc` began with step `r`. */
  ghost predicate CallBeganAt(run: seq<World>, events: seq<Event>, r: nat, inc: nat)
    requires IsRun(run, events) && r <= |events|
  {
    r < |events| && BeginsCall(run[r], events[r], inc) && !CallBegan(run, events, r, inc)
  }

  // ----- one step

  lemma StartersAreHoused(w: World, e: Event, inc: nat)
    requires Good(w) && Enabled(w, e) && BeginsCall(w, e, inc)
    ensures var room := w.sessions[e.sid].room;
      room in w.reg.rooms && w.reg.rooms[room].inc == inc < w.reg.nextInc && e.now > 0
  {
    assert Occupancy(w) && Housed(w) && Incarnations(w) && w.clock > 0;
    assert InRoom(w.sessions[e.sid]);
    hide Occupancy, SweepFits, Connections, AllAccounted;
  }

  lemma SameIncSameRoom(w: World, a: string, b: string)
    requires Good(w) && a in w.reg.rooms && b in w.reg.rooms && w.reg.rooms[a].inc == w.reg.rooms[b].inc
    ensures a == b
  {
    assert Incarnations(w);
    hide Occupancy, SweepFits, Connections, AllAccounted;
  }

  lemma NewRoomsAreSilent(w: World, e: Event, id: string)
    requires Enabled(w, e) && id !in w.reg.rooms && id in Step(w, e).reg.rooms
    ensures Step(w, e).reg.rooms[id].connectedAt == 0 && Step(w, e).reg.rooms[id].inc == w.reg.nextInc
    ensures !e.StartRelay?
  {}

  lemma OthersKeepDate(w: World, e: Event, id: string)
    requires Enabled(w, e) && !e.StartRelay? && id in w.reg.rooms && id in Step(w, e).reg.rooms
    ensures Step(w, e).reg.rooms[id].connectedAt == w.reg.rooms[id].connectedAt
  {}

  lemma StartDates(w: World, e: Event, id: string)
    requires Enabled(w, e) && e.StartRelay? && id in w.reg.rooms && id in Step(w, e).reg.rooms
    ensures var x := w.sessions[e.sid];
      Step(w, e).reg.rooms[id].connectedAt ==
        if x.polite && x.room == id && w.reg.rooms[id].connectedAt == 0 then e.now else w.reg.rooms[id].connectedAt
  {}

  /** A standing room is dated by the first step that begins a call in it, and by nothing else. */
  lemma StepDates(w: World, e: Event, id: string)
    requires Good(w) && Enabled(w, e) && id in w.reg.rooms && id in Step(w, e).reg.rooms
    ensures BeginsCall(w, e, w.reg.rooms[id].inc) ==> e.now > 0
    ensures Step(w, e).reg.rooms[id].connectedAt ==
      if BeginsCall(w, e, w.reg.rooms[id].inc) && w.reg.rooms[id].connectedAt == 0 then e.now
      else w.reg.rooms[id].connectedAt
  {
    if e.StartRelay? {
      StartDates(w, e, id);
      assert e.sid in w.sessions;
      hide Step, Enabled, Good;
      var x := w.sessions[e.sid];
      if x.polite {
        assert BeginsCall(w, e, x.inc);
        StartersAreHoused(w, e, x.inc);
        if x.inc == w.reg.rooms[id].inc {
          SameIncSameRoom(w, x.room, id);
        }
      }
    } else {
      OthersKeepDate(w, e, id);
    }
  }

  // ----- every run

  lemma {:induction false} BegunCallsAreOld(run: seq<World>, events: seq<Event>, n: nat, inc: nat)
    requires IsRun(run, events) && run[0] == Init() && n <= |events| && CallBegan(run, events, n, inc)
    ensures inc < run[n].reg.nextInc
  {
    var r: nat :| r < n && BeginsCall(run[r], events[r], inc);
    RunsAreGood(run, events, r);
    StartersAreHoused(run[r], events[r], inc);
    NextIncGrows(run, events, r, n);
  }

  lemma BeganOneStepOn(run: seq<World>, events: seq<Event>, n: nat, inc: nat)
    requires IsRun(run, events) && n < |events|
    ensures CallBegan(run, events, n + 1, inc) <==>
              CallBegan(run, events, n, inc) || BeginsCall(run[n], events[n], inc)
  {
    hide BeginsCall;
    if BeginsCall(run[n], events[n], inc) {
      assert CallBegan(run, events, n + 1, inc);
    }
  }

  /** In every run: a room's call is dated if and only if a polite session has begun to relay in this
      very incarnation of the room. */
  lemma {:induction false} DatedExactly(run: seq<World>, events: seq<Event>, n: nat, id: string)
    requires IsRun(run, events) && run[0] == Init() && n <= |events| && id in run[n].reg.rooms
    ensures var room := run[n].reg.rooms[id];
      room.connectedAt >= 0 && (room.connectedAt > 0 <==> CallBegan(run, events, n, room.inc))
  {
    if n > 0 {
      var (w, e, inc) := (run[n - 1], events[n - 1], run[n].reg.rooms[id].inc);
      assert Enabled(w, e) && run[n] == Step(w, e);
      RunsAreGood(run, events, n - 1);
      BeganOneStepOn(run, events, n - 1, inc);
      StepKeepsInc(w, e, id);
      hide Step, Enabled, Good, CallBegan;
      if id in w.reg.rooms {
        DatedExactly(run, events, n - 1, id);
        StepDates(w, e, id);
      } else {
        NewRoomsAreSilent(w, e, id);
        if CallBegan(run, events, n - 1, inc) {
          BegunCallsAreOld(run, events, n - 1, inc);
        }
      }
    }
  }

  /** And it is dated with the time of the first that did. */
  lemma {:induction false} DatedByTheFirst(run: seq<World>, events: seq<Event>, r: nat, n: nat, id: string)
    requires IsRun(run, events) && run[0] == Init() && r < n <= |events| && id in run[n].reg.rooms
    requires CallBeganAt(run, events, r, run[n].reg.rooms[id].inc)
    ensures run[n].reg.rooms[id].connectedAt == events[r].now
  {
    hide Step, Enabled, Good;
    var (w, e, inc) := (run[n - 1], events[n - 1], run[n].reg.rooms[id].inc);
    assert Enabled(w, e) && run[n] == Step(w, e);
    RunsAreGood(run, events, n - 1);
    StepKeepsInc(w, e, id);
    if id in w.reg.rooms {
      StepDates(w, e, id);
      if r < n - 1 {
        DatedByTheFirst(run, events, r, n - 1, id);
        BeganBefore(run, events, r, n - 1, inc);
      }
      hide CallBegan;
      DatedExactly(run, events, n - 1, id);
    } else {
      NewRoomsAreSilent(w, e, id);
      if r < n - 1 {
        BeganBefore(run, events, r, n - 1, inc);
        BegunCallsAreOld(run, events, n - 1, inc);
      }
    }
  }

  lemma BeganBefore(run: seq<World>, events: seq<Event>, r: nat, n: nat, inc: nat)
    requires IsRun(run, events) && r < n <= |events| && BeginsCall(run[r], events[r], inc)
    ensures CallBegan(run, events, n, inc)
  {}

  // ----- a session that has stopped relaying

  /** `x` has stopped relaying, and read date `c` when it did. */
  predicate Stopped(x: Session, c: int) {
    && x.joins == 1
    && match x.stage
       case Finishing(d) => d == c
       case Departed(d) => d == c
       case Exiting => true
       case Gone => true
       case _ => false
  }

  lemma StepKeepsStopped(w: World, e: Event, sid: nat, c: int)
    requires Enabled(w, e) && sid in w.sessions && Stopped(w.sessions[sid], c)
    ensures sid in Step(w, e).sessions && Stopped(Step(w, e).sessions[sid], c)
  {}

  lemma {:induction false} RunKeepsStopped(run: seq<World>, events: seq<Event>, i: nat, n: nat, sid: nat, c: int)
    requires IsRun(run, events) && i <= n < |run| && sid in run[i].sessions && Stopped(run[i].sessions[sid], c)
    ensures sid in run[n].sessions && Stopped(run[n].sessions[sid], c)
  {
    if i < n {
      RunKeepsStopped(run, events, i, n - 1, sid, c);
      StepKeepsStopped(run[n - 1], events[n - 1], sid, c);
      hide Step, Enabled;
    }
  }

  lemma FinishStops(w: World, sid: nat)
    requires Good(w) && Enabled(w, Finish(sid))
    ensures sid in w.sessions
    ensures var (x, v) := (w.sessions[sid], Step(w, Finish(sid)));
      && x.room in w.reg.rooms && w.reg.rooms[x.room].inc == x.inc && x.joins == 1
      && sid in v.sessions && v.sessions[sid].room == x.room && v.sessions[sid].inc == x.inc
      && Stopped(v.sessions[sid], w.reg.rooms[x.room].connectedAt)
  {
    assert Occupancy(w) && Housed(w) && AllAccounted(w) && InRoom(w.sessions[sid]);
    assert Accounted(w.sessions[sid]);
    hide Occupancy, SweepFits, Connections, AllAccounted, Incarnations;
  }

  lemma ReportEnds(w: World, sid: nat)
    requires Good(w) && Enabled(w, Report(sid))
    ensures var (x, v) := (w.sessions[sid], Step(w, Report(sid)));
      |v.callsEnded| > |w.callsEnded| <==>
        x.stage.connectedAt > 0 && x.room in w.reg.rooms && w.reg.rooms[x.room].inc !in w.callsEnded
  {
    assert Incarnations(w);
    hide Occupancy, SweepFits, Connections, AllAccounted;
  }

  /** In every run: a session that stopped at step `f` ends a call by its report at step `n` if and
      only if a polite session had begun to relay in its incarnation of the room before it stopped,
      and the room that then stands under the name has not been reported before. */
  lemma ReportedExactly(run: seq<World>, events: seq<Event>, f: nat, n: nat, sid: nat)
    requires IsRun(run, events) && run[0] == Init() && f < n < |events|
    requires events[f] == Finish(sid) && events[n] == Report(sid)
    ensures sid in run[f].sessions
    ensures var x := run[f].sessions[sid];
      |run[n + 1].callsEnded| > |run[n].callsEnded| <==>
        && CallBegan(run, events, f, x.inc)
        && x.room in run[n].reg.rooms && run[n].reg.rooms[x.room].inc !in run[n].callsEnded
  {
    hide Step, Enabled, Good, CallBegan, Init;
    RunsAreGood(run, events, f);
    RunsAreGood(run, events, n);
    assert Enabled(run[f], events[f]) && Enabled(run[n], events[n]);
    FinishStops(run[f], sid);
    var x := run[f].sessions[sid];
    var c := run[f].reg.rooms[x.room].connectedAt;
    DatedExactly(run, events, f, x.room);
    RunKeepsStopped(run, events, f + 1, n, sid, c);
    RunKeepsHome(run, events, f + 1, n, sid);
    ReportEnds(run[n], sid);
    OnlyDepartedReport(run[n], sid);
  }

  lemma OnlyDepartedReport(w: World, sid: nat)
    requires Enabled(w, Report(sid))
    ensures sid in w.sessions && w.sessions[sid].stage.Departed?
  {}

  // ----- every reported end had a call

  lemma StoppersFinish(w: World, e: Event, sid: nat)
    requires Enabled(w, e) && sid in Step(w, e).sessions
    requires Step(w, e).sessions[sid].stage.Finishing? || Step(w, e).sessions[sid].stage.Departed?
    ensures e != Finish(sid) ==>
      sid in w.sessions && (w.sessions[sid].stage.Finishing? || w.sessions[sid].stage.Departed?)
  {}

  lemma {:induction false} StoppedByFinish(run: seq<World>, events: seq<Event>, n: nat, sid: nat)
    requires IsRun(run, events) && run[0] == Init() && n < |run| && sid in run[n].sessions
    requires run[n].sessions[sid].stage.Finishing? || run[n].sessions[sid].stage.Departed?
    ensures exists f: nat :: f < n && events[f] == Finish(sid)
  {
    if n > 0 {
      StoppersFinish(run[n - 1], events[n - 1], sid);
      hide Step, Enabled;
      if events[n - 1] != Finish(sid) {
        StoppedByFinish(run, events, n - 1, sid);
      }
    }
  }

  lemma OnlyReportsEnd(w: World, e: Event)
    requires Enabled(w, e)
    ensures w.callsEnded <= Step(w, e).callsEnded
    ensures |Step(w, e).callsEnded| > |w.callsEnded| ==> e.Report?
  {}

  /** In every run: the end of a call is reported at no other step than the report of a session that
      had stopped after a call had begun where it was. */
  lemma OnlyCallsAreReported(run: seq<World>, events: seq<Event>, n: nat)
    requires IsRun(run, events) && run[0] == Init() && n < |events|
    requires run[n + 1].callsEnded != run[n].callsEnded
    ensures exists f: nat, sid: nat ::
      && f < n && events[f] == Finish(sid) && events[n] == Report(sid)
      && sid in run[f].sessions && CallBegan(run, events, f, run[f].sessions[sid].inc)
  {
    assert Enabled(run[n], events[n]);
    OnlyReportsEnd(run[n], events[n]);
    var sid := events[n].sid;
    StoppedByFinish(run, events, n, sid);
    var f: nat :| f < n && events[f] == Finish(sid);
    ReportedExactly(run, events, f, n, sid);
    hide Step, Enabled;
  }
}
