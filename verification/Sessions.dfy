/** The life of every WebSocket session of `handle_call_ws`, interleaved with all the others and
    with the cleanup task. Each step is one operation on the shared registry or one event of one
    session; validation, rate limiting and the network decide which way a session goes. */
module Sessions {
  import opened Rooms

  /** Where a session stands. */
  datatype Stage =
    | Connected              // validation and rate limit still to come
    | Waiting                // for the join message
    | Acking                 // inside the room, `Joined` being sent
    | Subscribed             // `Joined` sent; a polite peer marks the call connected next
    | Relaying               // process_messages
    | Finishing(connectedAt: int)  // connected_at read, leave next
    | Departed(connectedAt: int)   // out of the room, try_mark_ended next
    | Exiting                // only the disconnect guard is left
    | Gone

  datatype Session = Session(
    room: string, inc: nat, stage: Stage, polite: bool,
    joinOk: nat, joinErr: nat, joins: nat, leaves: nat)

  /** A cleanup between its two loops. `touched` records the rooms joined since it collected. */
  datatype Sweep = Idle | Sweeping(now: int, pending: seq<string>, touched: set<string>)

  datatype World = World(
    reg: Registry, sessions: map<nat, Session>, connects: nat, disconnects: nat,
    callsEnded: seq<nat>,    // the incarnations that on_call_ended was fired for
    clock: int, sweep: Sweep)

  datatype Event =
    | Connect(sid: nat, room: string)
    | Refuse(sid: nat)               // invalid room id, or over the rate limit
    | Accept(sid: nat)
    | GiveUp(sid: nat)               // no join message in time
    | JoinRoom(sid: nat)
    | AckFails(sid: nat, now: int)   // leaves at once
    | AckSent(sid: nat)
    | StartRelay(sid: nat, now: int)
    | Finish(sid: nat)
    | LeaveRoom(sid: nat, now: int)
    | Report(sid: nat)
    | Disconnect(sid: nat)
    | Collect(now: int, order: seq<string>)
    | Recheck
    | EndSweep

  function Init(): World {
    World(Registry(map[], 0, 0), map[], 0, 0, [], 1, Idle)
  }

  predicate AtStage(w: World, sid: nat, stage: Stage) {
    sid in w.sessions && w.sessions[sid].stage == stage
  }

  ghost predicate Enabled(w: World, e: Event) {
    match e
    case Connect(sid, _) => sid !in w.sessions
    case Refuse(sid) => AtStage(w, sid, Connected)
    case Accept(sid) => AtStage(w, sid, Connected)
    case GiveUp(sid) => AtStage(w, sid, Waiting)
    case JoinRoom(sid) => AtStage(w, sid, Waiting)
    case AckFails(sid, now) => AtStage(w, sid, Acking) && now >= w.clock
    case AckSent(sid) => AtStage(w, sid, Acking)
    case StartRelay(sid, now) => AtStage(w, sid, Subscribed) && now >= w.clock
    case Finish(sid) => AtStage(w, sid, Relaying)
    case LeaveRoom(sid, now) => sid in w.sessions && w.sessions[sid].stage.Finishing? && now >= w.clock
    case Report(sid) => sid in w.sessions && w.sessions[sid].stage.Departed?
    case Disconnect(sid) => AtStage(w, sid, Exiting)
    case Collect(now, order) => w.sweep == Idle && now >= w.clock && Collects(w.reg, now, order)
    case Recheck => w.sweep.Sweeping? && w.sweep.pending != []
    case EndSweep => w.sweep.Sweeping? && w.sweep.pending == []
  }

  function Moved(w: World, sid: nat, x: Session): World {
    w.(sessions := w.sessions[sid := x])
  }

  function Step(w: World, e: Event): World
    requires Enabled(w, e)
  {
    match e
    case Connect(sid, room) =>
      Moved(w, sid, Session(room, 0, Connected, false, 0, 0, 0, 0)).(connects := w.connects + 1)
    case Refuse(sid) => Moved(w, sid, w.sessions[sid].(stage := Exiting))
    case Accept(sid) => Moved(w, sid, w.sessions[sid].(stage := Waiting))
    case GiveUp(sid) =>
      var x := w.sessions[sid];
      Moved(w, sid, x.(stage := Exiting, joinErr := x.joinErr + 1))
    case JoinRoom(sid) => DoJoin(w, sid)
    case AckFails(sid, now) =>
      var x := w.sessions[sid];
      Moved(w, sid, x.(stage := Exiting, joinErr := x.joinErr + 1, leaves := x.leaves + 1))
        .(reg := AfterLeave(w.reg, x.room, now), clock := now)
    case AckSent(sid) =>
      var x := w.sessions[sid];
      Moved(w, sid, x.(stage := Subscribed, joinOk := x.joinOk + 1))
    case StartRelay(sid, now) =>
      var x := w.sessions[sid];
      Moved(w, sid, x.(stage := Relaying))
        .(reg := if x.polite then AfterConnected(w.reg, x.room, now) else w.reg, clock := now)
    case Finish(sid) =>
      var x := w.sessions[sid];
      Moved(w, sid, x.(stage := Finishing(ConnectedAt(w.reg, x.room))))
    case LeaveRoom(sid, now) =>
      var x := w.sessions[sid];
      Moved(w, sid, x.(stage := Departed(x.stage.connectedAt), leaves := x.leaves + 1))
        .(reg := AfterLeave(w.reg, x.room, now), clock := now)
    case Report(sid) => DoReport(w, sid)
    case Disconnect(sid) => Moved(w, sid, w.sessions[sid].(stage := Gone)).(disconnects := w.disconnects + 1)
    case Collect(now, order) => w.(sweep := Sweeping(now, order, {}), clock := now)
    case Recheck =>
      w.(reg := AfterRecheck(w.reg, w.sweep.pending[0]), sweep := w.sweep.(pending := w.sweep.pending[1..]))
    case EndSweep => w.(sweep := Idle)
  }

  function DoJoin(w: World, sid: nat): World
    requires sid in w.sessions
  {
    var x := w.sessions[sid];
    match JoinResult(w.reg, x.room)
    case Full => Moved(w, sid, x.(stage := Exiting, joinErr := x.joinErr + 1))
    case Joined(polite, _) =>
      Moved(w, sid, x.(stage := Acking, polite := polite, joins := x.joins + 1, inc := Find(w.reg, x.room).inc))
        .(reg := AfterJoin(w.reg, x.room),
          sweep := if w.sweep.Idle? then Idle else w.sweep.(touched := w.sweep.touched + {x.room}))
  }

  /** `connected_at > 0 && try_mark_ended(..)`; the room is looked up by name. */
  function DoReport(w: World, sid: nat): World
    requires sid in w.sessions && w.sessions[sid].stage.Departed?
  {
    var x := w.sessions[sid];
    var v := Moved(w, sid, x.(stage := Exiting));
    if x.stage.connectedAt > 0 then
      v.(reg := AfterEnd(w.reg, x.room),
         callsEnded := if FirstEnd(w.reg, x.room) then w.callsEnded + [w.reg.rooms[x.room].inc] else w.callsEnded)
    else v
  }

  ghost predicate IsRun(run: seq<World>, events: seq<Event>) {
    && |run| == |events| + 1
    && forall i | 0 <= i < |events| ::
         Enabled(run[i], events[i]) && run[i + 1] == Step(run[i], events[i])
  }

  // ----- what every reachable state satisfies

  predicate InRoom(x: Session) {
    x.stage.Acking? || x.stage.Subscribed? || x.stage.Relaying? || x.stage.Finishing?
  }

  /** The sessions inside room `id`. */
  function Occupants(w: World, id: string): set<nat> {
    set sid | sid in w.sessions && InRoom(w.sessions[sid]) && w.sessions[sid].room == id
  }

  function Live(w: World): set<nat> {
    set sid | sid in w.sessions && w.sessions[sid].stage != Gone
  }

  /** What one session has reported and done so far. */
  predicate Accounted(x: Session) {
    && x.joinOk + x.joinErr <= 1 && x.joins <= 1
    && x.leaves == (if InRoom(x) then 0 else x.joins)
    && (InRoom(x) ==> x.joins == 1)
    && (x.stage.Connected? || x.stage.Waiting? ==> x.joins == 0 && x.joinOk == 0 && x.joinErr == 0)
    && (x.stage.Acking? ==> x.joinOk == 0 && x.joinErr == 0)
  }

  ghost predicate RoomFits(w: World, id: string)
    requires id in w.reg.rooms
  {
    var r := w.reg.rooms[id];
    && r.count == |Occupants(w, id)| <= MAX_PARTICIPANTS
    && r.emptySince >= 0 && (r.emptySince == 0 <==> r.count > 0) && r.emptySince <= w.clock
    && (forall a, b | a in Occupants(w, id) && b in Occupants(w, id) ::
         !w.sessions[a].polite && !w.sessions[b].polite ==> a == b)
  }

  /** Everybody inside has a room to be in, and it is the room they joined. */
  ghost predicate Housed(w: World) {
    forall sid | sid in w.sessions && InRoom(w.sessions[sid]) ::
      w.sessions[sid].room in w.reg.rooms && w.reg.rooms[w.sessions[sid].room].inc == w.sessions[sid].inc
  }

  ghost predicate Incarnations(w: World) {
    && (forall id | id in w.reg.rooms :: w.reg.rooms[id].inc < w.reg.nextInc)
    && (forall a, b | a in w.reg.rooms && b in w.reg.rooms && w.reg.rooms[a].inc == w.reg.rooms[b].inc :: a == b)
    && (forall i | 0 <= i < |w.callsEnded| :: w.callsEnded[i] < w.reg.nextInc)
    && (forall id | id in w.reg.rooms :: w.reg.rooms[id].ended <==> w.reg.rooms[id].inc in w.callsEnded)
    && (forall i, j | 0 <= i < j < |w.callsEnded| :: w.callsEnded[i] != w.callsEnded[j])
  }

  /** The rooms a cleanup still has to look at again. */
  ghost predicate SweepFits(w: World) {
    w.sweep.Sweeping? ==>
      && Distinct(w.sweep.pending) && 0 < w.sweep.now <= w.clock
      && forall id | id in w.sweep.pending ::
           if id in w.sweep.touched then
             id in w.reg.rooms && w.reg.rooms[id].count == 0 ==> w.reg.rooms[id].emptySince >= w.sweep.now
           else
             id in w.reg.rooms && w.reg.rooms[id].count == 0 && Overdue(w.reg.rooms[id], w.sweep.now)
  }
}
