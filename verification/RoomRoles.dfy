/** Who is polite in a room: the one that came second; and, once the first has left, both. */
module RoomRoles {
  import opened Rooms
  import opened Sessions
  import opened SessionProofs
  import opened SessionLaws

  /** Of `a` and `b`, both inside the same room, `b` is the one that came to find the other. */
  ghost predicate Follows(w: World, a: nat, b: nat) {
    && a in w.sessions && w.sessions[a].joins == 1
    && (b in w.sessions && InRoom(w.sessions[a]) && InRoom(w.sessions[b]) && w.sessions[a].room == w.sessions[b].room
        ==> w.sessions[b].polite)
  }

  lemma JoinerFollows(w: World, a: nat, b: nat)
    requires Occupancy(w) && AtStage(w, b, Waiting) && a in w.sessions && a != b && InRoom(w.sessions[a])
    requires w.sessions[a].room == w.sessions[b].room && HasSpace(w.reg, w.sessions[b].room)
    ensures DoJoin(w, b).sessions[b].polite
  {
    var id := w.sessions[b].room;
    assert id in w.reg.rooms && RoomFits(w, id);
    assert a in Occupants(w, id);
  }

  lemma StepKeepsFollows(w: World, e: Event, a: nat, b: nat)
    requires Good(w) && Enabled(w, e) && Follows(w, a, b) && a != b
    ensures Follows(Step(w, e), a, b)
  {
    var v := Step(w, e);
    assert Accounted(w.sessions[a]);
    StepKeepsGood(w, e);
    assert AllAccounted(v) && (a in v.sessions ==> Accounted(v.sessions[a]));
    hide Occupancy, Incarnations, SweepFits, Connections, Good;
    if e == JoinRoom(b) {
      JoinsStay(w, b, a);
      if InRoom(w.sessions[a]) && w.sessions[a].room == w.sessions[b].room && HasSpace(w.reg, w.sessions[b].room) {
        assert Occupancy(w) by {
          GoodHolds(w);
        }
        JoinerFollows(w, a, b);
      }
    } else {
      OthersKeepRoles(w, e, a, b);
    }
  }

  lemma GoodHolds(w: World)
    requires Good(w)
    ensures Occupancy(w) && AllAccounted(w)
  {}

  lemma JoinsStay(w: World, b: nat, a: nat)
    requires AtStage(w, b, Waiting) && a in w.sessions && a != b
    ensures a in DoJoin(w, b).sessions && DoJoin(w, b).sessions[a] == w.sessions[a]
    ensures b in DoJoin(w, b).sessions && DoJoin(w, b).sessions[b].room == w.sessions[b].room
    ensures !HasSpace(w.reg, w.sessions[b].room) ==> !InRoom(DoJoin(w, b).sessions[b])
  {}

  /** Nothing but joining makes anybody polite or takes anybody into a room. */
  lemma OthersKeepRoles(w: World, e: Event, a: nat, b: nat)
    requires Enabled(w, e) && AllAccounted(w) && e != JoinRoom(b) && a in w.sessions && w.sessions[a].joins == 1
    ensures var v := Step(w, e);
      && a in v.sessions && v.sessions[a].joins == 1 && v.sessions[a].room == w.sessions[a].room
      && (InRoom(v.sessions[a]) ==> InRoom(w.sessions[a]))
      && (b in v.sessions && InRoom(v.sessions[b]) ==>
            b in w.sessions && InRoom(w.sessions[b]) && v.sessions[b].polite == w.sessions[b].polite
            && v.sessions[b].room == w.sessions[b].room)
  {
    assert Accounted(w.sessions[a]);
  }

  lemma {:induction false} RunKeepsFollows(run: seq<World>, events: seq<Event>, i: nat, n: nat, a: nat, b: nat)
    requires IsRun(run, events) && run[0] == Init() && i <= n < |run| && Follows(run[i], a, b) && a != b
    ensures Follows(run[n], a, b)
  {
    if i < n {
      RunKeepsFollows(run, events, i, n - 1, a, b);
      RunsAreGood(run, events, n - 1);
      hide Good, Follows;
      StepKeepsFollows(run[n - 1], events[n - 1], a, b);
    }
  }

  /** `a` was in room `id` before `b` was. */
  ghost predicate CameFirst(run: seq<World>, i: nat, n: nat, id: string, a: nat, b: nat) {
    && i <= n < |run|
    && a in Occupants(run[i], id) && b !in Occupants(run[i], id)
    && a in Occupants(run[n], id) && b in Occupants(run[n], id)
  }

  /** In every run: of two sessions in one room, the one that came second is polite. */
  lemma SecondIsPolite(run: seq<World>, events: seq<Event>, i: nat, n: nat, id: string, a: nat, b: nat)
    requires IsRun(run, events) && run[0] == Init() && CameFirst(run, i, n, id, a, b)
    ensures run[n].sessions[b].polite
  {
    RunsAreGood(run, events, i);
    assert Accounted(run[i].sessions[a]);
    hide Good, Accounted;
    RunKeepsFollows(run, events, i, n, a, b);
  }

  /** And of any two sessions in one room one came first. */
  lemma {:induction false} OneCameFirst(run: seq<World>, events: seq<Event>, n: nat, id: string, a: nat, b: nat)
    requires IsRun(run, events) && run[0] == Init() && n < |run|
    requires a in Occupants(run[n], id) && b in Occupants(run[n], id) && a != b
    ensures exists i :: CameFirst(run, i, n, id, a, b) || CameFirst(run, i, n, id, b, a)
  {
    if n > 0 {
      var w := run[n - 1];
      OnlyMoverChanges(w, events[n - 1]);
      hide Step, Enabled;
      if a in Occupants(w, id) && b in Occupants(w, id) {
        OneCameFirst(run, events, n - 1, id, a, b);
        var i :| CameFirst(run, i, n - 1, id, a, b) || CameFirst(run, i, n - 1, id, b, a);
        assert CameFirst(run, i, n, id, a, b) || CameFirst(run, i, n, id, b, a);
      } else {
        assert CameFirst(run, n - 1, n, id, a, b) || CameFirst(run, n - 1, n, id, b, a);
      }
    }
  }

  // ----- who is impolite

  /** At step `j` the room lets session `a` in. */
  ghost predicate LetIn(run: seq<World>, events: seq<Event>, j: nat, id: string, a: nat) {
    && IsRun(run, events) && j < |events| && events[j] == JoinRoom(a)
    && a in run[j].sessions && run[j].sessions[a].room == id && HasSpace(run[j].reg, id)
  }

  lemma JoiningGivesRole(w: World, a: nat)
    requires Occupancy(w) && AllAccounted(w) && AtStage(w, a, Waiting) && HasSpace(w.reg, w.sessions[a].room)
    ensures var v := DoJoin(w, a);
      && a in v.sessions && v.sessions[a].joins == 1
      && (v.sessions[a].polite <==> Occupants(w, w.sessions[a].room) != {})
  {
    assert Accounted(w.sessions[a]);
    var id := w.sessions[a].room;
    if id in w.reg.rooms {
      assert RoomFits(w, id);
      assert |Occupants(w, id)| == 0 <==> Occupants(w, id) == {};
    } else {
      NoRoomNoOccupants(w, id);
    }
    hide Occupants, RoomFits;
  }

  /** A role is for life. */
  lemma StepKeepsRole(w: World, e: Event, a: nat)
    requires Enabled(w, e) && AllAccounted(w) && a in w.sessions && w.sessions[a].joins == 1
    ensures var v := Step(w, e);
      a in v.sessions && v.sessions[a].joins == 1 && v.sessions[a].polite == w.sessions[a].polite
  {
    assert Accounted(w.sessions[a]);
  }

  lemma LetInIsRun(run: seq<World>, events: seq<Event>, j: nat, id: string, a: nat)
    requires LetIn(run, events, j, id, a)
    ensures IsRun(run, events) && j < |events|
  {}

  lemma LetInGivesRole(run: seq<World>, events: seq<Event>, j: nat, id: string, a: nat)
    requires LetIn(run, events, j, id, a) && run[0] == Init()
    ensures a in run[j + 1].sessions && run[j + 1].sessions[a].joins == 1
    ensures run[j + 1].sessions[a].polite <==> Occupants(run[j], id) != {}
  {
    assert AtStage(run[j], a, Waiting) && run[j + 1] == DoJoin(run[j], a);
    hide Step, Enabled, DoJoin, Occupants;
    RunsAreGood(run, events, j);
    GoodHolds(run[j]);
    hide Good, Occupancy, AllAccounted;
    JoiningGivesRole(run[j], a);
  }

  /** In every run: whoever a room lets in is impolite if and only if it finds nobody there, and stays
      so from then on. */
  lemma {:induction false} RoleIsFixedOnJoining(
    run: seq<World>, events: seq<Event>, j: nat, n: nat, id: string, a: nat)
    requires LetIn(run, events, j, id, a) && run[0] == Init() && j < n < |run|
    ensures a in run[n].sessions && run[n].sessions[a].joins == 1
    ensures run[n].sessions[a].polite <==> Occupants(run[j], id) != {}
  {
    LetInIsRun(run, events, j, id, a);
    hide Step, Enabled, Occupants, Good, LetIn;
    if n == j + 1 {
      LetInGivesRole(run, events, j, id, a);
    } else {
      RoleIsFixedOnJoining(run, events, j, n - 1, id, a);
      RunsAreGood(run, events, n - 1);
      GoodHolds(run[n - 1]);
      StepKeepsRole(run[n - 1], events[n - 1], a);
    }
  }

  /** Nothing but joining takes anybody into a room. */
  lemma OnlyJoiningEnters(w: World, e: Event, id: string, a: nat)
    requires Enabled(w, e) && a in Occupants(Step(w, e), id) && a !in Occupants(w, id)
    ensures e == JoinRoom(a) && a in w.sessions && w.sessions[a].room == id && HasSpace(w.reg, id)
  {}

  /** Everybody in a room has been let in. */
  lemma {:induction false} OccupantsWereLetIn(run: seq<World>, events: seq<Event>, n: nat, id: string, a: nat)
    requires IsRun(run, events) && run[0] == Init() && n < |run| && a in Occupants(run[n], id)
    ensures exists j :: 0 <= j < n && LetIn(run, events, j, id, a)
  {
    if n > 0 {
      if a in Occupants(run[n - 1], id) {
        hide Occupants;
        OccupantsWereLetIn(run, events, n - 1, id, a);
      } else {
        OnlyJoiningEnters(run[n - 1], events[n - 1], id, a);
        assert LetIn(run, events, n - 1, id, a);
      }
    }
  }

  /** The first of two to be in a room was let in before the second was there. */
  ghost predicate FirstLetIn(
    run: seq<World>, events: seq<Event>, j: nat, i: nat, n: nat, id: string, a: nat, b: nat)
  {
    CameFirst(run, i, n, id, a, b) && LetIn(run, events, j, id, a) && j < i
  }

  /** Of two sessions in one room exactly one is impolite if and only if the one that came first had
      found the room empty; else both are polite. */
  lemma OneImpoliteExactly(run: seq<World>, events: seq<Event>, j: nat, i: nat, n: nat, id: string, a: nat, b: nat)
    requires FirstLetIn(run, events, j, i, n, id, a, b) && run[0] == Init()
    ensures run[n].sessions[b].polite
    ensures run[n].sessions[a].polite <==> Occupants(run[j], id) != {}
  {
    RoleIsFixedOnJoining(run, events, j, n, id, a);
    SecondIsPolite(run, events, i, n, id, a, b);
  }

  /** And any two sessions in one room came so, in one order or the other. */
  lemma TwoWereLetIn(run: seq<World>, events: seq<Event>, n: nat, id: string, a: nat, b: nat)
    requires IsRun(run, events) && run[0] == Init() && n < |run|
    requires a in Occupants(run[n], id) && b in Occupants(run[n], id) && a != b
    ensures exists j: nat, i: nat ::
              FirstLetIn(run, events, j, i, n, id, a, b) || FirstLetIn(run, events, j, i, n, id, b, a)
  {
    OneCameFirst(run, events, n, id, a, b);
    hide Occupants, IsRun;
    var i: nat :| CameFirst(run, i, n, id, a, b) || CameFirst(run, i, n, id, b, a);
    if CameFirst(run, i, n, id, a, b) {
      OccupantsWereLetIn(run, events, i, id, a);
      var j: nat :| j < i && LetIn(run, events, j, id, a);
      assert FirstLetIn(run, events, j, i, n, id, a, b);
    } else {
      OccupantsWereLetIn(run, events, i, id, b);
      var j: nat :| j < i && LetIn(run, events, j, id, b);
      assert FirstLetIn(run, events, j, i, n, id, b, a);
    }
  }

  // ----- two polite peers

  /** `w` after `sid` has connected and joined room `id`. */
  function Entered(w: World, sid: nat, id: string): World {
    var r := Find(w.reg, id);
    w.(reg := AfterJoin(w.reg, id),
       sessions := w.sessions[sid := Session(id, r.inc, Acking, r.count > 0, 0, 0, 1, 0)],
       connects := w.connects + 1,
       sweep := if w.sweep.Idle? then Idle else w.sweep.(touched := w.sweep.touched + {id}))
  }

  lemma Enter(u: World, w: World, sid: nat, id: string)
    requires Reaches(u, w) && sid !in w.sessions && HasSpace(w.reg, id)
    ensures Reaches(u, Entered(w, sid, id))
  {
    var w1 := Step(w, Connect(sid, id));
    ReachesNext(u, w, Connect(sid, id));
    var w2 := Step(w1, Accept(sid));
    ReachesNext(u, w1, Accept(sid));
    ReachesNext(u, w2, JoinRoom(sid));
    assert Step(w2, JoinRoom(sid)).sessions == Entered(w, sid, id).sessions;
    assert Step(w2, JoinRoom(sid)) == Entered(w, sid, id);
  }

  /** Two visitors come, the first goes, a third comes: both that are left are polite. */
  lemma TwoPolitePeers(id: string) returns (w: World)
    ensures Reaches(Init(), w) && id in w.reg.rooms
    ensures 1 in Occupants(w, id) && 2 in Occupants(w, id)
    ensures w.sessions[1].polite && w.sessions[2].polite
  {
    hide Reaches;
    var w0 := Init();
    ReachesSelf(w0);
    Enter(w0, w0, 0, id);
    var w1 := Entered(w0, 0, id);
    assert w1.reg.rooms[id] == Room(0, 1, 2, 0, 0, false);
    Enter(w0, w1, 1, id);
    var w2 := Entered(w1, 1, id);
    assert w2.reg.rooms[id] == Room(0, 2, 3, 0, 0, false);
    ReachesNext(w0, w2, AckFails(0, 1));
    var w3 := Step(w2, AckFails(0, 1));
    assert w3.reg.rooms[id] == Room(0, 1, 3, 0, 0, false);
    Enter(w0, w3, 2, id);
    w := Entered(w3, 2, id);
  }
}
