/** The room registry: joining, leaving, marking a call as connected or ended, and the deferred
    cleanup of rooms that have stood empty. Each operation is one step. */
module Rooms {

  const MAX_PARTICIPANTS := 2
  const ROOM_GRACE_PERIOD_SECS := 600

  /** One incarnation of a room; `inc` stands for the identity of the shared `Room` object.
      `emptySince` is 0 while somebody is inside. */
  datatype Room = Room(inc: nat, count: int, nextPeerId: int, connectedAt: int, emptySince: int, ended: bool)

  datatype Registry = Registry(rooms: map<string, Room>, roomsActive: int, nextInc: nat)

  datatype Joined = Full | Joined(polite: bool, peerId: int)

  function NewRoom(inc: nat): Room { Room(inc, 0, 1, 0, 0, false) }

  // ----- specification

  function Find(g: Registry, id: string): Room {
    if id in g.rooms then g.rooms[id] else NewRoom(g.nextInc)
  }

  predicate HasSpace(g: Registry, id: string) {
    Find(g, id).count < MAX_PARTICIPANTS
  }

  function JoinResult(g: Registry, id: string): Joined {
    var r := Find(g, id);
    if HasSpace(g, id) then Joined(r.count > 0, r.nextPeerId) else Full
  }

  /** A successful join opens the room if need be and ends its emptiness; a rejected one leaves
      everything as it was. */
  function AfterJoin(g: Registry, id: string): Registry {
    var r := Find(g, id);
    if !HasSpace(g, id) then g
    else
      var r' := r.(count := r.count + 1, nextPeerId := (r.nextPeerId + 1) % 0x1_0000_0000_0000_0000, emptySince := 0);
      if id in g.rooms then g.(rooms := g.rooms[id := r'])
      else Registry(g.rooms[id := r'], g.roomsActive + 1, g.nextInc + 1)
  }

  function AfterLeave(g: Registry, id: string, now: int): Registry {
    if id !in g.rooms then g
    else
      var r := g.rooms[id];
      g.(rooms := g.rooms[id := r.(count := (r.count - 1) % 256,
                                      emptySince := if r.count <= 1 then now else r.emptySince)])
  }

  function AfterConnected(g: Registry, id: string, now: int): Registry {
    if id in g.rooms && g.rooms[id].connectedAt == 0 then
      g.(rooms := g.rooms[id := g.rooms[id].(connectedAt := now)])
    else g
  }

  function ConnectedAt(g: Registry, id: string): int {
    if id in g.rooms then g.rooms[id].connectedAt else 0
  }

  predicate FirstEnd(g: Registry, id: string) {
    id in g.rooms && !g.rooms[id].ended
  }

  function AfterEnd(g: Registry, id: string): Registry {
    if id in g.rooms then g.(rooms := g.rooms[id := g.rooms[id].(ended := true)]) else g
  }

  predicate Overdue(r: Room, now: int) {
    r.emptySince > 0 && now - r.emptySince > ROOM_GRACE_PERIOD_SECS
  }

  function OverdueKeys(g: Registry, now: int): set<string> {
    set id | id in g.rooms && Overdue(g.rooms[id], now)
  }

  /** The second look of the cleanup: only the count is consulted. */
  predicate Evicts(g: Registry, id: string) {
    id in g.rooms && g.rooms[id].count == 0
  }

  function AfterRecheck(g: Registry, id: string): Registry {
    if Evicts(g, id) then g.(rooms := g.rooms - {id}, roomsActive := g.roomsActive - 1) else g
  }

  function AfterRechecks(g: Registry, ids: seq<string>): Registry
    decreases |ids|
  {
    if ids == [] then g else AfterRechecks(AfterRecheck(g, ids[0]), ids[1..])
  }

  predicate Distinct(ids: seq<string>) {
    forall i, j | 0 <= i < j < |ids| :: ids[i] != ids[j]
  }

  /** `order` lists exactly the overdue rooms, each once. */
  ghost predicate Collects(g: Registry, now: int, order: seq<string>) {
    Distinct(order) && forall id :: id in order <==> id in OverdueKeys(g, now)
  }

  // ----- implementation

  class RoomRegistry {
    var inner: map<string, Room>
    var roomsActive: int
    var nextInc: nat

    function View(): Registry
      reads this
    {
      Registry(inner, roomsActive, nextInc)
    }

    /** Counters are 8-bit numbers and the rooms hold at most two. */
    predicate Valid()
      reads this
    {
      forall id | id in inner :: 0 <= inner[id].count <= MAX_PARTICIPANTS
    }

    constructor ()
      ensures Valid() && View() == Registry(map[], 0, 0)
    {
      inner, roomsActive, nextInc := map[], 0, 0;
    }

    method Join(id: string) returns (result: Joined)
      requires Valid()
      modifies this
      ensures Valid() && View() == AfterJoin(old(View()), id) && result == JoinResult(old(View()), id)
    {
      var isNew := id !in inner;
      var room := if isNew then NewRoom(nextInc) else inner[id];
      var prev := room.count;
      room := room.(count := (prev + 1) % 256);
      if prev >= MAX_PARTICIPANTS {
        room := room.(count := (room.count - 1) % 256);
        inner := inner[id := room];
        return Full;
      }
      room := room.(emptySince := 0);
      if isNew {
        roomsActive := roomsActive + 1;
        nextInc := nextInc + 1;
      }
      var peerId := room.nextPeerId;
      room := room.(nextPeerId := (peerId + 1) % 0x1_0000_0000_0000_0000);
      inner := inner[id := room];
      result := Joined(prev > 0, peerId);
    }

    method Leave(id: string, now: int)
      modifies this`inner
      ensures View() == AfterLeave(old(View()), id, now)
    {
      if id in inner {
        var room := inner[id];
        var prev := room.count;
        room := room.(count := (prev - 1) % 256);
        if prev <= 1 {
          room := room.(emptySince := now);
        }
        inner := inner[id := room];
      }
    }

    method MarkConnected(id: string, now: int)
      modifies this`inner
      ensures View() == AfterConnected(old(View()), id, now)
    {
      if id in inner {
        var room := inner[id];
        if room.connectedAt == 0 {
          inner := inner[id := room.(connectedAt := now)];
        }
      }
    }

    method TryMarkEnded(id: string) returns (first: bool)
      modifies this`inner
      ensures View() == AfterEnd(old(View()), id) && first == FirstEnd(old(View()), id)
    {
      first := false;
      if id in inner {
        var room := inner[id];
        first := !room.ended;
        inner := inner[id := room.(ended := true)];
      }
    }

    /** The first loop of the cleanup. */
    method Collect(now: int) returns (toRemove: seq<string>)
      ensures Collects(View(), now, toRemove)
    {
      toRemove := [];
      var todo := inner.Keys;
      while todo != {}
        invariant todo <= inner.Keys && Distinct(toRemove)
        invariant forall id :: id in toRemove <==> id in inner && id !in todo && Overdue(inner[id], now)
        decreases todo
      {
        var id :| id in todo;
        if inner[id].emptySince > 0 && now - inner[id].emptySince > ROOM_GRACE_PERIOD_SECS {
          toRemove := toRemove + [id];
        }
        todo := todo - {id};
      }
    }

    /** The second loop of the cleanup. */
    method RemoveStillEmpty(toRemove: seq<string>)
      modifies this
      ensures View() == AfterRechecks(old(View()), toRemove)
    {
      var i := 0;
      while i < |toRemove|
        invariant 0 <= i <= |toRemove|
        invariant AfterRechecks(View(), toRemove[i..]) == AfterRechecks(old(View()), toRemove)
      {
        var id := toRemove[i];
        ghost var before := View();
        if id in inner && inner[id].count == 0 {
          inner := inner - {id};
          roomsActive := roomsActive - 1;
        }
        assert View() == AfterRecheck(before, id);
        assert toRemove[i..][1..] == toRemove[i + 1..];
        i := i + 1;
      }
    }

    /** A cleanup that nobody interrupts evicts exactly the overdue rooms. */
    method CleanupExpired(now: int)
      requires Valid()
      requires forall id | id in inner :: inner[id].count == 0 <==> inner[id].emptySince > 0
      modifies this
      ensures View() == Swept(old(View()), now)
    {
      var toRemove := Collect(now);
      RechecksSweep(View(), now, toRemove);
      RemoveStillEmpty(toRemove);
    }
  }

  // ----- what an uninterrupted cleanup does

  function Swept(g: Registry, now: int): Registry {
    var gone := OverdueKeys(g, now);
    g.(rooms := g.rooms - gone, roomsActive := g.roomsActive - |gone|)
  }

  lemma {:induction false} RechecksRemove(g: Registry, ids: seq<string>)
    requires Distinct(ids) && forall id | id in ids :: Evicts(g, id)
    ensures AfterRechecks(g, ids) == g.(rooms := g.rooms - (set id | id in ids), roomsActive := g.roomsActive - |ids|)
    decreases |ids|
  {
    if ids == [] {
      assert g.rooms - {} == g.rooms;
    } else {
      var rest := ids[1..];
      assert ids[0] in ids;
      var g' := AfterRecheck(g, ids[0]);
      forall id | id in rest ensures Evicts(g', id) {
        var k :| 0 <= k < |rest| && rest[k] == id;
        assert ids[k + 1] == id && ids[0] != id;
        assert id in ids && Evicts(g, id) && g'.rooms[id] == g.rooms[id];
      }
      RechecksRemove(g', rest);
      assert (set id | id in ids) == {ids[0]} + set id | id in rest;
      assert g'.rooms - (set id | id in rest) == g.rooms - set id | id in ids;
    }
  }

  lemma {:induction false} DistinctCount(ids: seq<string>)
    requires Distinct(ids)
    ensures |set id | id in ids| == |ids|
  {
    if ids != [] {
      var rest := ids[1..];
      DistinctCount(rest);
      assert ids[0] !in rest;
      assert (set id | id in ids) == {ids[0]} + set id | id in rest;
    }
  }

  lemma RechecksSweep(g: Registry, now: int, order: seq<string>)
    requires Collects(g, now, order)
    requires forall id | id in g.rooms :: g.rooms[id].count == 0 <==> g.rooms[id].emptySince > 0
    ensures AfterRechecks(g, order) == Swept(g, now)
  {
    RechecksRemove(g, order);
    DistinctCount(order);
    assert (set id | id in order) == OverdueKeys(g, now);
  }
}
