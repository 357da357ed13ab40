/** The registry of live rooms (Api/Services/RoomManager.cs): a dictionary
    from room code to room, with create-if-absent, lookup, a periodic sweep
    that retires rooms left empty too long, and disposal of everything. */
module RoomManagement {
  import opened Wrappers
  import opened Rooms

  /** How long an empty room is kept: thirty minutes, in seconds. */
  const EmptyRoomLifetime: int := 30 * 60

  /** The `CreateRoom` union. */
  datatype CreateRoom = RoomCreated(room: Room) | RoomExists

  /** A room whose empty-since mark is earlier than `now - EmptyRoomLifetime`
      has expired. */
  predicate Expired(emptySince: Option<int>, now: int)
  {
    emptySince.Some? && emptySince.value < now - EmptyRoomLifetime
  }

  /** The empty-since mark a room keeps after the sweep: an unobserved room
      without a mark is marked at `now`; no mark is ever cleared or moved. */
  function Marked(emptySince: Option<int>, observed: bool, now: int): (r: Option<int>)
    ensures emptySince.Some? ==> r == emptySince
    ensures r.None? <==> emptySince.None? && observed
    ensures r != emptySince ==> r == Some(now)
  {
    if !observed && emptySince.None? then Some(now) else emptySince
  }

  /** Marking is idempotent: a second sweep at any later time leaves a
      mark the first sweep set where it is. */
  lemma MarkedTwice(emptySince: Option<int>, observed: bool, now: int, later: int)
    ensures Marked(Marked(emptySince, observed, now), observed, later) == Marked(emptySince, observed, now)
  {
  }

  class RoomManager {
    var rooms: map<string, Room>

    /** Every registered room is filed under its own code. */
    ghost predicate Filed()
      reads this
    {
      forall c :: c in rooms ==> rooms[c].id == c
    }

    /** Every registered room is filed under its own code and keeps the
        rules of a room. */
    ghost predicate Valid()
      reads this, rooms.Values
    {
      Filed() && forall c :: c in rooms ==> rooms[c].Valid()
    }

    constructor ()
      ensures Valid() && rooms == map[]
    {
      rooms := map[];
    }

    /** `CreateRoom(name, code)`: a taken code is refused and nothing
        changes; otherwise a new room is filed under the code. */
    method CreateRoom(name: string, code: string) returns (r: CreateRoom)
      requires Valid()
      modifies this`rooms
      ensures Valid()
      ensures code in old(rooms) ==> r == RoomExists && rooms == old(rooms)
      ensures code !in old(rooms) ==>
        && r.RoomCreated? && fresh(r.room)
        && rooms == old(rooms)[code := r.room]
        && GetRoom(code) == Some(r.room)
        && r.room.id == code && r.room.name == name
        && r.room.Valid()
        && r.room.players == [] && r.room.votes == [] && r.room.tickets == []
        && r.room.currentTicketIndex == 0 && r.room.owner == None && r.room.originalOwner == None
        && r.room.disconnectedPlayers == map[] && !r.room.isDisposed && r.room.emptySince == None
        && !r.room.revealed && r.room.channel == []
    {
      if code in rooms {
        return RoomExists;
      }
      var room := new Room(name, code);
      rooms := rooms[code := room];
      r := RoomCreated(room);
    }

    /** `GetRoom(code)`: the room filed under the code, if any. */
    function GetRoom(code: string): (r: Option<Room>)
      reads this, rooms.Values
      ensures r.None? <==> code !in rooms
      ensures r.Some? ==> r.value in rooms.Values
      ensures Valid() && r.Some? ==> r.value.id == code && r.value.Valid()
    {
      if code in rooms then Some(rooms[code]) else None
    }

    /** `RoomCleanup` at time `now`, where `observed` holds the codes of the
        rooms whose channel has subscribers. Every expired room is taken out
        of the registry and disposed; every other room stays, and an
        unobserved one without a mark is marked empty since `now`. */
    method RoomCleanup(now: int, observed: set<string>)
      requires Valid()
      modifies this`rooms, rooms.Values`emptySince, rooms.Values`isDisposed
      ensures Valid()
      ensures rooms == map c | c in old(rooms) && !Expired(old(rooms[c].emptySince), now) :: old(rooms)[c]
      ensures forall c :: c in old(rooms) && Expired(old(rooms[c].emptySince), now) ==>
        old(rooms)[c].isDisposed && old(rooms)[c].emptySince == old(rooms[c].emptySince)
      ensures forall c :: c in rooms ==>
        && rooms[c].emptySince == Marked(old(rooms[c].emptySince), c in observed, now)
        && rooms[c].isDisposed == old(rooms[c].isDisposed)
    {
      SweepRooms(now, observed);
      // A kept room changed only its empty-since mark, which its rules do
      // not read.
      forall c | c in rooms
        ensures rooms[c].Valid()
      {
        assert old(rooms[c].Valid());
      }
    }

    /** The loop of `RoomCleanup`: one `SweepRoom` per registered code, in
        any order. */
    method SweepRooms(now: int, observed: set<string>)
      requires Filed()
      modifies this`rooms, rooms.Values`emptySince, rooms.Values`isDisposed
      ensures Filed()
      ensures rooms == map c | c in old(rooms) && !Expired(old(rooms[c].emptySince), now) :: old(rooms)[c]
      ensures forall c :: c in old(rooms) && Expired(old(rooms[c].emptySince), now) ==>
        old(rooms)[c].isDisposed && old(rooms)[c].emptySince == old(rooms[c].emptySince)
      ensures forall c :: c in rooms ==>
        && rooms[c].emptySince == Marked(old(rooms[c].emptySince), c in observed, now)
        && rooms[c].isDisposed == old(rooms[c].isDisposed)
    {
      ghost var rooms0 := rooms;
      var pending := rooms.Keys;
      ghost var done: set<string> := {};
      while pending != {}
        invariant done + pending == rooms0.Keys && done !! pending
        invariant pending <= rooms.Keys
        invariant forall c :: c in rooms0 ==> rooms0[c].id == c
        invariant forall c :: c in rooms ==> c in rooms0 && rooms[c] == rooms0[c]
        invariant forall c :: c in rooms0 && c in done ==> (c in rooms <==> !Expired(old(rooms0[c].emptySince), now))
        invariant Filed()
        invariant forall c :: c in rooms0 && c in pending ==>
          rooms0[c].emptySince == old(rooms0[c].emptySince) && rooms0[c].isDisposed == old(rooms0[c].isDisposed)
        invariant forall c :: c in rooms0 && c in done ==>
          if Expired(old(rooms0[c].emptySince), now)
          then rooms0[c].isDisposed && rooms0[c].emptySince == old(rooms0[c].emptySince)
          else && rooms0[c].emptySince == Marked(old(rooms0[c].emptySince), c in observed, now)
               && rooms0[c].isDisposed == old(rooms0[c].isDisposed)
        decreases pending
      {
        var code :| code in pending;
        var room := rooms[code];
        label before:
        SweepRoom(code, room, now, code in observed);
        forall c | c in rooms0 && c != code
          ensures rooms0[c].emptySince == old@before(rooms0[c].emptySince)
          ensures rooms0[c].isDisposed == old@before(rooms0[c].isDisposed)
        {
          assert rooms0[c].id != room.id;
        }
        pending := pending - {code};
        done := done + {code};
      }
    }

    /** One pass of the sweep, over `room`, filed under `code`. */
    method SweepRoom(code: string, room: Room, now: int, observed: bool)
      requires Filed() && code in rooms && rooms[code] == room
      modifies this`rooms, room`emptySince, room`isDisposed
      ensures Filed()
      ensures Expired(old(room.emptySince), now) ==>
        rooms == old(rooms) - {code} && room.isDisposed && room.emptySince == old(room.emptySince)
      ensures !Expired(old(room.emptySince), now) ==>
        && rooms == old(rooms)
        && room.emptySince == Marked(old(room.emptySince), observed, now)
        && room.isDisposed == old(room.isDisposed)
    {
      if room.emptySince.Some? && room.emptySince.value < now - EmptyRoomLifetime {
        rooms := rooms - {code};
        room.Dispose();
      } else if !observed && room.emptySince.None? {
        room.emptySince := Some(now);
      }
    }

    /** `Dispose`: every registered room is disposed and the registry is
        emptied. */
    method Dispose()
      requires Valid()
      modifies this`rooms, rooms.Values`isDisposed
      ensures Valid() && rooms == map[]
      ensures forall c :: c in old(rooms) ==> old(rooms)[c].isDisposed
    {
      var pending := rooms.Keys;
      while pending != {}
        invariant pending <= rooms.Keys
        invariant rooms == old(rooms)
        invariant Filed()
        invariant forall c :: c in rooms && c !in pending ==> rooms[c].isDisposed
        decreases pending
      {
        var code :| code in pending;
        rooms[code].Dispose();
        pending := pending - {code};
      }
      rooms := map[];
    }
  }
}
