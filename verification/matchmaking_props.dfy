/** Properties of the matchmaking server (server/server.js): the invariant
    every reachable room table keeps between events, and the consequences of
    never de-duplicating sockets and never shortening a player list. */
module MatchmakingProps {
  import opened Relay
  import opened Registry
  import opened Matchmaking

  /** A room is waiting when exactly one player sits in it. */
  predicate Waiting(room: Room<Player>) {
    |room.players| == 1
  }

  /** The invariant of the room table between events: every room holds one
      or two players, and at most one room is waiting. */
  predicate Inv(rooms: seq<Room<Player>>) {
    && WellFormed(rooms)
    && (forall room :: room in rooms ==> 1 <= |room.players| <= 2)
    && (forall a, b :: a in rooms && b in rooms && Waiting(a) && Waiting(b) ==> a == b)
  }

  /** A `username` call keeps the invariant: it fills the one waiting room to
      two, or, when none waits, opens the only waiting room. */
  lemma UsernameKeepsInv(rooms: seq<Room<Player>>, socketId: PlayerId, username: string, freshId: RoomId)
    requires Inv(rooms)
    requires FirstWaiting(rooms).None? ==> freshId !in Ids(rooms)
    ensures Inv(Username(rooms, socketId, username, freshId).rooms)
  {
    if FirstWaiting(rooms).Some? {
      MatchedKeepsInv(rooms, socketId, username, freshId);
    } else {
      OpenedKeepsInv(rooms, socketId, username, freshId);
    }
  }

  /** A matched `username` leaves no room waiting. */
  lemma MatchedKeepsInv(rooms: seq<Room<Player>>, socketId: PlayerId, username: string, freshId: RoomId)
    requires Inv(rooms)
    requires FirstWaiting(rooms).Some?
    ensures Inv(Username(rooms, socketId, username, freshId).rooms)
    ensures forall room :: room in Username(rooms, socketId, username, freshId).rooms ==> !Waiting(room)
  {
    var r := Username(rooms, socketId, username, freshId).rooms;
    var k := FirstWaiting(rooms).value;
    var target := rooms[k].roomId;
    TargetIsWaiting(rooms, freshId);
    assert |PlayersOf(r, target)| == 2;
    forall room | room in r ensures 1 <= |room.players| <= 2 && !Waiting(room) {
      LookupMember(r, room);
      if room.roomId != target {
        assert Lookup(rooms, room.roomId) == Some(room);
        assert room in rooms;
        assert rooms[k] in rooms && Waiting(rooms[k]);
        assert room != rooms[k];
        assert !Waiting(room);
      } else {
        assert room.players == PlayersOf(r, target);
      }
    }
  }

  /** An unmatched `username` opens the only waiting room. */
  lemma {:induction false} OpenedKeepsInv(rooms: seq<Room<Player>>, socketId: PlayerId, username: string, freshId: RoomId)
    requires Inv(rooms)
    requires freshId !in Ids(rooms)
    requires FirstWaiting(rooms).None?
    ensures Inv(Username(rooms, socketId, username, freshId).rooms)
  {
    var r := Username(rooms, socketId, username, freshId).rooms;
    assert PlayersOf(r, freshId) == [Player(socketId, username)];
    forall room | room in r ensures 1 <= |room.players| <= 2 && (Waiting(room) ==> room.roomId == freshId) {
      LookupMember(r, room);
      if room.roomId != freshId {
        assert Lookup(rooms, room.roomId) == Some(room);
        var i :| 0 <= i < |rooms| && rooms[i] == room;
      }
    }
    forall a, b | a in r && b in r && Waiting(a) && Waiting(b) ensures a == b {
      LookupMember(r, a);
      LookupMember(r, b);
    }
  }

  lemma DisconnectKeepsInv(rooms: seq<Room<Player>>, socketId: PlayerId)
    requires Inv(rooms)
    ensures Inv(Disconnect(rooms, socketId).rooms)
  {
    var r := Disconnect(rooms, socketId).rooms;
    DisconnectKeepsLists(rooms, socketId);
    forall room | room in r ensures room in rooms {
      LookupMember(r, room);
      assert Lookup(rooms, room.roomId) == Some(room);
    }
  }

  lemma CloseRoomKeepsInv(rooms: seq<Room<Player>>, roomId: RoomId)
    requires Inv(rooms)
    ensures Inv(CloseRoom(rooms, roomId).rooms)
  {
    var r := CloseRoom(rooms, roomId).rooms;
    forall room | room in r ensures room in rooms {
      LookupMember(r, room);
      assert Lookup(rooms, room.roomId) == Some(room);
    }
  }

  /** A two-player room survives the disconnect of a socket it lists, with
      that socket still listed, and the room is sent the socket's record. */
  lemma {:induction false} FullRoomKeptOnDisconnect(rooms: seq<Room<Player>>, socketId: PlayerId, room: Room<Player>)
    requires WellFormed(rooms)
    requires room in rooms
    requires |room.players| == 2
    requires Find(room.players, socketId).Some?
    ensures room in Disconnect(rooms, socketId).rooms
    ensures Notice(room, socketId) in Disconnect(rooms, socketId).events
  {
    var r := Disconnect(rooms, socketId);
    DisconnectKeepsLists(rooms, socketId);
    DisconnectNotices(rooms, socketId);
    LookupMember(rooms, room);
    assert Lookup(r.rooms, room.roomId) == Some(room);
    var listing := Listing(r.rooms, socketId);
    ListingMembers(r.rooms, socketId, room);
    var i :| 0 <= i < |listing| && listing[i] == room;
    assert r.events[i] == Notice(room, socketId);
  }

  /** Sockets are not de-duplicated: when the first waiting room holds the
      calling socket itself, the socket is paired with itself, fills both
      seats, and the room is told the game starts. */
  lemma {:induction false} SocketMatchedWithItself(rooms: seq<Room<Player>>, socketId: PlayerId, earlier: string, username: string,
                                                   freshId: RoomId)
    requires WellFormed(rooms)
    requires FirstWaiting(rooms).Some?
    requires rooms[FirstWaiting(rooms).value].players == [Player(socketId, earlier)]
    ensures var id := rooms[FirstWaiting(rooms).value].roomId;
            var r := Username(rooms, socketId, username, freshId);
            && PlayersOf(r.rooms, id) == [Player(socketId, earlier), Player(socketId, username)]
            && r.events[1] == Event(Everyone(id), StartGame(Room(id, PlayersOf(r.rooms, id))))
  {
    TargetIsWaiting(rooms, freshId);
  }

  /** When no room waits, a `username` call opens a room holding just the
      caller, and that room is the one the next call picks, whoever sends it. */
  lemma {:induction false} OpenedRoomIsFirstWaiting(rooms: seq<Room<Player>>, socketId: PlayerId, username: string, freshId: RoomId)
    requires WellFormed(rooms)
    requires FirstWaiting(rooms).None?
    requires freshId !in Ids(rooms)
    ensures var s1 := Username(rooms, socketId, username, freshId).rooms;
            && PlayersOf(s1, freshId) == [Player(socketId, username)]
            && FirstWaiting(s1).Some? && s1[FirstWaiting(s1).value].roomId == freshId
  {
    var s1 := Username(rooms, socketId, username, freshId).rooms;
    assert Target(rooms, freshId) == freshId;
    forall room | room in s1 && room.roomId != freshId ensures !Waiting(room) {
      LookupMember(s1, room);
      assert Lookup(rooms, room.roomId) == Some(room);
      var i :| 0 <= i < |rooms| && rooms[i] == room;
    }
    WaitingRoomIsFirst(s1, freshId);
  }

  /** In a table whose rooms other than `id` do not wait, a waiting room `id`
      is the one `username` picks. */
  lemma WaitingRoomIsFirst(rooms: seq<Room<Player>>, id: RoomId)
    requires WellFormed(rooms)
    requires |PlayersOf(rooms, id)| == 1
    requires forall room :: room in rooms && room.roomId != id ==> !Waiting(room)
    ensures FirstWaiting(rooms).Some? && rooms[FirstWaiting(rooms).value].roomId == id
  {
  }

  /** Closing a room twice is closing it once; the notice goes out each time. */
  lemma CloseRoomIdempotent(rooms: seq<Room<Player>>, roomId: RoomId)
    requires WellFormed(rooms)
    ensures CloseRoom(CloseRoom(rooms, roomId).rooms, roomId).rooms == CloseRoom(rooms, roomId).rooms
  {
  }

  /** One client-to-server event of this variant; a `username` event carries
      the id `uuidV4()` draws for it. */
  datatype Action =
    | UsernameEvent(socketId: PlayerId, username: string, freshId: RoomId)
    | MoveEvent(room: RoomId, move: MoveData)
    | DisconnectEvent(socketId: PlayerId)
    | CloseRoomEvent(roomId: RoomId)

  /** An id drawn for a `username` that finds no waiting room is fresh, as a
      v4 UUID is assumed to be. */
  predicate FreshFor(rooms: seq<Room<Player>>, a: Action) {
    a.UsernameEvent? && FirstWaiting(rooms).None? ==> a.freshId !in Ids(rooms)
  }

  function Apply(rooms: seq<Room<Player>>, a: Action): (r: Step<Player, Message>)
    requires WellFormed(rooms)
    requires FreshFor(rooms, a)
    ensures WellFormed(r.rooms)
  {
    match a
    case UsernameEvent(socketId, username, freshId) => Username(rooms, socketId, username, freshId)
    case MoveEvent(room, move) => Move(rooms, room, move)
    case DisconnectEvent(socketId) => DisconnectKeepsLists(rooms, socketId); Disconnect(rooms, socketId)
    case CloseRoomEvent(roomId) => CloseRoom(rooms, roomId)
  }

  /** Every `username` event of the sequence draws an id fresh at its turn. */
  predicate Admissible(rooms: seq<Room<Player>>, actions: seq<Action>)
    requires WellFormed(rooms)
    decreases |actions|
  {
    actions == [] ||
    (FreshFor(rooms, actions[0]) && Admissible(Apply(rooms, actions[0]).rooms, actions[1..]))
  }

  lemma ApplyKeepsInv(rooms: seq<Room<Player>>, a: Action)
    requires Inv(rooms)
    requires FreshFor(rooms, a)
    ensures Inv(Apply(rooms, a).rooms)
  {
    match a
    case UsernameEvent(socketId, username, freshId) => UsernameKeepsInv(rooms, socketId, username, freshId);
    case MoveEvent(_, _) =>
    case DisconnectEvent(socketId) => DisconnectKeepsInv(rooms, socketId);
    case CloseRoomEvent(roomId) => CloseRoomKeepsInv(rooms, roomId);
  }

  /** The room table after the server handled `actions` in order. */
  function Run(rooms: seq<Room<Player>>, actions: seq<Action>): (r: seq<Room<Player>>)
    requires Inv(rooms)
    requires Admissible(rooms, actions)
    ensures Inv(r)
    decreases |actions|
  {
    if actions == [] then rooms
    else
      ApplyKeepsInv(rooms, actions[0]);
      Run(Apply(rooms, actions[0]).rooms, actions[1..])
  }

  /** From server start, every reachable table has rooms of one or two
      players, and at most one of them waits. */
  lemma ReachableTablesPairUp(actions: seq<Action>)
    requires Admissible([], actions)
    ensures forall room :: room in Run([], actions) ==> 1 <= |room.players| <= 2
    ensures forall a, b :: a in Run([], actions) && b in Run([], actions) && Waiting(a) && Waiting(b) ==> a == b
  {
  }
}
