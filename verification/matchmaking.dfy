/** The matchmaking relay server (server/server.js). A client only sends a
    display name; the server pairs it with the first room, in table order,
    where one player waits, or opens a fresh room under a new id. Players are
    keyed by their socket id and never de-duplicated. */
module Matchmaking {
  import opened Relay
  import opened Registry

  /** A connection in a room: its socket id and the name it sent. */
  datatype Player = Player(id: PlayerId, username: string)

  /** Server-to-client messages of this variant. */
  datatype Message =
    | RoomJoined(room: Room<Player>)
    | StartGame(room: Room<Player>)
    | MoveRelayed(move: MoveData)
    | PlayerDisconnected(player: Player)
    | RoomClosed(roomId: RoomId)

  /** The search loop of `username`: the position of the first room, in
      insertion order, that holds exactly one player. */
  function FirstWaiting(rooms: seq<Room<Player>>): (k: Option<nat>)
    ensures k.Some? ==> k.value < |rooms| && |rooms[k.value].players| == 1
    ensures k.Some? ==> forall j :: 0 <= j < k.value ==> |rooms[j].players| != 1
    ensures k.None? ==> forall j :: 0 <= j < |rooms| ==> |rooms[j].players| != 1
  {
    if rooms == [] then None
    else if |rooms[0].players| == 1 then Some(0)
    else match FirstWaiting(rooms[1..])
      case Some(k) => Some(k + 1)
      case None => None
  }

  /** The room a `username` call lands in: the first waiting room, or the
      fresh id when none waits. */
  function Target(rooms: seq<Room<Player>>, freshId: RoomId): RoomId {
    match FirstWaiting(rooms)
    case Some(k) => rooms[k].roomId
    case None => freshId
  }

  /** The first waiting room is what `rooms.get` returns for its id. */
  lemma {:induction false} TargetIsWaiting(rooms: seq<Room<Player>>, freshId: RoomId)
    requires WellFormed(rooms)
    ensures FirstWaiting(rooms).Some? ==> Lookup(rooms, Target(rooms, freshId)) == Some(rooms[FirstWaiting(rooms).value])
  {
    if FirstWaiting(rooms).Some? {
      LookupAt(rooms, FirstWaiting(rooms).value);
    }
  }

  /** The `username` handler of socket `socketId`; `freshId` is the id
      `uuidV4()` draws when no room waits, one the table does not hold yet. */
  function Username(rooms: seq<Room<Player>>, socketId: PlayerId, username: string, freshId: RoomId): (r: Step<Player, Message>)
    requires WellFormed(rooms)
    requires FirstWaiting(rooms).None? ==> freshId !in Ids(rooms)
    ensures WellFormed(r.rooms)
    ensures Ids(r.rooms) == if FirstWaiting(rooms).Some? then Ids(rooms) else Ids(rooms) + [freshId]
    ensures forall id :: id != Target(rooms, freshId) ==> Lookup(r.rooms, id) == Lookup(rooms, id)
    ensures PlayersOf(r.rooms, Target(rooms, freshId)) ==
              PlayersOf(rooms, Target(rooms, freshId)) + [Player(socketId, username)]
    ensures var joined := Room(Target(rooms, freshId), PlayersOf(r.rooms, Target(rooms, freshId)));
            r.events == [Event(Sender, RoomJoined(joined))] +
                        if |joined.players| == 2 then [Event(Everyone(joined.roomId), StartGame(joined))] else []
  {
    var roomId := Target(rooms, freshId);
    TargetIsWaiting(rooms, freshId);
    var created := if FirstWaiting(rooms).None? then Put(rooms, Room(freshId, [])) else rooms;
    PutIds(rooms, Room(freshId, []));
    PutKeepsWellFormed(rooms, Room(freshId, []));
    var room := Lookup(created, roomId).value;
    var joined := room.(players := room.players + [Player(socketId, username)]);
    PutIds(created, joined);
    PutKeepsWellFormed(created, joined);
    Step(Put(created, joined),
         [Event(Sender, RoomJoined(joined))] +
         if |joined.players| == 2 then [Event(Everyone(roomId), StartGame(joined))] else [])
  }

  /** `room.players.find(p => p.id === socketId)`: the first record of that socket. */
  function Find(players: seq<Player>, socketId: PlayerId): (p: Option<Player>)
    ensures p.Some? ==> p.value in players && p.value.id == socketId
    ensures p.None? <==> forall q :: q in players ==> q.id != socketId
  {
    if players == [] then None
    else if players[0].id == socketId then Some(players[0])
    else Find(players[1..], socketId)
  }

  /** The record `find` returns is the socket's first one in the list. */
  lemma {:induction false} FindFirst(players: seq<Player>, socketId: PlayerId, k: nat)
    requires k < |players| && players[k].id == socketId
    requires forall j :: 0 <= j < k ==> players[j].id != socketId
    ensures Find(players, socketId) == Some(players[k])
  {
    if k > 0 {
      assert players[1..][k - 1] == players[k];
      FindFirst(players[1..], socketId, k - 1);
    }
  }

  /** A room `disconnect` deletes: it lists the socket and has fewer than two players. */
  predicate Abandoned(room: Room<Player>, socketId: PlayerId) {
    Find(room.players, socketId).Some? && |room.players| < 2
  }

  /** The rooms of a table that list the socket, in table order. */
  function Listing(rooms: seq<Room<Player>>, socketId: PlayerId): (r: seq<Room<Player>>)
    ensures forall i :: 0 <= i < |r| ==> Find(r[i].players, socketId).Some?
  {
    if rooms == [] then []
    else if Find(rooms[0].players, socketId).Some? then [rooms[0]] + Listing(rooms[1..], socketId)
    else Listing(rooms[1..], socketId)
  }

  lemma {:induction false} ListingMembers(rooms: seq<Room<Player>>, socketId: PlayerId, room: Room<Player>)
    ensures room in Listing(rooms, socketId) <==> room in rooms && Find(room.players, socketId).Some?
  {
    if rooms != [] {
      ListingMembers(rooms[1..], socketId, room);
      assert room in rooms <==> room == rooms[0] || room in rooms[1..];
    }
  }

  /** The notice a listing room gets when the socket drops. */
  function Notice(room: Room<Player>, socketId: PlayerId): Event<Message>
    requires Find(room.players, socketId).Some?
  {
    Event(Others(room.roomId), PlayerDisconnected(Find(room.players, socketId).value))
  }

  /** The `disconnect` handler of socket `socketId`: the table is walked in
      insertion order; an abandoned room is deleted, any other room that lists
      the socket keeps its players and is sent the socket's player record. */
  function Disconnect(rooms: seq<Room<Player>>, socketId: PlayerId): (r: Step<Player, Message>)
    ensures forall id :: id in Ids(r.rooms) ==> id in Ids(rooms)
    ensures Subseq(r.rooms, rooms)
  {
    if rooms == [] then Step([], [])
    else
      var rest := Disconnect(rooms[1..], socketId);
      var room := rooms[0];
      if Abandoned(room, socketId) then rest
      else
        match Find(room.players, socketId)
        case None => Step([room] + rest.rooms, rest.events)
        case Some(p) => Step([room] + rest.rooms, [Event(Others(room.roomId), PlayerDisconnected(p))] + rest.events)
  }

  /** No player list is ever shortened: a disconnect deletes an abandoned
      room whole and keeps every other room exactly as it was. */
  lemma {:induction false} DisconnectKeepsLists(rooms: seq<Room<Player>>, socketId: PlayerId)
    requires WellFormed(rooms)
    ensures WellFormed(Disconnect(rooms, socketId).rooms)
    ensures forall id :: Lookup(Disconnect(rooms, socketId).rooms, id) ==
              match Lookup(rooms, id)
              case Some(room) => if Abandoned(room, socketId) then None else Some(room)
              case None => None
  {
    if rooms != [] {
      WellFormedCons(rooms);
      DisconnectKeepsLists(rooms[1..], socketId);
      var rest := Disconnect(rooms[1..], socketId).rooms;
      var room := rooms[0];
      if !Abandoned(room, socketId) {
        var kept := Disconnect(rooms, socketId).rooms;
        assert kept == [room] + rest;
        assert kept[1..] == rest;
        WellFormedCons(kept);
      }
    }
  }

  /** Every kept room that lists the socket, and only those, is sent one
      notice, in table order, carrying the socket's first record in it. */
  lemma {:induction false} DisconnectNotices(rooms: seq<Room<Player>>, socketId: PlayerId)
    ensures var r := Disconnect(rooms, socketId);
            var listing := Listing(r.rooms, socketId);
            |r.events| == |listing| &&
            forall i :: 0 <= i < |listing| ==> r.events[i] == Notice(listing[i], socketId)
  {
    if rooms != [] {
      DisconnectNotices(rooms[1..], socketId);
      var rest := Disconnect(rooms[1..], socketId);
      var room := rooms[0];
      if !Abandoned(room, socketId) {
        var kept := [room] + rest.rooms;
        assert kept[1..] == rest.rooms;
        assert Disconnect(rooms, socketId).rooms == kept;
      }
    }
  }

  /** The `closeRoom` handler: the room is told and its id deleted, whether
      or not the table held it. */
  function CloseRoom(rooms: seq<Room<Player>>, roomId: RoomId): (r: Step<Player, Message>)
    requires WellFormed(rooms)
    ensures WellFormed(r.rooms)
    ensures roomId !in Ids(r.rooms)
    ensures forall id :: id != roomId ==> Lookup(r.rooms, id) == Lookup(rooms, id)
    ensures roomId !in Ids(rooms) ==> r.rooms == rooms
    ensures Subseq(r.rooms, rooms)
    ensures r.events == [Event(Others(roomId), RoomClosed(roomId))]
  {
    Step(Delete(rooms, roomId), [Event(Others(roomId), RoomClosed(roomId))])
  }

  /** The `move` handler: the move goes to the rest of the room; the table is untouched. */
  function Move(rooms: seq<Room<Player>>, room: RoomId, move: MoveData): (r: Step<Player, Message>)
    ensures r.rooms == rooms
    ensures r.events == [Event(Others(room), MoveRelayed(move))]
  {
    Step(rooms, [Event(Others(room), MoveRelayed(move))])
  }
}
