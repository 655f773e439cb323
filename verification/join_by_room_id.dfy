/** The join-by-room-id relay server (server/index.js). Clients name the room
    they want; the first two distinct player ids to join are seated by the
    room's player count at join time. Every socket handler is a pure step from
    the room table to a new table plus the events it emits. */
module JoinByRoomId {
  import opened Relay
  import opened Registry

  datatype Seat = White | Black

  /** A seated player: the client-supplied id, display name, avatar and seat. */
  datatype Player = Player(id: PlayerId, username: string, avatar: string, orientation: Seat)

  /** Server-to-client messages of this variant. */
  datatype Message =
    | StartGame(room: Room<Player>)
    | MoveRelayed(move: MoveData)
    | PlayAgainRequest
    | PlayAgainAccepted
    | PlayerDisconnected(username: string)
    | RoomClosed(roomId: RoomId)

  function PlayerIds(players: seq<Player>): (ids: seq<PlayerId>)
    ensures |ids| == |players|
  {
    if players == [] then [] else [players[0].id] + PlayerIds(players[1..])
  }

  /** The seat offered to a newcomer, by the number of players already seated. */
  function SeatFor(count: nat): (s: Option<Seat>)
    ensures s.Some? <==> count < 2
  {
    if count == 0 then Some(White)
    else if count == 1 then Some(Black)
    else None
  }

  /** The seating step of `joinRoom` on the room it got or created: a new id
      is appended with the seat its arrival count gives; a present id, or a
      room already holding two players, is left as it is. */
  function Admit(room: Room<Player>, userId: PlayerId, username: string, avatar: string): (r: Room<Player>)
    ensures userId in PlayerIds(room.players) || |room.players| >= 2 ==> r == room
    ensures !(userId in PlayerIds(room.players) || |room.players| >= 2) ==>
              r == room.(players := room.players + [Player(userId, username, avatar, if |room.players| == 0 then White else Black)])
  {
    if userId in PlayerIds(room.players) then room
    else
      match SeatFor(|room.players|)
      case Some(seat) => room.(players := room.players + [Player(userId, username, avatar, seat)])
      case None => room
  }

  /** The `joinRoom` handler. */
  function JoinRoom(rooms: seq<Room<Player>>, roomId: RoomId, username: string, avatar: string,
                    userId: PlayerId): (r: Step<Player, Message>)
    requires WellFormed(rooms)
    ensures WellFormed(r.rooms)
    ensures Ids(r.rooms) == if roomId in Ids(rooms) then Ids(rooms) else Ids(rooms) + [roomId]
    ensures forall id :: id != roomId ==> Lookup(r.rooms, id) == Lookup(rooms, id)
    ensures var before := PlayersOf(rooms, roomId);
            PlayersOf(r.rooms, roomId) ==
              if userId in PlayerIds(before) || |before| >= 2 then before
              else before + [Player(userId, username, avatar, if |before| == 0 then White else Black)]
    ensures var after := PlayersOf(r.rooms, roomId);
            r.events == if |after| == 2 then [Event(Everyone(roomId), StartGame(Room(roomId, after)))] else []
  {
    var created := if roomId in Ids(rooms) then rooms else Put(rooms, Room(roomId, []));
    PutIds(rooms, Room(roomId, []));
    PutKeepsWellFormed(rooms, Room(roomId, []));
    var room := Lookup(created, roomId).value;
    var seated := Admit(room, userId, username, avatar);
    PutIds(created, seated);
    PutKeepsWellFormed(created, seated);
    var joined := if userId in PlayerIds(room.players) then created else Put(created, seated);
    var now := Lookup(joined, roomId).value;
    Step(joined, if |now.players| == 2 then [Event(Everyone(roomId), StartGame(now))] else [])
  }

  /** `players.findIndex(p => p.id === userId)`, with -1 written as None:
      the position of the first player holding that id. */
  function FindIndex(players: seq<Player>, userId: PlayerId): (k: Option<nat>)
    ensures k.Some? ==> k.value < |players| && players[k.value].id == userId
    ensures k.Some? ==> forall j :: 0 <= j < k.value ==> players[j].id != userId
    ensures k.None? ==> forall j :: 0 <= j < |players| ==> players[j].id != userId
  {
    if players == [] then None
    else if players[0].id == userId then Some(0)
    else match FindIndex(players[1..], userId)
      case Some(k) => Some(k + 1)
      case None => None
  }

  /** `players.splice(players.findIndex(p => p.id === userId), 1)` when the id
      is found, the list itself otherwise: the first player with that id leaves. */
  function Leave(players: seq<Player>, userId: PlayerId): (r: seq<Player>)
    ensures userId !in PlayerIds(players) ==> r == players
    ensures userId in PlayerIds(players) ==> |r| == |players| - 1
  {
    if players == [] then []
    else if players[0].id == userId then players[1..]
    else [players[0]] + Leave(players[1..], userId)
  }

  /** What `disconnect` makes of one room: the departing id leaves it, and a
      room left empty is deleted. */
  function Vacate(room: Room<Player>, userId: PlayerId): (r: Option<Room<Player>>)
    ensures r.None? <==> room.players == [] || (|room.players| == 1 && room.players[0].id == userId)
    ensures r.Some? ==> r.value.roomId == room.roomId
    ensures r.Some? && userId !in PlayerIds(room.players) ==> r.value == room
    ensures r.Some? && userId in PlayerIds(room.players) ==> |r.value.players| == |room.players| - 1
  {
    var rest := Leave(room.players, userId);
    if rest == [] then None else Some(room.(players := rest))
  }

  /** The `disconnect` handler of the connection whose last `joinRoom`
      recorded `userId` and `username`: the table is walked in insertion order
      and every room that survives is told the player left. */
  function Disconnect(rooms: seq<Room<Player>>, userId: PlayerId, username: string): (r: Step<Player, Message>)
    requires WellFormed(rooms)
    ensures WellFormed(r.rooms)
    ensures forall id :: id in Ids(r.rooms) ==> id in Ids(rooms)
    ensures Subseq(Ids(r.rooms), Ids(rooms))
    ensures forall id :: Lookup(r.rooms, id) ==
              match Lookup(rooms, id)
              case Some(room) => Vacate(room, userId)
              case None => None
    ensures |r.events| == |r.rooms|
    ensures forall i :: 0 <= i < |r.rooms| ==>
              r.events[i] == Event(Others(r.rooms[i].roomId), PlayerDisconnected(username))
  {
    if rooms == [] then Step([], [])
    else
      WellFormedCons(rooms);
      var rest := Disconnect(rooms[1..], userId, username);
      match Vacate(rooms[0], userId)
      case None => rest
      case Some(room) =>
        var r := Step([room] + rest.rooms, [Event(Others(room.roomId), PlayerDisconnected(username))] + rest.events);
        assert r.rooms[1..] == rest.rooms;
        WellFormedCons(r.rooms);
        r
  }

  /** The `closeRoom` handler: an existing room is told it closes and is
      deleted; an unknown id changes nothing and emits nothing. */
  function CloseRoom(rooms: seq<Room<Player>>, roomId: RoomId): (r: Step<Player, Message>)
    requires WellFormed(rooms)
    ensures WellFormed(r.rooms)
    ensures roomId !in Ids(r.rooms)
    ensures forall id :: id != roomId ==> Lookup(r.rooms, id) == Lookup(rooms, id)
    ensures roomId !in Ids(rooms) ==> r == Step(rooms, [])
    ensures roomId in Ids(rooms) ==> Subseq(r.rooms, rooms)
    ensures roomId in Ids(rooms) ==> r.events == [Event(Others(roomId), RoomClosed(roomId))]
  {
    if roomId in Ids(rooms) then Step(Delete(rooms, roomId), [Event(Others(roomId), RoomClosed(roomId))])
    else Step(rooms, [])
  }

  /** The `move` handler: the move goes to the rest of the room; the table is untouched. */
  function Move(rooms: seq<Room<Player>>, room: RoomId, move: MoveData): (r: Step<Player, Message>)
    ensures r.rooms == rooms
    ensures r.events == [Event(Others(room), MoveRelayed(move))]
  {
    Step(rooms, [Event(Others(room), MoveRelayed(move))])
  }

  /** The `requestPlayAgain` handler: the other player is asked; nothing is recorded. */
  function RequestPlayAgain(rooms: seq<Room<Player>>, room: RoomId): (r: Step<Player, Message>)
    ensures r.rooms == rooms
    ensures r.events == [Event(Others(room), PlayAgainRequest)]
  {
    Step(rooms, [Event(Others(room), PlayAgainRequest)])
  }

  /** The `acceptPlayAgain` handler: the whole room is told; nothing is reset. */
  function AcceptPlayAgain(rooms: seq<Room<Player>>, room: RoomId): (r: Step<Player, Message>)
    ensures r.rooms == rooms
    ensures r.events == [Event(Everyone(room), PlayAgainAccepted)]
  {
    Step(rooms, [Event(Everyone(room), PlayAgainAccepted)])
  }
}
