/** Properties of the join-by-room-id server (server/index.js): what a join
    does to a room's seats, what a disconnect leaves behind, and the invariant
    every reachable room table keeps between events. */
module JoinByRoomIdProps {
  import opened Relay
  import opened Registry
  import opened JoinByRoomId

  lemma {:induction false} PlayerIdsSnoc(players: seq<Player>, p: Player)
    ensures PlayerIds(players + [p]) == PlayerIds(players) + [p.id]
  {
    if players != [] {
      assert (players + [p])[1..] == players[1..] + [p];
      PlayerIdsSnoc(players[1..], p);
    }
  }

  lemma {:induction false} PlayerIdsIn(players: seq<Player>, p: Player)
    requires p in players
    ensures p.id in PlayerIds(players)
  {
    if players[0] != p {
      PlayerIdsIn(players[1..], p);
    }
  }

  /** The departing id's first occurrence goes; with ids distinct, that is
      its only one, and every other player stays. */
  lemma {:induction false} LeaveRemovesId(players: seq<Player>, userId: PlayerId)
    requires NoDup(PlayerIds(players))
    ensures NoDup(PlayerIds(Leave(players, userId)))
    ensures userId !in PlayerIds(Leave(players, userId))
    ensures forall p :: p in Leave(players, userId) <==> p in players && p.id != userId
  {
    if players != [] {
      NoDupCons(players[0].id, PlayerIds(players[1..]));
      if players[0].id == userId {
        forall p | p in players[1..] ensures p.id != userId {
          PlayerIdsIn(players[1..], p);
        }
      } else {
        LeaveRemovesId(players[1..], userId);
        var r := Leave(players, userId);
        assert r[1..] == Leave(players[1..], userId);
        forall p | p in Leave(players[1..], userId) ensures p.id != players[0].id {
          PlayerIdsIn(players[1..], p);
        }
        assert players[0].id !in PlayerIds(Leave(players[1..], userId)) by {
          if players[0].id in PlayerIds(Leave(players[1..], userId)) {
            var k :| 0 <= k < |PlayerIds(Leave(players[1..], userId))| && PlayerIds(Leave(players[1..], userId))[k] == players[0].id;
            PlayerIdsAt(Leave(players[1..], userId), k);
          }
        }
        NoDupCons(players[0].id, PlayerIds(Leave(players[1..], userId)));
      }
    }
  }

  lemma {:induction false} PlayerIdsAt(players: seq<Player>, k: nat)
    requires k < |players|
    ensures PlayerIds(players)[k] == players[k].id
  {
    if k > 0 {
      PlayerIdsAt(players[1..], k - 1);
    }
  }

  /** `Leave` is the source's `splice` at `findIndex`: the list minus exactly
      the first player holding the id, order kept; unchanged when none does. */
  lemma {:induction false} LeaveIsSplice(players: seq<Player>, userId: PlayerId)
    ensures Leave(players, userId) ==
              match FindIndex(players, userId)
              case Some(k) => players[..k] + players[k + 1..]
              case None => players
  {
    if players == [] {
    } else if players[0].id == userId {
      assert FindIndex(players, userId) == Some(0);
      assert players[..0] + players[1..] == players[1..];
    } else {
      var tail := players[1..];
      LeaveIsSplice(tail, userId);
      assert Leave(players, userId) == [players[0]] + Leave(tail, userId);
      match FindIndex(tail, userId)
      case Some(k) =>
        assert FindIndex(players, userId) == Some(k + 1);
        SpliceCons(players, k + 1);
      case None =>
        assert FindIndex(players, userId) == None;
        assert [players[0]] + tail == players;
    }
  }

  /** Every room seats one or two players with pairwise distinct ids. */
  predicate RoomOk(room: Room<Player>) {
    1 <= |room.players| <= 2 && NoDup(PlayerIds(room.players))
  }

  /** The invariant of the room table between events. */
  predicate Inv(rooms: seq<Room<Player>>) {
    WellFormed(rooms) && forall room :: room in rooms ==> RoomOk(room)
  }

  /** A join keeps the invariant: a new room is seated at once, a known id is
      not seated twice, and a room never grows past two. */
  lemma JoinRoomKeepsInv(rooms: seq<Room<Player>>, roomId: RoomId, username: string, avatar: string,
                         userId: PlayerId)
    requires Inv(rooms)
    ensures Inv(JoinRoom(rooms, roomId, username, avatar, userId).rooms)
  {
    var r := JoinRoom(rooms, roomId, username, avatar, userId);
    var before := PlayersOf(rooms, roomId);
    assert NoDup(PlayerIds(before)) && |before| <= 2 by {
      if roomId in Ids(rooms) {
        assert Lookup(rooms, roomId).value in rooms;
      }
    }
    forall room | room in r.rooms ensures RoomOk(room) {
      LookupMember(r.rooms, room);
      if room.roomId != roomId {
        assert Lookup(rooms, room.roomId) == Some(room);
      } else if !(userId in PlayerIds(before) || |before| >= 2) {
        var p := Player(userId, username, avatar, if |before| == 0 then White else Black);
        PlayerIdsSnoc(before, p);
        NoDupSnoc(PlayerIds(before), userId);
      } else {
        assert roomId in Ids(rooms);
        assert Lookup(rooms, roomId).value in rooms;
      }
    }
  }

  /** A disconnect keeps the invariant: whatever it leaves in a room stays
      duplicate-free, and a room it empties is gone. */
  lemma DisconnectKeepsInv(rooms: seq<Room<Player>>, userId: PlayerId, username: string)
    requires Inv(rooms)
    ensures Inv(Disconnect(rooms, userId, username).rooms)
  {
    var r := Disconnect(rooms, userId, username);
    forall room | room in r.rooms ensures RoomOk(room) {
      LookupMember(r.rooms, room);
      var prior := Lookup(rooms, room.roomId).value;
      assert prior in rooms;
      LeaveRemovesId(prior.players, userId);
    }
  }

  lemma CloseRoomKeepsInv(rooms: seq<Room<Player>>, roomId: RoomId)
    requires Inv(rooms)
    ensures Inv(CloseRoom(rooms, roomId).rooms)
  {
    var r := CloseRoom(rooms, roomId);
    forall room | room in r.rooms ensures RoomOk(room) {
      LookupMember(r.rooms, room);
      assert Lookup(rooms, room.roomId) == Some(room);
    }
  }

  /** After a disconnect the departing id sits in no room, and every room
      that did not seat it keeps its players exactly. */
  lemma DisconnectClearsDeparter(rooms: seq<Room<Player>>, userId: PlayerId, username: string)
    requires Inv(rooms)
    ensures forall room :: room in Disconnect(rooms, userId, username).rooms ==>
              userId !in PlayerIds(room.players)
    ensures forall room :: room in rooms && userId !in PlayerIds(room.players) ==>
              room in Disconnect(rooms, userId, username).rooms
  {
    var r := Disconnect(rooms, userId, username);
    forall room | room in r.rooms ensures userId !in PlayerIds(room.players) {
      LookupMember(r.rooms, room);
      var prior := Lookup(rooms, room.roomId).value;
      assert prior in rooms;
      LeaveRemovesId(prior.players, userId);
    }
    forall room | room in rooms && userId !in PlayerIds(room.players) ensures room in r.rooms {
      LookupMember(rooms, room);
      assert Lookup(r.rooms, room.roomId) == Some(room);
    }
  }

  /** A join by an id the room already seats changes no room at all; the
      `startGame` notice is sent again when the room is full. */
  lemma RejoinChangesNothing(rooms: seq<Room<Player>>, roomId: RoomId, username: string, avatar: string,
                             userId: PlayerId)
    requires WellFormed(rooms)
    requires userId in PlayerIds(PlayersOf(rooms, roomId))
    ensures JoinRoom(rooms, roomId, username, avatar, userId).rooms == rooms
    ensures |PlayersOf(rooms, roomId)| == 2 ==>
              JoinRoom(rooms, roomId, username, avatar, userId).events ==
                [Event(Everyone(roomId), StartGame(Lookup(rooms, roomId).value))]
  {
  }

  /** A join into a full room is dropped: nothing changes, but `startGame`
      goes out to the room once more. */
  lemma {:induction false} FullRoomDropsJoin(rooms: seq<Room<Player>>, roomId: RoomId, username: string, avatar: string,
                                             userId: PlayerId)
    requires WellFormed(rooms)
    requires |PlayersOf(rooms, roomId)| == 2
    ensures JoinRoom(rooms, roomId, username, avatar, userId).rooms == rooms
    ensures JoinRoom(rooms, roomId, username, avatar, userId).events ==
              [Event(Everyone(roomId), StartGame(Lookup(rooms, roomId).value))]
  {
    var room := Lookup(rooms, roomId).value;
    assert roomId in Ids(rooms);
    if userId !in PlayerIds(room.players) {
      PutSame(rooms, room);
    }
  }

  /** Seats go by arrival count alone: once the white player has left, the
      next newcomer is seated black too, next to the black player who stayed. */
  lemma WhiteLeavesNextJoinerIsBlack(roomId: RoomId, a: PlayerId, b: PlayerId, c: PlayerId)
    requires a != b && c != b
    ensures var s1 := JoinRoom([], roomId, "A", "", a).rooms;
            var s2 := JoinRoom(s1, roomId, "B", "", b).rooms;
            var s3 := Disconnect(s2, a, "A").rooms;
            var s4 := JoinRoom(s3, roomId, "C", "", c).rooms;
            PlayersOf(s4, roomId) == [Player(b, "B", "", Black), Player(c, "C", "", Black)]
  {
  }

  /** Once a room is closed its id is free: the next join there starts a
      fresh room with the joiner seated white. */
  lemma CloseThenJoinIsFresh(rooms: seq<Room<Player>>, roomId: RoomId, username: string, avatar: string,
                             userId: PlayerId)
    requires WellFormed(rooms)
    ensures var closed := CloseRoom(rooms, roomId).rooms;
            PlayersOf(JoinRoom(closed, roomId, username, avatar, userId).rooms, roomId) ==
              [Player(userId, username, avatar, White)]
  {
  }

  /** One client-to-server event of this variant, with the connection data
      the handler reads. */
  datatype Action =
    | JoinRoomEvent(roomId: RoomId, username: string, avatar: string, userId: PlayerId)
    | MoveEvent(room: RoomId, move: MoveData)
    | RequestPlayAgainEvent(room: RoomId)
    | AcceptPlayAgainEvent(room: RoomId)
    | DisconnectEvent(userId: PlayerId, username: string)
    | CloseRoomEvent(roomId: RoomId)

  function Apply(rooms: seq<Room<Player>>, a: Action): (r: Step<Player, Message>)
    requires WellFormed(rooms)
    ensures WellFormed(r.rooms)
    ensures a.MoveEvent? || a.RequestPlayAgainEvent? || a.AcceptPlayAgainEvent? ==> r.rooms == rooms
  {
    match a
    case JoinRoomEvent(roomId, username, avatar, userId) => JoinRoom(rooms, roomId, username, avatar, userId)
    case MoveEvent(room, move) => Move(rooms, room, move)
    case RequestPlayAgainEvent(room) => RequestPlayAgain(rooms, room)
    case AcceptPlayAgainEvent(room) => AcceptPlayAgain(rooms, room)
    case DisconnectEvent(userId, username) => Disconnect(rooms, userId, username)
    case CloseRoomEvent(roomId) => CloseRoom(rooms, roomId)
  }

  lemma ApplyKeepsInv(rooms: seq<Room<Player>>, a: Action)
    requires Inv(rooms)
    ensures Inv(Apply(rooms, a).rooms)
  {
    match a
    case JoinRoomEvent(roomId, username, avatar, userId) => JoinRoomKeepsInv(rooms, roomId, username, avatar, userId);
    case MoveEvent(_, _) =>
    case RequestPlayAgainEvent(_) =>
    case AcceptPlayAgainEvent(_) =>
    case DisconnectEvent(userId, username) => DisconnectKeepsInv(rooms, userId, username);
    case CloseRoomEvent(roomId) => CloseRoomKeepsInv(rooms, roomId);
  }

  /** The room table after the server handled `actions` in order. */
  function Run(rooms: seq<Room<Player>>, actions: seq<Action>): (r: seq<Room<Player>>)
    requires Inv(rooms)
    ensures Inv(r)
    decreases |actions|
  {
    if actions == [] then rooms
    else
      ApplyKeepsInv(rooms, actions[0]);
      Run(Apply(rooms, actions[0]).rooms, actions[1..])
  }

  /** From server start, every room of every reachable table seats one or
      two players with distinct ids. */
  lemma ReachableRoomsAreSeated(actions: seq<Action>)
    ensures forall room :: room in Run([], actions) ==>
              1 <= |room.players| <= 2 && NoDup(PlayerIds(room.players))
  {
  }
}
