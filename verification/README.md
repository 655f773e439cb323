# Chess relay server: room registry and socket handlers

This project models the server side of a two-player chess application. The
server does not know chess. It keeps an in-memory map of rooms, seats players
in them, and relays moves and notices between the two clients of a room. The
repository ships two variants of the server:

- `server/index.js` joins by room id. A client names the room it wants and
  sends a user id. The first id in a room is seated white and the second black.
  The handlers are `joinRoom`, `requestPlayAgain`, `acceptPlayAgain`, `move`,
  `disconnect` and `closeRoom`.
- `server/server.js` does matchmaking. A client sends only a display name. The
  server pairs it with the first room, in insertion order, where one player
  waits. If no room waits, it opens a room under a fresh UUID. The handlers are
  `username`, `move`, `disconnect` and `closeRoom`.

Every socket handler is modelled as a pure step. It takes the room table plus
the handler's input and returns the new table plus the events it emitted, in
order. An event is a message together with its audience:

- `Everyone(room)` stands for `io.to(room)`.
- `Others(room)` stands for `socket.to(room)`.
- `Sender` stands for `socket.emit`.

Both servers keep their rooms in a JavaScript `Map`. A `Map` iterates in key
insertion order. The order matters in both variants: matchmaking picks the
*first* waiting room, and `disconnect` emits one notice per room in map order.
So the `Registry` module models the map as an insertion-ordered sequence of
rooms with distinct ids:

- `Lookup` is `get`.
- `Put` is `set`: a present key stays in place and an absent key is appended.
- `Delete` is `delete`.

Files:

- `relay.dfy` (module `Relay`): shared vocabulary. It defines rooms, audiences, events, the result of a handler step, the move payload, duplicate-freedom and order-keeping sub-sequences.
- `registry.dfy` (module `Registry`): the insertion-ordered map and its laws.
- `join_by_room_id.dfy` (module `JoinByRoomId`): the handlers of `server/index.js`.
- `join_by_room_id_props.dfy` (module `JoinByRoomIdProps`): seating properties, disconnect properties and the table invariant for that variant, including the invariant over any run of events.
- `matchmaking.dfy` (module `Matchmaking`): the handlers of `server/server.js`.
- `matchmaking_props.dfy` (module `MatchmakingProps`): matchmaking properties and the table invariant, including the invariant over any run of events.

Each handler reads some per-connection data. This data becomes a handler
parameter:

- In `server/index.js`, `socket.data.user_id` and `socket.data.username` are recorded by the connection's last `joinRoom`.
- In `server/server.js`, it is `socket.id`.

The UUID that `username` draws when no room waits is also a parameter, with the
precondition that the table does not hold it yet.

## Model

| member | source | states |
|---|---|---|
| `Registry.Lookup` | server/index.js:33 | `rooms.get(id)` finds a room exactly when `id` is a key, and the room found is stored under that id |
| `Registry.LookupAt` | server/index.js:33 | in a well-formed table, `get` on the key at position `i` returns the room at position `i` |
| `Registry.LookupMember` | server/server.js:59 | every room of a well-formed table is what `get` returns for its key |
| `Registry.Put` | server/index.js:52 | after `rooms.set(id, room)`, `get(id)` returns `room` and every other key maps to what it mapped to before |
| `Registry.PutIds` | server/server.js:52-55 | `set` keeps the keys in insertion order: a present key keeps its place and a new key is appended last |
| `Registry.PutKeepsWellFormed` | server/index.js:30 | `set` never stores a key twice |
| `Registry.PutSame` | server/index.js:52 | writing back the room already stored under a key leaves the table unchanged |
| `Registry.Delete` | server/index.js:114 | `rooms.delete(id)` removes `id`, keeps every other key with its room and the remaining rooms in their original order, keeps the table duplicate-free, and is a no-op for an absent key |
| `Registry.DeleteRemovesEntry` | server/index.js:90 | deleting the key at position `i` removes exactly that entry and keeps the order of the rest |
| `JoinByRoomId.SeatFor` | server/index.js:37-42 | a seat is offered exactly when fewer than two players are seated |
| `JoinByRoomId.Admit` | server/index.js:36-53 | a present id or a room of two or more is left as it is; otherwise the newcomer is appended, seated white on an empty room and black on a one-player room |
| `JoinByRoomId.JoinRoom` | server/index.js:24-60 | an absent room id is first created empty, then seated; no other room changes; a new id is appended with white on an empty room and black on a one-player room; a present id or a full room leaves the list as it was; `startGame` goes to the whole room exactly when it then holds two players |
| `JoinByRoomId.FindIndex` | server/index.js:79-81 | the result is the position of the first player holding the id, or none when no player holds it |
| `JoinByRoomId.Leave` | server/index.js:84-86 | an id nobody holds leaves the list unchanged; otherwise the list loses exactly one player |
| `JoinByRoomId.Vacate` | server/index.js:79-94 | a room is deleted exactly when it was empty or the departing id was its only player; a surviving room keeps its id, is unchanged when it did not seat the id, and otherwise loses one player |
| `JoinByRoomId.Disconnect` | server/index.js:75-96 | each room loses the departing id's first player and is deleted if left empty; no room is created; the surviving keys keep their relative map order; every surviving room, in that order, and only those, is sent `playerDisconnected` with the recorded username |
| `JoinByRoomId.CloseRoom` | server/index.js:98-117 | a present room is told it closes and is deleted, and the other rooms are unchanged and stay in their original order; an unknown id changes nothing and emits nothing |
| `JoinByRoomId.Move` | server/index.js:71-73 | the move goes to the rest of the room and the table is untouched |
| `JoinByRoomId.RequestPlayAgain` | server/index.js:62-64 | the request goes to the rest of the room and the table is untouched |
| `JoinByRoomId.AcceptPlayAgain` | server/index.js:67-69 | the acceptance goes to the whole room; nothing is reset and the table is untouched |
| `JoinByRoomIdProps.LeaveIsSplice` | server/index.js:79-86 | `Leave` equals `splice(findIndex(...), 1)`: the list minus the first player with the id, in order; unchanged when `findIndex` gives -1 |
| `JoinByRoomIdProps.LeaveRemovesId` | server/index.js:84-86 | when ids are distinct, the departing id is gone afterwards, every other player stays, and ids remain distinct |
| `JoinByRoomIdProps.JoinRoomKeepsInv` | server/index.js:29-53 | a join keeps every room at one or two players with distinct ids |
| `JoinByRoomIdProps.DisconnectKeepsInv` | server/index.js:78-95 | a disconnect keeps every room at one or two players with distinct ids, because a room it empties is deleted |
| `JoinByRoomIdProps.CloseRoomKeepsInv` | server/index.js:100-116 | closing a room keeps the invariant of every other room |
| `JoinByRoomIdProps.DisconnectClearsDeparter` | server/index.js:76-95 | after a disconnect, the departing id sits in no room, and every room that did not seat it is still in the table unchanged |
| `JoinByRoomIdProps.RejoinChangesNothing` | server/index.js:36-59 | a join by an id already in the room changes no room, and re-emits `startGame` when the room is full |
| `JoinByRoomIdProps.FullRoomDropsJoin` | server/index.js:37-59 | a join into a two-player room changes nothing, but `startGame` goes out again |
| `JoinByRoomIdProps.WhiteLeavesNextJoinerIsBlack` | server/index.js:37-42 | seats go by count alone: after white leaves, the next newcomer is also seated black |
| `JoinByRoomIdProps.CloseThenJoinIsFresh` | server/index.js:29-51 | after `closeRoom`, the next join to that id starts a fresh room with the joiner seated white |
| `JoinByRoomIdProps.Apply` | server/index.js:22-118 | every handler keeps the table a map, with no key stored twice, and `move`, `requestPlayAgain` and `acceptPlayAgain` leave it unchanged |
| `JoinByRoomIdProps.ApplyKeepsInv` | server/index.js:22-118 | every handler keeps every room at one or two players with distinct ids |
| `JoinByRoomIdProps.Run` | server/index.js:22-118 | any sequence of events, started from a table meeting the invariant, yields a table meeting it |
| `JoinByRoomIdProps.ReachableRoomsAreSeated` | server/index.js:16-117 | from the empty map at start-up, every reachable room seats one or two players with distinct ids |
| `Matchmaking.FirstWaiting` | server/server.js:41-48 | the search loop finds the first room, in insertion order, holding exactly one player, or none when no room does |
| `Matchmaking.Username` | server/server.js:37-70 | the caller is appended to the first waiting room or to a fresh room under the new id; the keys stay the same or gain the new id at the end; no other room changes; the caller gets `roomJoined`, and `startGame` goes to the whole room exactly when it then holds two players |
| `Matchmaking.Find` | server/server.js:82 | `find` returns a record of the socket from the list, and returns nothing exactly when no record has the socket id |
| `Matchmaking.FindFirst` | server/server.js:82 | the record `find` returns is the socket's first one in the list |
| `Matchmaking.Listing` | server/server.js:82-84 | every room in the listing holds a record of the socket |
| `Matchmaking.ListingMembers` | server/server.js:82-84 | a room is listed exactly when it is in the table and holds a record of the socket |
| `Matchmaking.Disconnect` | server/server.js:77-95 | a disconnect creates no room, and the rooms it keeps are original rooms, unchanged and in their original map order |
| `Matchmaking.DisconnectKeepsLists` | server/server.js:81-89 | a room is deleted exactly when it lists the socket and has fewer than two players; every other room stays with its player list unchanged |
| `Matchmaking.DisconnectNotices` | server/server.js:81-93 | every surviving room that lists the socket, and only those, gets one `playerDisconnected` carrying the socket's first record, in table order |
| `Matchmaking.CloseRoom` | server/server.js:97-109 | the room is told it closes and its id is deleted whether or not it existed; the other rooms are unchanged and stay in their original order |
| `Matchmaking.Move` | server/server.js:72-75 | the move goes to the rest of the room and the table is untouched |
| `MatchmakingProps.UsernameKeepsInv` | server/server.js:41-61 | a `username` keeps every room at one or two players with at most one room waiting |
| `MatchmakingProps.MatchedKeepsInv` | server/server.js:43-61 | when a room waits, the join fills it to two and leaves no room waiting |
| `MatchmakingProps.OpenedKeepsInv` | server/server.js:50-61 | when no room waits, the fresh room with its single player becomes the only waiting room |
| `MatchmakingProps.DisconnectKeepsInv` | server/server.js:81-93 | a disconnect only deletes rooms, so it keeps the invariant |
| `MatchmakingProps.CloseRoomKeepsInv` | server/server.js:107 | closing a room keeps the invariant |
| `MatchmakingProps.FullRoomKeptOnDisconnect` | server/server.js:84-92 | a two-player room listing the socket survives with the departed player still listed, and is sent that player's record |
| `MatchmakingProps.SocketMatchedWithItself` | server/server.js:43-69 | with no identity check, a socket whose own room waits first is paired with itself, fills both seats, and `startGame` follows |
| `MatchmakingProps.OpenedRoomIsFirstWaiting` | server/server.js:50-61 | a room opened when none waits holds just the caller, and it is the room the next `username` picks |
| `MatchmakingProps.WaitingRoomIsFirst` | server/server.js:43-48 | when no other room waits, the search finds the waiting room |
| `MatchmakingProps.CloseRoomIdempotent` | server/server.js:107 | closing a room twice leaves the same table as closing it once |
| `MatchmakingProps.Apply` | server/server.js:34-110 | every handler keeps the table a map, with no key stored twice |
| `MatchmakingProps.ApplyKeepsInv` | server/server.js:34-110 | every handler, given a fresh id when it draws one, keeps every room at one or two players with at most one room waiting |
| `MatchmakingProps.Run` | server/server.js:34-110 | any sequence of events that draws fresh ids, started from a table meeting the invariant, yields a table meeting it |
| `MatchmakingProps.ReachableTablesPairUp` | server/server.js:28-109 | from the empty map at start-up, every reachable room holds one or two players and at most one room waits |

## Left out

- HTTP server setup: Express, `http.createServer`, CORS and `listen`. This is I/O plumbing with no effect on the room table.
- Socket.io channels (`socket.join`, `leave`, `io.in(...).fetchSockets()`). These are library state. A broadcast is modelled as an event addressed to a room id plus an audience kind, so who is actually subscribed to a channel is not modelled. This also means the `closeRoom` eviction of sockets from the channel does not appear in the model.
- The `await` points inside `joinRoom`, `username` and `closeRoom`. Each handler is one atomic step, so interleavings of concurrent handlers are not modelled.
- All `console.log` output.
- `uuidV4()`: the caller supplies the id it would draw. `Matchmaking.Username` requires that id to be absent from the table only when no room waits, since only then is one drawn. `MatchmakingProps.Admissible` states the same for each event of a sequence.
- The falsy-id test `if (!roomId)` in `username` is modelled as "no room waits". A waiting room whose id is the empty string would also fail that test, but ids come from `uuidV4()`, which never yields an empty string.
- JavaScript's `undefined` is not a separate value in the model. A `joinRoom` whose payload lacks `user_id` seats a player whose id is one fixed string standing for `undefined`. A connection that never joined disconnects with that same id, so its `disconnect` removes such a player, as `findIndex(p => p.id === undefined)` does in the source. Rooms that do not seat that id are left unchanged, and every surviving room is still notified. Also in `server/index.js`, `user_id` and `username` are whatever the connection's last `joinRoom` recorded, so they are handler parameters.
- The `closeRoom` payload is echoed back to the room whole. The model carries only its `roomId`.
- The `move` payload `data.move` is relayed untouched, and the model carries it as an uninterpreted move record. `requestPlayAgain` and `acceptPlayAgain` send `playAgainRequest` and `playAgainAccepted` with no payload; their `{ room }` argument only addresses the room.
- The client (React UI, the chess.js move and game-over checks, the client's seat-index rule, the socket configuration). These are UI code and an external library.
- A turn clock, `currentTurn`, remaining-time bookkeeping, a server-side turn flip and a rematch reset. Neither server file implements them, and the model follows the code: `acceptPlayAgain` only emits, and `move` only relays.
- `Matchmaking.Disconnect`: its own contract states only that no room is created and that the kept rooms are original rooms in their original order. Which rooms it keeps is stated in `Matchmaking.DisconnectKeepsLists`, and its events in `Matchmaking.DisconnectNotices`. These are separate lemmas so that each proof stays small.
- `Matchmaking.Listing`: its own contract states only that every listed room holds the socket. Membership in both directions is `Matchmaking.ListingMembers`.
