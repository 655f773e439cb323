/** The server's room map as an insertion-ordered table. A JavaScript `Map`
    iterates its entries in the order their keys were first set; `set` on a
    present key replaces the value in place and `delete` drops one entry. The
    table is a sequence of rooms whose ids (the keys) are pairwise distinct. */
module Registry {
  import opened Relay

  /** The keys of the table, in insertion order. */
  function Ids<P>(rooms: seq<Room<P>>): (ids: seq<RoomId>)
    ensures |ids| == |rooms|
  {
    if rooms == [] then [] else [rooms[0].roomId] + Ids(rooms[1..])
  }

  lemma {:induction false} IdsAt<P>(rooms: seq<Room<P>>, i: nat)
    requires i < |rooms|
    ensures Ids(rooms)[i] == rooms[i].roomId
  {
    if i > 0 {
      IdsAt(rooms[1..], i - 1);
    }
  }

  /** The table really is a map: no key is stored twice. */
  predicate WellFormed<P>(rooms: seq<Room<P>>) {
    NoDup(Ids(rooms))
  }

  /** A well-formed table is a first key absent from a well-formed rest. */
  lemma WellFormedCons<P>(rooms: seq<Room<P>>)
    requires rooms != []
    ensures WellFormed(rooms) <==> rooms[0].roomId !in Ids(rooms[1..]) && WellFormed(rooms[1..])
  {
  }

  /** `rooms.get(id)`: the room stored under `id`, if any. */
  function Lookup<P>(rooms: seq<Room<P>>, id: RoomId): (r: Option<Room<P>>)
    ensures r.Some? <==> id in Ids(rooms)
    ensures r.Some? ==> r.value in rooms && r.value.roomId == id
  {
    if rooms == [] then None
    else if rooms[0].roomId == id then Some(rooms[0])
    else Lookup(rooms[1..], id)
  }

  /** The players of room `id`; a room the table does not hold has none. */
  function PlayersOf<P>(rooms: seq<Room<P>>, id: RoomId): seq<P> {
    match Lookup(rooms, id)
    case Some(room) => room.players
    case None => []
  }

  /** The room at position `i` of a well-formed table is what `get` returns for its key. */
  lemma {:induction false} LookupAt<P>(rooms: seq<Room<P>>, i: nat)
    requires WellFormed(rooms)
    requires i < |rooms|
    ensures Lookup(rooms, rooms[i].roomId) == Some(rooms[i])
  {
    if i > 0 {
      var tail := rooms[1..];
      assert tail[i - 1] == rooms[i];
      IdsAt(tail, i - 1);
      assert rooms[0].roomId !in Ids(tail);
      assert Lookup(rooms, rooms[i].roomId) == Lookup(tail, rooms[i].roomId);
      LookupAt(tail, i - 1);
    }
  }

  /** `rooms.set(room.roomId, room)`: a present key keeps its position and
      gets the new value; an absent key is appended at the end. */
  function Put<P>(rooms: seq<Room<P>>, room: Room<P>): (r: seq<Room<P>>)
    ensures Lookup(r, room.roomId) == Some(room)
    ensures forall id :: id != room.roomId ==> Lookup(r, id) == Lookup(rooms, id)
  {
    if rooms == [] then [room]
    else if rooms[0].roomId == room.roomId then
      var r := [room] + rooms[1..];
      assert r[1..] == rooms[1..];
      r
    else
      var r := [rooms[0]] + Put(rooms[1..], room);
      assert r[1..] == Put(rooms[1..], room);
      r
  }

  /** Any room of a well-formed table is what `get` returns for its key. */
  lemma LookupMember<P>(rooms: seq<Room<P>>, room: Room<P>)
    requires WellFormed(rooms)
    requires room in rooms
    ensures Lookup(rooms, room.roomId) == Some(room)
  {
    var i :| 0 <= i < |rooms| && rooms[i] == room;
    LookupAt(rooms, i);
  }

  /** `set` keeps the insertion order of the keys and appends a new key. */
  lemma {:induction false} PutIds<P>(rooms: seq<Room<P>>, room: Room<P>)
    ensures Ids(Put(rooms, room)) == if room.roomId in Ids(rooms) then Ids(rooms) else Ids(rooms) + [room.roomId]
  {
    if rooms != [] {
      var tail := rooms[1..];
      var r := Put(rooms, room);
      assert Ids(rooms) == [rooms[0].roomId] + Ids(tail);
      if rooms[0].roomId != room.roomId {
        assert r == [rooms[0]] + Put(tail, room);
        assert r[1..] == Put(tail, room);
        assert Ids(r) == [rooms[0].roomId] + Ids(Put(tail, room));
        assert room.roomId in Ids(rooms) <==> room.roomId in Ids(tail);
        PutIds(tail, room);
      } else {
        assert r[1..] == tail;
        assert Ids(r) == [room.roomId] + Ids(tail);
      }
    }
  }

  lemma PutKeepsWellFormed<P>(rooms: seq<Room<P>>, room: Room<P>)
    requires WellFormed(rooms)
    ensures WellFormed(Put(rooms, room))
  {
    PutIds(rooms, room);
    if room.roomId !in Ids(rooms) {
      NoDupSnoc(Ids(rooms), room.roomId);
    }
  }

  /** Storing the value already stored under a key changes nothing. */
  lemma {:induction false} PutSame<P>(rooms: seq<Room<P>>, room: Room<P>)
    requires WellFormed(rooms)
    requires Lookup(rooms, room.roomId) == Some(room)
    ensures Put(rooms, room) == rooms
  {
    if rooms[0].roomId != room.roomId {
      WellFormedCons(rooms);
      PutSame(rooms[1..], room);
    }
  }

  /** `rooms.delete(id)`: drops the entry for `id`, if any; the other entries
      keep their values and their relative order. */
  function Delete<P>(rooms: seq<Room<P>>, id: RoomId): (r: seq<Room<P>>)
    ensures WellFormed(rooms) ==> WellFormed(r)
    ensures Lookup(r, id) == None
    ensures forall k :: k != id ==> Lookup(r, k) == Lookup(rooms, k)
    ensures forall k :: k in Ids(r) <==> k in Ids(rooms) && k != id
    ensures id !in Ids(rooms) ==> r == rooms
    ensures Subseq(r, rooms)
  {
    if rooms == [] then []
    else
      WellFormedCons(rooms);
      var rest := Delete(rooms[1..], id);
      if rooms[0].roomId == id then rest
      else
        var r := [rooms[0]] + rest;
        assert r[1..] == rest;
        WellFormedCons(r);
        if id !in Ids(rooms) then
          assert rooms == [rooms[0]] + rooms[1..];
          r
        else r
  }

  /** Deleting the key at position `i` removes exactly that entry. */
  lemma {:induction false} DeleteRemovesEntry<P>(rooms: seq<Room<P>>, i: nat)
    requires WellFormed(rooms)
    requires i < |rooms|
    ensures Delete(rooms, rooms[i].roomId) == rooms[..i] + rooms[i + 1..]
  {
    var id := rooms[i].roomId;
    var tail := rooms[1..];
    assert WellFormed(tail) && rooms[0].roomId !in Ids(tail) by {
      WellFormedCons(rooms);
    }
    if i == 0 {
      assert rooms[..0] + rooms[1..] == tail;
    } else {
      assert tail[i - 1] == rooms[i];
      assert rooms[0].roomId != id by {
        IdsAt(tail, i - 1);
      }
      assert Delete(rooms, id) == [rooms[0]] + Delete(tail, id);
      DeleteRemovesEntry(tail, i - 1);
      SpliceCons(rooms, i);
    }
  }

  lemma SpliceCons<T>(s: seq<T>, i: nat)
    requires 0 < i < |s|
    ensures [s[0]] + (s[1..][..i - 1] + s[1..][i..]) == s[..i] + s[i + 1..]
  {
  }
}
