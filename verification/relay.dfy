/** Vocabulary shared by both relay-server variants: rooms, the audience of an
    emitted socket event, and the move payload the server relays untouched. */
module Relay {

  datatype Option<+T> = None | Some(value: T)

  type RoomId = string
  type PlayerId = string

  /** A room record as kept in the server's room map: its id (always equal to
      the key it is stored under) and its players in join order. The player
      record differs between the two server variants, hence the parameter. */
  datatype Room<P> = Room(roomId: RoomId, players: seq<P>)

  /** Who receives an emitted event.
      Everyone     -- `io.to(room).emit`: every connection in the room's channel
      Others       -- `socket.to(room).emit`: the channel minus the sender
      Sender       -- `socket.emit`: the triggering connection only */
  datatype Audience = Everyone(room: RoomId) | Others(room: RoomId) | Sender

  datatype Event<M> = Event(to: Audience, msg: M)

  /** The room table after a handler ran, and what the handler emitted, in order. */
  datatype Step<P, M> = Step(rooms: seq<Room<P>>, events: seq<Event<M>>)

  /** The move a client sends; the server never inspects it. */
  datatype MoveData = MoveData(from: string, to: string, promotion: Option<string>)

  /** `a` is `b` with some entries dropped: what is left keeps its relative order. */
  predicate Subseq<T(==)>(a: seq<T>, b: seq<T>) {
    if b == [] then a == []
    else (a != [] && a[0] == b[0] && Subseq(a[1..], b[1..])) || Subseq(a, b[1..])
  }

  /** No value occurs twice in `s`. */
  predicate NoDup<T(==)>(s: seq<T>) {
    |s| == 0 || (s[0] !in s[1..] && NoDup(s[1..]))
  }

  lemma NoDupCons<T>(x: T, s: seq<T>)
    ensures NoDup([x] + s) <==> x !in s && NoDup(s)
  {
  }

  lemma {:induction false} NoDupSnoc<T>(s: seq<T>, x: T)
    ensures NoDup(s + [x]) <==> x !in s && NoDup(s)
  {
    if s != [] {
      assert (s + [x])[1..] == s[1..] + [x];
      NoDupSnoc(s[1..], x);
    }
  }
}
