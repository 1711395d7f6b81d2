/**
 The room registry: Socket.IO rooms named after threads, each holding the
 set of connections that joined it.
 */
module Rooms {
  import opened Wrappers
  import Decimal

  /** A live socket connection (Socket.IO session id). */
  type ConnId = nat

  /** Room name to member connections; a room exists once someone joined it. */
  type Registry = map<string, set<ConnId>>

  const RoomPrefix: string := "thread_"

  /** The room of a thread: `thread_` followed by the thread id in decimal. */
  function RoomName(threadId: int): (r: string)
    ensures |r| > |RoomPrefix| && r[..|RoomPrefix|] == RoomPrefix
  {
    RoomPrefix + Decimal.IntToDecimal(threadId)
  }

  /** Recovers the thread id from a room name; `None` for any other string. */
  function ThreadOfRoom(room: string): Option<int> {
    if |room| >= |RoomPrefix| && room[..|RoomPrefix|] == RoomPrefix
    then Decimal.ParseInt(room[|RoomPrefix|..])
    else None
  }

  /** The room name encodes the thread id without loss. */
  lemma RoomNameRoundTrip(threadId: int)
    ensures ThreadOfRoom(RoomName(threadId)) == Some(threadId)
  {
    assert RoomName(threadId)[|RoomPrefix|..] == Decimal.IntToDecimal(threadId);
    Decimal.IntDecimalRoundTrip(threadId);
  }

  /** Two threads share a room exactly when they are the same thread. */
  lemma RoomNameInjective(a: int, b: int)
    ensures RoomName(a) == RoomName(b) <==> a == b
  {
    RoomNameRoundTrip(a);
    RoomNameRoundTrip(b);
  }

  /** The connections in `room`; a room nobody joined is empty. */
  function Members(rooms: Registry, room: string): set<ConnId> {
    if room in rooms then rooms[room] else {}
  }

  /** `join_room(room)` for connection `c`: set insertion into that room only. */
  function Join(rooms: Registry, room: string, c: ConnId): (r: Registry)
    ensures Members(r, room) == Members(rooms, room) + {c}
    ensures forall other :: other != room ==> Members(r, other) == Members(rooms, other)
    ensures r.Keys == rooms.Keys + {room}
  {
    rooms[room := Members(rooms, room) + {c}]
  }

  /** Joining a room twice leaves the registry as joining once. */
  lemma JoinIdempotent(rooms: Registry, room: string, c: ConnId)
    ensures Join(Join(rooms, room, c), room, c) == Join(rooms, room, c)
  {
  }

  /** Joining a room one already belongs to changes nothing. */
  lemma JoinMemberIsNoop(rooms: Registry, room: string, c: ConnId)
    requires room in rooms && c in rooms[room]
    ensures Join(rooms, room, c) == rooms
  {
    assert rooms[room] + {c} == rooms[room];
  }
}
