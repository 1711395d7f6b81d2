/**
 The state the HTTP routes and socket handlers read and write, the events
 they emit, and the framework calls (commits, room joins, session writes,
 emits) through which they change it.
 */
module ChatState {
  import opened Wrappers
  import opened Rooms
  import opened Messages

  type UserId = nat

  /** One row of the `user` table. */
  datatype User = User(id: UserId, name: string, passwordHash: string, icon: Option<string>)

  /** A key of the session dictionary: absent, or present with a value. */
  datatype Slot<T> = Absent | Present(value: T)

  /** The three session keys the core uses: `user_id`, `name` and `icon`. */
  datatype Session = Session(userId: Slot<UserId>, name: Slot<string>, icon: Slot<Option<string>>) {

    /** `'user_id' in session`: the guard of every authenticated handler. */
    predicate LoggedIn() {
      userId.Present?
    }

    /** `session.get('icon')`: a missing key reads as `None`. */
    function IconOrNone(): Option<string> {
      match icon
      case Present(v) => v
      case Absent => None
    }
  }

  /** A session holding none of the three keys. */
  const EmptySession := Session(Absent, Absent, Absent)

  /** Everything the handlers touch. */
  datatype State = State(
    users: seq<User>,                 // the user table, in insertion order
    sessions: map<ConnId, Session>,   // the session of each client
    log: seq<Message>,                // the message table, in insertion order
    rooms: Registry)                  // Socket.IO room membership

  /** Before the first request: no users, sessions, messages or rooms. */
  const Init := State([], map[], [], map[])

  /** The session of client `c`; a client that never logged in has an empty one. */
  function SessionOf(st: State, c: ConnId): Session {
    if c in st.sessions then st.sessions[c] else EmptySession
  }

  /** The socket events the server emits. */
  datatype EventName =
    | NewMessage    // 'new_message'
    | BotResponse   // 'bot_response'

  /** An emitted timestamp: the formatted time, or the empty string. */
  datatype TimeField = Blank | Formatted(at: Timestamp)

  /** The dictionary carried by an event: message, timestamp, name and icon. */
  datatype Payload = Payload(message: string, timestamp: TimeField, name: string, icon: Option<string>)

  /** The reply sent to a client that is not logged in. */
  const LoginPrompt := Payload("ログインしてください", Blank, "", None)

  /** Who an emit reaches: the sender alone, or the members of a room when it is sent. */
  datatype Target = Sender(conn: ConnId) | Room(room: string, members: set<ConnId>)

  function Recipients(t: Target): set<ConnId> {
    match t
    case Sender(c) => {c}
    case Room(_, members) => members
  }

  /** One framework call, in the order a handler makes them. */
  datatype Effect =
    | AddUser(user: User)                          // db.session.add + commit of a user
    | WriteSession(conn: ConnId, session: Session) // session[...] = ... / session.pop(...)
    | Commit(msg: Message)                         // db.session.add + commit of a message
    | JoinRoom(room: string, conn: ConnId)         // join_room(room)
    | Emit(event: EventName, payload: Payload, target: Target)

  /**
   The change one framework call makes to the state: a commit appends one
   row to its table, a session write replaces one client's session, a join
   inserts one connection into one room, and an emit changes nothing.
   */
  function ApplyEffect(st: State, e: Effect): (r: State)
    ensures e.Emit? ==> r == st
    ensures e.AddUser? ==> r.users == st.users + [e.user] && r == st.(users := r.users)
    ensures e.Commit? ==> r.log == st.log + [e.msg] && r == st.(log := r.log)
    ensures e.WriteSession? ==>
              && SessionOf(r, e.conn) == e.session
              && r == st.(sessions := r.sessions)
              && (forall c :: c != e.conn ==> SessionOf(r, c) == SessionOf(st, c))
    ensures e.JoinRoom? ==> r == st.(rooms := Join(st.rooms, e.room, e.conn))
  {
    match e
    case AddUser(u) => st.(users := st.users + [u])
    case WriteSession(c, s) => st.(sessions := st.sessions[c := s])
    case Commit(m) => st.(log := st.log + [m])
    case JoinRoom(room, c) => st.(rooms := Join(st.rooms, room, c))
    case Emit(_, _, _) => st
  }

  /**
   The state after making the calls `es` in order. No call removes or edits
   a row: both tables only grow, and a room never loses a member.
   */
  function Replay(st: State, es: seq<Effect>): (r: State)
    ensures |r.users| >= |st.users| && r.users[..|st.users|] == st.users
    ensures |r.log| >= |st.log| && r.log[..|st.log|] == st.log
    ensures forall room :: Members(st.rooms, room) <= Members(r.rooms, room)
    decreases |es|
  {
    if |es| == 0 then st else Replay(ApplyEffect(st, es[0]), es[1..])
  }

  /** Replaying one more call continues from where the prefix left off. */
  lemma {:induction false} ReplaySnoc(st: State, es: seq<Effect>, e: Effect)
    ensures Replay(st, es + [e]) == ApplyEffect(Replay(st, es), e)
    decreases |es|
  {
    if |es| > 0 {
      assert (es + [e])[1..] == es[1..] + [e];
      ReplaySnoc(ApplyEffect(st, es[0]), es[1..], e);
    }
  }

  /** `p` announces message `m`: same text, time, author name and icon. */
  predicate Announces(p: Payload, m: Message) {
    p.message == m.message && p.timestamp == Formatted(m.timestamp)
    && p.name == m.userName && p.icon == m.userIcon
  }

  /**
   Persist before broadcast: each room emit in `es` comes after a commit made
   by the same calls; it announces the message committed last, goes to that
   message's thread room, and reaches exactly the room's members at that
   point.
   */
  ghost predicate PersistedBeforeBroadcast(st: State, es: seq<Effect>) {
    forall k :: 0 <= k < |es| && es[k].Emit? && es[k].target.Room? ==>
      var before := Replay(st, es[..k]);
      && |before.log| > |st.log|
      && Announces(es[k].payload, before.log[|before.log| - 1])
      && es[k].target.room == RoomName(before.log[|before.log| - 1].threadId)
      && es[k].target.members == Members(before.rooms, es[k].target.room)
  }

  /** What a route returns to the browser; socket handlers return nothing. */
  datatype Reply =
    | NoReply
    | RedirectTo(page: Page)
    | Body(text: string)
    | KeyError    // a missing session key raised before any call was made
    | Overflow    // the commit raised: a value did not fit its INTEGER column

  datatype Page = LoginPage | IndexPage

  /** The result of one request or event: new state, calls made, reply. */
  datatype Outcome = Outcome(state: State, effects: seq<Effect>, reply: Reply)

  /** The events a step emits, with their recipients, in order. */
  function Emitted(es: seq<Effect>): seq<(EventName, Payload, set<ConnId>)> {
    if |es| == 0 then []
    else
      var rest := Emitted(es[1..]);
      if es[0].Emit? then [(es[0].event, es[0].payload, Recipients(es[0].target))] + rest else rest
  }
}
