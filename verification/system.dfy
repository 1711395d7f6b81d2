/**
 The whole application as a sequential state machine: every request or
 socket event is one step, and the invariants below hold in every state
 reachable from the empty start.
 */
module System {
  import opened Wrappers
  import opened Rooms
  import opened Messages
  import opened ChatState
  import opened Accounts
  import opened Relay

  /** One HTTP request or socket event handled by the core. */
  datatype Action =
    | RegisterUser(name: string, passwordHash: string, upload: Option<IconFile>)
    | LoginUser(client: ConnId, name: string, password: string)
    | LogoutUser(client: ConnId)
    | SendMessage(client: ConnId, threadId: int, text: string, now: Timestamp)
    | SendBotMessage(client: ConnId, text: string, now: Timestamp)

  /** The collaborators the core calls but does not implement. */
  datatype Env = Env(checkPassword: (string, string) -> bool, complete: string -> string)

  /**
   Dispatches an action to its route or handler. Whatever the action, the
   new state is exactly what its framework calls, replayed in order, produce.
   */
  function Step(st: State, a: Action, env: Env): (r: Outcome)
    ensures Replay(st, r.effects) == r.state
  {
    match a
    case RegisterUser(name, hash, upload) => Register(st, name, hash, upload)
    case LoginUser(c, name, pw) => Login(st, c, name, pw, env.checkPassword)
    case LogoutUser(c) => Logout(st, c)
    case SendMessage(c, t, text, now) => HandleMessage(st, c, t, text, now)
    case SendBotMessage(c, text, now) => HandleBotMessage(st, c, text, now, env.complete)
  }

  /** The state after handling `actions` one after another. */
  function Run(st: State, actions: seq<Action>, env: Env): State
    decreases |actions|
  {
    if |actions| == 0 then st else Run(Step(st, actions[0], env).state, actions[1..], env)
  }

  /**
   A session is either empty or holds all three keys, for an existing user,
   with that user's name and icon.
   */
  ghost predicate SessionValid(users: seq<User>, s: Session) {
    s == EmptySession
    || (&& s.userId.Present? && s.name.Present? && s.icon.Present?
        && 1 <= s.userId.value <= |users|
        && users[s.userId.value - 1].name == s.name.value
        && users[s.userId.value - 1].icon == s.icon.value)
  }

  /** The invariant of every reachable state. */
  ghost predicate Inv(st: State) {
    // user and message ids are the row numbers, starting at 1
    && (forall i :: 0 <= i < |st.users| ==> st.users[i].id == i + 1)
    && (forall i :: 0 <= i < |st.log| ==> st.log[i].id == i + 1)
    // user names are unique
    && NamesUnique(st.users)
    // sessions are all-or-nothing and name a real user
    && (forall c :: c in st.sessions ==> SessionValid(st.users, st.sessions[c]))
    // every message was written under the name of a registered user
    && (forall i :: 0 <= i < |st.log| ==> NameTaken(st.users, st.log[i].userName))
  }

  lemma InitInv()
    ensures Inv(Init)
  {
  }

  /** Adding a user keeps every existing session and author valid. */
  lemma SessionValidGrows(users: seq<User>, u: User, s: Session)
    requires SessionValid(users, s)
    ensures SessionValid(users + [u], s)
  {
    if s != EmptySession {
      assert (users + [u])[s.userId.value - 1] == users[s.userId.value - 1];
    }
  }

  lemma NameTakenGrows(users: seq<User>, u: User, name: string)
    requires NameTaken(users, name)
    ensures NameTaken(users + [u], name)
  {
    var i :| 0 <= i < |users| && users[i].name == name;
    assert (users + [u])[i].name == name;
  }

  lemma RegisterKeepsInv(st: State, name: string, hash: string, upload: Option<IconFile>)
    requires Inv(st)
    ensures Inv(Register(st, name, hash, upload).state)
  {
    var st' := Register(st, name, hash, upload).state;
    if !NameTaken(st.users, name) {
      var u := st'.users[|st.users|];
      assert st'.users == st.users + [u];
      forall c | c in st'.sessions
        ensures SessionValid(st'.users, st'.sessions[c])
      {
        SessionValidGrows(st.users, u, st.sessions[c]);
      }
      forall i | 0 <= i < |st'.log|
        ensures NameTaken(st'.users, st'.log[i].userName)
      {
        NameTakenGrows(st.users, u, st.log[i].userName);
      }
    }
  }

  lemma LoginKeepsInv(st: State, c: ConnId, name: string, pw: string, check: (string, string) -> bool)
    requires Inv(st)
    ensures Inv(Login(st, c, name, pw, check).state)
  {
  }

  /** Under the invariant a logged-in session carries its name, so the send cannot raise. */
  lemma LoggedInHasName(st: State, c: ConnId)
    requires Inv(st) && SessionOf(st, c).LoggedIn()
    ensures SessionOf(st, c).name.Present?
    ensures NameTaken(st.users, SessionOf(st, c).name.value)
  {
    var s := SessionOf(st, c);
    assert c in st.sessions;
    assert SessionValid(st.users, s);
    assert st.users[s.userId.value - 1].name == s.name.value;
  }

  lemma HandleMessageKeepsInv(st: State, c: ConnId, t: int, text: string, now: Timestamp)
    requires Inv(st)
    ensures Inv(HandleMessage(st, c, t, text, now).state)
  {
    if SessionOf(st, c).LoggedIn() {
      LoggedInHasName(st, c);
    }
  }

  /** Every step keeps the invariant. */
  lemma StepKeepsInv(st: State, a: Action, env: Env)
    requires Inv(st)
    ensures Inv(Step(st, a, env).state)
  {
    match a
    case RegisterUser(name, hash, upload) => RegisterKeepsInv(st, name, hash, upload);
    case LoginUser(c, name, pw) => LoginKeepsInv(st, c, name, pw, env.checkPassword);
    case LogoutUser(c) =>
    case SendMessage(c, t, text, now) => HandleMessageKeepsInv(st, c, t, text, now);
    case SendBotMessage(c, text, now) =>
  }

  /** Every state reachable from the start satisfies the invariant; in particular user names stay unique. */
  lemma {:induction false} RunKeepsInv(st: State, actions: seq<Action>, env: Env)
    requires Inv(st)
    ensures Inv(Run(st, actions, env))
    ensures NamesUnique(Run(st, actions, env).users)
    decreases |actions|
  {
    if |actions| > 0 {
      StepKeepsInv(st, actions[0], env);
      RunKeepsInv(Step(st, actions[0], env).state, actions[1..], env);
    }
  }

  /**
   In a reachable state a `send_message` never fails on a missing session
   key: it raises only when the thread id overflows its column.
   */
  lemma {:induction false} ReachableSendNeverRaises(actions: seq<Action>, env: Env, c: ConnId, t: int, text: string, now: Timestamp)
    ensures HandleMessage(Run(Init, actions, env), c, t, text, now).reply
            == if !FitsInteger(t) && SessionOf(Run(Init, actions, env), c).LoggedIn() then Overflow else NoReply
  {
    InitInv();
    RunKeepsInv(Init, actions, env);
    var st := Run(Init, actions, env);
    if SessionOf(st, c).LoggedIn() {
      LoggedInHasName(st, c);
    }
  }

  /**
   No write without authentication: a step that changes the message table or
   the rooms is a `send_message` from a logged-in client, and it adds exactly
   that client to exactly that thread's room.
   */
  lemma NoWriteWithoutLogin(st: State, a: Action, env: Env)
    ensures var st' := Step(st, a, env).state;
            st'.log != st.log || st'.rooms != st.rooms ==>
              && a.SendMessage?
              && SessionOf(st, a.client).LoggedIn()
              && st'.rooms == Join(st.rooms, RoomName(a.threadId), a.client)
  {
  }

  /** The log only grows: no step edits or removes a stored message. */
  lemma StepAppendsOnly(st: State, a: Action, env: Env)
    ensures var st' := Step(st, a, env).state;
            |st'.log| >= |st.log| && st'.log[..|st.log|] == st.log
  {
  }

  /** The bot path never changes the message table or the rooms. */
  lemma BotLeavesLogAndRooms(st: State, c: ConnId, text: string, now: Timestamp, env: Env)
    ensures var st' := Step(st, SendBotMessage(c, text, now), env).state;
            st'.log == st.log && st'.rooms == st.rooms
  {
  }

  /** In every step, a room broadcast follows the commit of the message it announces. */
  lemma StepPersistsBeforeBroadcast(st: State, a: Action, env: Env)
    ensures PersistedBeforeBroadcast(st, Step(st, a, env).effects)
  {
    match a
    case SendMessage(c, t, text, now) =>
    case RegisterUser(_, _, _) =>
    case LoginUser(_, _, _) =>
    case LogoutUser(_) =>
    case SendBotMessage(c, _, _) =>
      var es := Step(st, a, env).effects;
      assert !es[0].target.Room?;
  }

  /** After registering and logging in, client 1 holds Alice's session and nothing else exists yet. */
  lemma AliceLogsIn(hash: string, env: Env)
    requires env.checkPassword(hash, "pw")
    ensures var st0 := Run(Init, [RegisterUser("alice", hash, None), LoginUser(1, "alice", "pw")], env);
            && st0.log == [] && st0.rooms == map[]
            && SessionOf(st0, 1) == Session(Present(1), Present("alice"), Present(None))
  {
    var acts := [RegisterUser("alice", hash, None), LoginUser(1, "alice", "pw")];
    var st1 := Register(Init, "alice", hash, None).state;
    var st0 := Login(st1, 1, "alice", "pw", env.checkPassword).state;
    assert Run(Init, acts, env) == Run(st1, acts[1..], env);
    assert acts[1..][1..] == [];
    assert Run(Init, acts, env) == st0;
    assert st1.users == [User(1, "alice", hash, None)];
    assert FindByName(st1.users, "alice") == Some(User(1, "alice", hash, None));
  }

  /** The first message of a fresh system reaches its sender alone and is the whole history of its thread. */
  lemma FirstMessageAlone(st: State, c: ConnId, t: int, text: string, now: Timestamp, name: string)
    requires st.log == [] && st.rooms == map[] && FitsInteger(t)
    requires SessionOf(st, c) == Session(Present(c), Present(name), Present(None))
    ensures var r := HandleMessage(st, c, t, text, now);
            && Emitted(r.effects) == [(NewMessage, Payload(text, Formatted(now), name, None), {c})]
            && ThreadHistory(r.state.log, t) == [Message(1, text, now, name, None, t)]
  {
    var r := HandleMessage(st, c, t, text, now);
    var m := Message(1, text, now, name, None, t);
    assert r.state.log == [m] by {
      assert [m][..0] == [];
    }
    var es := r.effects;
    assert es[1].JoinRoom?;
    assert Members(r.state.rooms, RoomName(t)) == {c};
    assert Emitted(es[2..]) == [(NewMessage, Payload(text, Formatted(now), name, None), {c})] by {
      assert es[2..][1..] == [];
    }
    assert es[1..][1..] == es[2..];
    assert Emitted(es[1..]) == Emitted(es[2..]);
  }

  /** Alice, logged in on client 1, says "hi" in thread 1 with nobody else present. */
  lemma AliceSaysHi(hash: string, env: Env, now: Timestamp)
    requires env.checkPassword(hash, "pw")
    ensures var st0 := Run(Init, [RegisterUser("alice", hash, None), LoginUser(1, "alice", "pw")], env);
            var r := Step(st0, SendMessage(1, 1, "hi", now), env);
            && Emitted(r.effects) == [(NewMessage, Payload("hi", Formatted(now), "alice", None), {1})]
            && ThreadHistory(r.state.log, 1) == [Message(1, "hi", now, "alice", None, 1)]
  {
    AliceLogsIn(hash, env);
    var st0 := Run(Init, [RegisterUser("alice", hash, None), LoginUser(1, "alice", "pw")], env);
    assert Step(st0, SendMessage(1, 1, "hi", now), env) == HandleMessage(st0, 1, 1, "hi", now);
    FirstMessageAlone(st0, 1, 1, "hi", now, "alice");
  }

  /** A client not logged in gets the login prompt and the table is unchanged. */
  lemma AnonymousSendRejected(st: State, c: ConnId, t: int, text: string, now: Timestamp, env: Env)
    requires !SessionOf(st, c).LoggedIn()
    ensures var r := Step(st, SendMessage(c, t, text, now), env);
            && Emitted(r.effects) == [(NewMessage, LoginPrompt, {c})]
            && r.state.log == st.log
            && forall t' :: ThreadHistory(r.state.log, t') == ThreadHistory(st.log, t')
  {
    var r := HandleMessage(st, c, t, text, now);
    assert Step(st, SendMessage(c, t, text, now), env) == r;
    assert r.state == st;
    assert r.effects == [Emit(NewMessage, LoginPrompt, Sender(c))];
    assert r.effects[1..] == [];
  }
}
