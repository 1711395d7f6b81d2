/**
 The two socket handlers: `send_message`, which persists a message, joins the
 sender to the thread's room and broadcasts to that room, and
 `send_bot_message`, which relays one text to a completion service and
 answers the sender alone.
 */
module Relay {
  import opened Wrappers
  import opened Rooms
  import opened Messages
  import opened ChatState

  const BotName := "ChatGPT"
  const BotIcon := "/static/images/bot_icon.png"

  /**
   `send_message` from client `c`, with `now` the handler's clock reading.
   Logged in: commit one message, join the thread room, broadcast it to the
   room. Not logged in: prompt the sender to log in and change nothing.
   A thread id outside the 64-bit INTEGER range makes the commit raise, so
   nothing is stored, joined or emitted.
   */
  function HandleMessage(st: State, c: ConnId, threadId: int, text: string, now: Timestamp): (r: Outcome)
    // no session: nothing is written, the sender alone gets the login prompt
    ensures !SessionOf(st, c).LoggedIn() ==>
      r.state == st && r.effects == [Emit(NewMessage, LoginPrompt, Sender(c))] && r.reply == NoReply
    // a session without its name key raises before any write
    ensures SessionOf(st, c).LoggedIn() && SessionOf(st, c).name.Absent? ==>
      r.state == st && r.effects == [] && r.reply == KeyError
    // logged in, thread id out of column range: the commit raises, nothing changes
    ensures SessionOf(st, c).LoggedIn() && SessionOf(st, c).name.Present? && !FitsInteger(threadId) ==>
      r.state == st && r.effects == [] && r.reply == Overflow
    // logged in: exactly one message appended, earlier rows untouched
    ensures SessionOf(st, c).LoggedIn() && SessionOf(st, c).name.Present? && FitsInteger(threadId) ==>
      var s := SessionOf(st, c);
      var room := RoomName(threadId);
      && |r.state.log| == |st.log| + 1
      && r.state.log[..|st.log|] == st.log
      && r.state.log[|st.log|] == Message(|st.log| + 1, text, now, s.name.value, s.IconOrNone(), threadId)
      && c in Members(r.state.rooms, room)
      && Members(r.state.rooms, room) == Members(st.rooms, room) + {c}
      && (forall other :: other != room ==> Members(r.state.rooms, other) == Members(st.rooms, other))
      && r.state.users == st.users && r.state.sessions == st.sessions
      && r.effects == [
           Commit(r.state.log[|st.log|]),
           JoinRoom(room, c),
           Emit(NewMessage, Payload(text, Formatted(now), s.name.value, s.IconOrNone()),
                Room(room, Members(r.state.rooms, room)))]
      && Announces(r.effects[2].payload, r.state.log[|st.log|])
      && r.reply == NoReply
    ensures r.reply == NoReply || r.reply == KeyError || r.reply == Overflow
    ensures Replay(st, r.effects) == r.state
    ensures PersistedBeforeBroadcast(st, r.effects)
  {
    var s := SessionOf(st, c);
    if s.LoggedIn() then
      if s.name.Absent? then
        Outcome(st, [], KeyError)
      else if !FitsInteger(threadId) then
        Outcome(st, [], Overflow)
      else
        var icon := s.IconOrNone();
        var m := Message(|st.log| + 1, text, now, s.name.value, icon, threadId);
        var room := RoomName(threadId);
        var st1 := st.(log := st.log + [m]);
        var st2 := st1.(rooms := Join(st1.rooms, room, c));
        var payload := Payload(text, Formatted(now), s.name.value, icon);
        var es := [Commit(m), JoinRoom(room, c), Emit(NewMessage, payload, Room(room, Members(st2.rooms, room)))];
        assert Replay(st, es[..1]) == st1;
        assert Replay(st, es[..2]) == st2 by {
          ReplaySnoc(st, es[..1], es[1]);
          assert es[..1] + [es[1]] == es[..2];
        }
        assert Replay(st, es) == st2 by {
          ReplaySnoc(st, es[..2], es[2]);
          assert es[..2] + [es[2]] == es;
        }
        Outcome(st2, es, NoReply)
    else
      Outcome(st, [Emit(NewMessage, LoginPrompt, Sender(c))], NoReply)
  }

  /**
   `send_bot_message` from client `c`. `complete` stands for the completion
   service: it receives the user's text and returns the reply. Nothing is
   stored and no room is touched; the one event goes to the sender only.
   */
  function HandleBotMessage(st: State, c: ConnId, text: string, now: Timestamp,
                            complete: string -> string): (r: Outcome)
    ensures r.state == st && r.reply == NoReply
    ensures |r.effects| == 1 && r.effects[0].Emit?
    ensures r.effects[0].event == BotResponse && r.effects[0].target == Sender(c)
    ensures SessionOf(st, c).LoggedIn() ==>
      r.effects[0].payload == Payload(complete(text), Formatted(now), BotName, Some(BotIcon))
    ensures !SessionOf(st, c).LoggedIn() ==> r.effects[0].payload == LoginPrompt
    ensures Replay(st, r.effects) == r.state
  {
    if SessionOf(st, c).LoggedIn() then
      Outcome(st, [Emit(BotResponse, Payload(complete(text), Formatted(now), BotName, Some(BotIcon)), Sender(c))], NoReply)
    else
      Outcome(st, [Emit(BotResponse, LoginPrompt, Sender(c))], NoReply)
  }

  /**
   Sending twice to the same thread leaves the room registry as sending once:
   the second join is a no-op.
   */
  lemma SendTwiceSameRooms(st: State, c: ConnId, threadId: int, t1: string, n1: Timestamp,
                           t2: string, n2: Timestamp)
    requires SessionOf(st, c).LoggedIn() && SessionOf(st, c).name.Present?
    ensures var once := HandleMessage(st, c, threadId, t1, n1).state;
            HandleMessage(once, c, threadId, t2, n2).state.rooms == once.rooms
  {
    var once := HandleMessage(st, c, threadId, t1, n1).state;
    assert SessionOf(once, c) == SessionOf(st, c);
    if FitsInteger(threadId) {
      JoinMemberIsNoop(once.rooms, RoomName(threadId), c);
    }
  }

  /**
   A message reaches a client only if that client is the sender or had
   already joined the thread's room before this message.
   */
  lemma BroadcastReachesOnlyRoom(st: State, c: ConnId, threadId: int, text: string, now: Timestamp, other: ConnId)
    requires SessionOf(st, c).LoggedIn() && SessionOf(st, c).name.Present?
    ensures FitsInteger(threadId) ==>
            var r := HandleMessage(st, c, threadId, text, now);
            other in Recipients(r.effects[2].target) <==>
              other == c || other in Members(st.rooms, RoomName(threadId))
  {
  }

  /** After a logged-in send, the thread's history contains the new message. */
  lemma SentMessageInHistory(st: State, c: ConnId, threadId: int, text: string, now: Timestamp)
    requires SessionOf(st, c).LoggedIn() && SessionOf(st, c).name.Present?
    ensures FitsInteger(threadId) ==>
            var r := HandleMessage(st, c, threadId, text, now);
            exists m :: m in ThreadHistory(r.state.log, threadId) && m.message == text
                        && Announces(r.effects[2].payload, m)
  {
    if FitsInteger(threadId) {
      var r := HandleMessage(st, c, threadId, text, now);
      var m := r.state.log[|st.log|];
      assert r.state.log == st.log + [m];
      AppendVisibleInHistory(st.log, m, threadId);
    }
  }
}
