# MATA chat relay — a Dafny model

MATA is a small Flask + Socket.IO chat application. Users register and log in.
They post messages into threads. Each message is stored in a SQL table and
broadcast to the Socket.IO room of its thread. A side channel forwards one
message to a chat-completion service and returns the reply to the sender only.

This project models the part of `app.py` with behaviour that can be stated:

- **Upload check** (`upload.dfy`, module `Upload`). `allowed_file` accepts a file name
  when it contains a dot and the text after the last dot, lower-cased, is
  `png`, `jpg`, `jpeg` or `gif`. Python's `rsplit('.', 1)` is modelled as `RSplitOnce`.
- **Room names** (`decimal.dfy`, `rooms.dfy`). A thread's room is `thread_` followed by
  Python's `str` of the id. The id parses back out of the name, so distinct threads
  never share a room. `join_room` is set insertion into one room.
- **Message table and thread history** (`messages.dfy`). The query at `app.py:121`
  filters by thread and orders by ascending timestamp. It is modelled as a filter
  followed by a stable insertion sort.
- **State machine** (`state.dfy`, `accounts.dfy`, `relay.dfy`, `system.dfy`). The state
  holds the user table, one session per client, the message table and the room
  registry. Each route or socket handler is a pure function. It returns an `Outcome`:
  the new state, the framework calls it made in order, and the HTTP reply.
  The calls are `AddUser`, `WriteSession`, `Commit`, `JoinRoom` and `Emit`.
  Replaying the calls gives the new state. This makes "commit before emit" a
  statement about the order of the calls.

Some behaviour of the source that the model keeps as written:

- A client joins a thread's room only by sending a message to that thread.
  No other handler calls `join_room`. A client that only views a thread gets no broadcasts.
- Message text is not validated; the empty string is stored and broadcast.
- The bot reply goes out under the name `ChatGPT` with the icon
  `/static/images/bot_icon.png`. The completion call has no error handling.
- `app.py` never calls `leave_room`. The framework's removal of a disconnected
  connection is not modelled (see Left out).
- A thread id outside SQLite's 64-bit INTEGER range makes the commit raise, so
  nothing is stored, joined or emitted.

In short, `app.py` does not validate message text. It has no error path for the
completion service. Its bot replies under the name `ChatGPT`. It has no leave or
disconnect handler. The model keeps each of these as the code has it.

## Model

| member | source | states |
|---|---|---|
| Upload.AllowedFile | app.py:78-80 | `allowed_file`: an accepted name contains a dot and is at least four characters long (its full meaning is the next row) |
| Upload.AllowedFileCharacterization | app.py:78-80 | a name passes exactly when it has a last dot and the lower-cased text after that dot is one of png, jpg, jpeg, gif |
| Upload.AllowedFileBySuffix | app.py:78-80 | equivalently: a name passes exactly when it ends, case-insensitively, in a dot followed by an allowed extension |
| Upload.Lower | app.py:80 | `str.lower` on ASCII text: the same length, with each character lower-cased on its own |
| Upload.RSplitOnce | app.py:80 | `rsplit('.', 1)`: one piece when there is no dot, otherwise head and tail that rejoin around the dot to the input, with no dot in the tail |
| Upload.RSplitAtLastDot | app.py:80 | the second piece of the split is the text after the last dot |
| Upload.LowerKeepsDots | app.py:80 | lower-casing neither creates nor removes dots |
| Upload.UpperCaseExtensionAccepted | app.py:78-80 | `a.PNG` passes |
| Upload.NoDotRejected | app.py:78-80 | `png` (no dot) fails |
| Upload.DoubleExtensionRejected | app.py:78-80 | `x.png.exe` fails: only the last suffix counts |
| Upload.DotOnlyNameAccepted | app.py:78-80 | `.gif` passes: an empty stem is allowed |
| Decimal.IntToDecimal | app.py:193 | Python's `str(i)`: a non-empty text that starts with a minus sign exactly when `i` is negative |
| Decimal.NatDecimalRoundTrip | app.py:193 | reading back the decimal digits of a natural number gives the number |
| Decimal.IntDecimalRoundTrip | app.py:193 | parsing Python's `str(i)` of an integer, sign included, gives `i` back |
| Decimal.IntToDecimalInjective | app.py:193 | two integers have the same decimal text exactly when they are equal |
| Rooms.RoomName | app.py:193 | a room name is `thread_` followed by a non-empty id text |
| Rooms.RoomNameRoundTrip | app.py:193 | the thread id is recovered from its room name |
| Rooms.RoomNameInjective | app.py:193 | two threads share a room exactly when they are the same thread |
| Rooms.Join | app.py:193 | joining adds the connection to that room and leaves every other room as it was |
| Rooms.JoinIdempotent | app.py:193 | joining twice yields the same registry as joining once |
| Rooms.JoinMemberIsNoop | app.py:193 | a member joining its own room changes nothing |
| Messages.InThread | app.py:121 | the filter keeps each message of the thread as often as it occurs and drops every other thread's |
| Messages.InThreadAppend | app.py:121 | the filter keeps table order: one more row extends the thread's rows by that row when it belongs to the thread, and by nothing otherwise |
| Messages.InsertByTime | app.py:121 | inserting into a time-ordered sequence keeps it time-ordered and adds exactly one element |
| Messages.SortByTime | app.py:121 | the ordering step returns a time-ordered permutation of its input |
| Messages.ThreadHistory | app.py:121 | the history holds exactly the thread's messages, with their multiplicities, in non-decreasing timestamp order |
| Messages.ThreadHistoryTieBreak | app.py:121 | when ids increase along the table, equal timestamps come out in id order, so the order is fully determined |
| Messages.ThreadHistoryOfTimeOrderedLog | app.py:121 | when the clock never went back, the history is the thread's messages in write order |
| Messages.AppendVisibleInHistory | app.py:184-186 | a committed message is in its thread's history at once; other threads' histories are unchanged |
| ChatState.Session.LoggedIn | app.py:178 | `'user_id' in session`: a client counts as logged in exactly when its session holds `user_id` |
| ChatState.Session.IconOrNone | app.py:182 | `session.get('icon')`: a missing key reads as `None` |
| ChatState.ApplyEffect | app.py:184-194 | one framework call: a commit appends one row to its table, a session write replaces one client's session only, `join_room` inserts into one room, an emit changes nothing |
| ChatState.Replay | app.py:184-194 | any sequence of framework calls keeps both tables as prefixes of the result and never removes a room member |
| Accounts.FindByName | app.py:157 | the lookup finds nothing exactly when no user has the name, otherwise the earliest user with it |
| Accounts.IconFor | app.py:131-140 | a new user gets an icon exactly when a file was uploaded and its name passes the upload check |
| Accounts.Register | app.py:142-148 | a taken name adds nothing, makes no call and returns the error text; a free one makes exactly one insert, which appends one user with the next id; names stay distinct either way |
| Accounts.Login | app.py:154-164 | the login succeeds exactly when the earliest user with that name passes the password check; on success the only call is one session write, which sets that user's id, name and icon; otherwise nothing changes, no call is made and the error text is returned |
| Accounts.Logout | app.py:170-173 | the only call is one session write; all three session keys are gone for that client; other clients and all tables are unchanged |
| Accounts.LogoutIdempotent | app.py:170-172 | logging out twice equals logging out once |
| Relay.HandleMessage | app.py:177-196 | logged in: one message appended with the payload text and thread and the session's name and icon, earlier rows kept, sender added to the thread room, the calls are exactly commit, join and one `new_message` to exactly the room's members, normal return; not logged in: no change, the login prompt to the sender alone, normal return; a thread id outside the 64-bit INTEGER range: the commit raises and nothing changes; a session without `name`: raises before any write; commit precedes broadcast |
| Relay.HandleBotMessage | app.py:204-224 | state unchanged; exactly one `bot_response`, to the sender only, carrying the service's reply under `ChatGPT` and the bot icon, or the login prompt when not logged in |
| Relay.SendTwiceSameRooms | app.py:193 | sending twice to the same thread leaves room membership as after the first send |
| Relay.BroadcastReachesOnlyRoom | app.py:193-194 | for a storable thread id, the broadcast reaches a client exactly when it is the sender or was already in the thread's room |
| Relay.SentMessageInHistory | app.py:184-194 | after a logged-in send with a storable thread id, the thread's history holds a message matching the broadcast |
| System.RegisterKeepsInv | app.py:142-147 | registration keeps ids sequential, names unique and sessions valid |
| System.LoginKeepsInv | app.py:157-161 | login keeps every session naming an existing user with that user's name and icon |
| System.LoggedInHasName | app.py:178-182 | in a valid state a session with `user_id` also has `name`, and that name is a registered user's |
| System.HandleMessageKeepsInv | app.py:178-186 | a send keeps the invariant; every stored message carries a registered user's name |
| System.StepKeepsInv | app.py:125-224 | every route and handler keeps the invariant |
| System.RunKeepsInv | app.py:38 | every state reached from the empty start satisfies the invariant, so user names stay pairwise distinct |
| System.ReachableSendNeverRaises | app.py:178-186 | in a reachable state `send_message` never fails on a missing session key; it raises exactly when a logged-in client's thread id overflows its column |
| System.NoWriteWithoutLogin | app.py:177-196 | a step that changes messages or rooms is a logged-in client's send, which adds that client to that thread's room only |
| System.StepAppendsOnly | app.py:184-186 | no step edits or removes a stored message |
| System.BotLeavesLogAndRooms | app.py:204-224 | the bot path changes neither the message table nor the rooms |
| System.Step | app.py:125-224 | dispatch of each route and handler; replaying the step's framework calls in order gives exactly its new state |
| System.StepPersistsBeforeBroadcast | app.py:184-194 | every room broadcast follows the commit of the message it announces and reaches the room's members at that moment |
| System.AliceSaysHi | app.py:177-194 | alice alone in thread 1 sends "hi": she alone receives it, and the history of thread 1 is exactly that message |
| System.AnonymousSendRejected | app.py:195-196 | a client that is not logged in receives only the login prompt, the message table is unchanged, and so no thread's history changes |

## Left out

- Password hashing: `generate_password_hash` is replaced by a hash supplied to `Register`. `check_password_hash` is the `checkPassword` parameter of the environment.
- File storage: `secure_filename`, `os.makedirs`, `file.save` and the timestamped unique file name are not modelled. They are filesystem I/O and library code. The stored path is an input. The source saves the file before checking the name, so a rejected registration still leaves a file; this is not modelled.
- The completion service: `openai.ChatCompletion.create` is the `complete` parameter. The source has no error handling for it, so the model has no provider-error path.
- Clocks and `strftime`: a timestamp is an integer supplied to the handler. An emitted timestamp is `Formatted(t)`, standing for the formatted text, or `Blank` for `''`.
- Upload.LowerChar: folds only the ASCII letters A–Z, while Python's `str.lower` also folds other Unicode letters. No non-ASCII character lower-cases to one of the letters in the allowed extensions, so the upload verdict is the same.
- Concurrency: each request and event is one sequential step, as the source runs it. No locking is modelled.
- Session sharing: one session per client serves both the HTTP routes and the socket handlers. Flask-SocketIO copies the HTTP session when a socket connects; that copying is not modelled.
- Malformed socket payloads are not modelled: a missing `message` or `thread_id` key, a thread id that is not an integer, or a null message, which the non-null column would reject. An integer thread id outside the 64-bit column range is modelled.
- Thread existence: the 404 from `Thread.query.get_or_404` at `app.py:120` is not modelled. The history query is modelled alone.
- Row ids: a new user's or message's id is the row count plus one, as SQLite assigns ids when rows are never deleted.
- Messages.ThreadHistory: SQL `ORDER BY timestamp` leaves the order of equal timestamps open. The model keeps table order for ties, and `ThreadHistoryTieBreak` states that order.
- Column length limits (`String(150)`): not enforced by SQLite, so not modelled.
- Disconnects: Socket.IO drops a closed connection from its rooms inside the framework. The source has no handler for it, so it is not modelled.
- Page rendering and the web framework around the core: templates (a redirect is modelled only by the page it names), the category and thread routes (`app.py:83-114`), the `login_required` decorator, the GET branches, app and database setup, and migrations.
