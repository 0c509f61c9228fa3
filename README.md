# SapphireKey chat core, modelled in Dafny

SapphireKey is a small desktop chat system. The model covers its four core parts:
- **The store** (`database.py`): a SQLite file with three tables, `users`, `friendships` and `chat_messages`, read and written by the class `Database`.
- **The relay server** (`server.py`): `ChatServer.handle_client` authenticates a WebSocket connection on its first frame and records it in the `clients` dictionary. It then answers `get_friends`, `get_history` and `message` frames. When the connection closes, its entry is removed again.
- **The chat pane** (`bubble_message.py`): `ChatWidget` keeps the list of message bubbles and date separators.
- **The registration dialog** (`register_dialog.py`): `RegisterDialog.handle_register` checks the form fields and then calls `add_user`.

## How the model is organised

Each stateful part has two layers. The first is a set of pure functions on values that state what every operation does. The second is a class whose methods change fields step by step, and each method is proved to match the functions' result.

| file | module | what it holds |
|---|---|---|
| `wrappers.dfy` | `Wrappers` | `Option` |
| `text.dfy` | `Text` | Python's `str.isspace`, `strip()` and `split()[0]` |
| `tables.dfy` | `Tables` | the three tables as one `Db` value, every store operation as a function, and the lemmas about them |
| `store.dfy` | `Store` | class `Database`: the tables as `seq` fields, one method per store operation |
| `relay.dfy` | `Relay` | one connection's life as functions: login (`Open`), one frame (`Dispatch`), the read loop (`Serve`), the cleanup (`Close`), the whole life (`Life`) |
| `server.dfy` | `Server` | class `ChatServer`: the store, `clients` and the frames sent, updated step by step |
| `chat_pane.dfy` | `ChatPane` | the pane's list as a `seq` of `Notice`/`Bubble` items, the functions `Load` and `AddLive`, and class `ChatWidget` |
| `registration.dfy` | `Registration` | the field checks, one click as a function, and class `RegisterDialog` |

How the model stands in for what Python leaves implicit:
- **Tables** are kept in rowid order. `fetchone` without `ORDER BY` is modelled as the first matching row in that order. Where a column is not unique (the nickname), the contracts promise only "some matching row". Two functions fix an order that SQLite does not promise (see "## Left out"):
  - `Tables.AddFriendRequest` refuses with the status of the first row joining the two users in rowid order. `Tables.AddFriendRequestRefusal` states only that the refusal names some joining row.
  - `Tables.FriendsOf` lists friends in rowid order of the `friendships` rows. `Tables.FriendsOfMembers` states only which users are listed.
- **The clock.** `CURRENT_TIMESTAMP` is a `nat` passed in with each frame, and `datetime.now()` is a string passed in beside it.
- **`self.clients`** is a sequence of entries in dictionary insertion order. Assigning to an existing key keeps its place, a new key goes last, and the cleanup deletes the first entry whose value is the closing connection.
- **The outbox.** Every frame the server sends, on any connection, is appended to an outbox.
- **Encoding history rows.** Whether `json.dumps` can encode a list of history rows is a parameter, `encodes`. In CPython a list of `sqlite3.Row` values cannot be encoded, so `get_history` falls into its `except` branch. `HistoryAlwaysEmptyUnderCPython` proves that then every `history` reply is empty.
- **Exceptions.** A frame field that is missing or fails to decode is `None` in the `Frame` datatype, and the model takes the branch Python's exception handling takes.

Behaviour of the code worth knowing:
- **Failed login.** A bad login, a first frame that is not a complete `login`, or an undecodable first frame ends the handler. The connection does not stay open for a retry.
- **Presence.** No presence (`online_status`) frame is ever sent.
- **Friendships are not always symmetric.**
  - `add_friend_request` writes only the forward row.
  - `add_friend` writes both rows but issues no rollback, so a clash on the second insert leaves the first row behind (`AddFriendHalfWrite`). That row is uncommitted: it is visible through the same connection at once, and becomes durable at the next `commit()` any method issues.
  - What every operation keeps is weaker: every accepted row has its reverse row.
- **History ties.** The history query orders by timestamp only, and `CURRENT_TIMESTAMP` counts whole seconds, so messages with equal timestamps come back in no fixed order. The model picks one (a stable sort), but the lemmas promise only timestamp order and which rows come back: `HistorySymmetric` compares the two sides as multisets, and `HistoryKeepsOrder` assumes strictly increasing timestamps.
- **No annotations.** History rows carry no `is_send` flag, and friend lists carry no presence.

## Model

| member | source | states |
|---|---|---|
| Text.Strip | register_dialog.py:44-47 | the stripped value neither starts nor ends with whitespace, and it is empty exactly when the input is all whitespace |
| Text.StripSlice | register_dialog.py:44-47 | the stripped value is a contiguous slice of the input, and everything cut off on either side is whitespace |
| Text.StripIdempotent | register_dialog.py:44-47 | stripping twice gives the same value as stripping once |
| Text.WordFacts | bubble_message.py:386 | `Word(s)` is the longest whitespace-free prefix of `s`: no whitespace inside, followed by whitespace or the end, and non-empty when `s` starts with a non-space |
| Text.FirstWordNone | bubble_message.py:386 | `split()[0]` fails (None) exactly when the timestamp is all whitespace |
| Text.FirstWordSome | bubble_message.py:386 | a date part is a non-empty run of non-whitespace, preceded only by whitespace and ended by whitespace or the end of the text |
| Tables.Select | database.py:133-138 | the scan returns a row of the table that matches the WHERE clause, and None exactly when no row matches |
| Tables.Find | database.py:232-245 | a query returns the four public columns of some matching row, and None exactly when no row matches |
| Tables.FindUnique | database.py:22-30 | on `user_id` or the UNIQUE `username`, the query returns the one matching row, whichever it is |
| Tables.VerifyUser | database.py:76-95 | returns a user's `{user_id, username, nickname, avatar_path}` exactly when some row has this username and this password, and None otherwise |
| Tables.AddUser | database.py:63-74 | a taken username gives None with the tables unchanged; otherwise exactly one row is appended, holding the next AUTOINCREMENT id, which is returned |
| Tables.AddUserFresh | database.py:22-30 | the new id is positive and no earlier row carries it, and the schema's constraints still hold |
| Tables.RegisterThenLogin | database.py:63-95 | after a successful `add_user`, `verify_user` accepts that username with exactly that password and rejects every other password |
| Tables.EdgeStatus | database.py:33-42 | the status of the `(a, b)` row, and None exactly when no such row exists |
| Tables.EdgeBetween | database.py:105-111 | the status of some row joining the two users in either direction, and None exactly when there is none |
| Tables.AddFriend | database.py:295-314 | true exactly when `a != b` and neither directed row exists; then both `'accepted'` rows are appended, `(a, b)` first; a clash on the first INSERT changes nothing; a clash on the second leaves only the `(a, b)` row added; users and messages are untouched |
| Tables.AddFriendHalfWrite | database.py:295-314 | when `(a, b)` is new but `(b, a)` exists (or `a == b`), the call returns false and still leaves the `(a, b)` row |
| Tables.AppendEdgeKeepsValid | database.py:33-42 | appending a row whose `(user_id, friend_id)` key is new keeps the primary key unique |
| Tables.AppendKeepsReverse | database.py:295-314 | appended rows whose accepted ones find their reverse keep every accepted row paired with its reverse |
| Tables.AddFriendKeepsReverse | database.py:295-314 | `add_friend` keeps the schema's constraints, and when every accepted row had its reverse row before, it still has after, even on the half-write |
| Tables.AddFriendRequest | database.py:97-124 | an unknown username gives `(False, "用户不存在")`; an accepted or pending row either way gives the matching refusal; each of those leaves the tables unchanged; otherwise one pending `(user_id, friend_id)` row is appended |
| Tables.AddFriendRequestRefusal | database.py:104-116 | a refusal changes nothing and names the status of a row that really joins the two users |
| Tables.AddFriendRequestSent | database.py:118-124 | a sent request adds only the forward pending row, and neither direction existed before |
| Tables.AddFriendRequestKeepsReverse | database.py:97-124 | a request keeps the key unique, and keeps every accepted row paired with its reverse when it was before |
| Tables.FriendsMembers | database.py:275-288 | a user is in the join's result exactly when some row from `u`, of any status, points at that user's id |
| Tables.FriendsOfMembers | database.py:271-293 | `get_friends(u)` lists exactly the users at `friend_id` of the rows whose `user_id` is `u`, pending ones included |
| Tables.AddFriendSymmetric | database.py:271-314 | after a successful `add_friend(a, b)` between registered users, each appears in the other's `get_friends` |
| Tables.SaveMessage | database.py:175-187 | exactly one row is appended, with the next id, the given sender, receiver, content and type, and the clock's value; users and friendships are untouched |
| Tables.SaveMessageFresh | database.py:45-56 | the new message id is larger than every earlier one, and the constraints still hold |
| Tables.Between | database.py:192-198 | every joined row is a stored message between the two users, in either direction |
| Tables.BetweenCount | database.py:192-198 | the join yields a row as often as its message is stored, when the message is between the pair and the row carries the nicknames the two user joins give; otherwise never |
| Tables.StoredOnce | database.py:45-56 | with AUTOINCREMENT ids no message row is stored twice |
| Tables.JoinedRow | database.py:192-196 | a message whose sender and receiver are registered joins to exactly one row, with their nicknames |
| Tables.JoinedIs | database.py:192-196 | a row is the join of its message exactly when its nicknames are those of the message's registered sender and receiver |
| Tables.AppendSorted | database.py:199 | a row no earlier than all rows of a sorted sequence can go last, and the result stays sorted |
| Tables.InsertByTime | database.py:199 | an insertion keeps timestamp order and adds exactly the one row |
| Tables.SortByTime | database.py:199 | the result is in non-decreasing timestamp order and is a permutation of the input |
| Tables.ChatHistory | database.py:189-204 | the history is sorted by timestamp and holds exactly the joined messages between the pair (as a multiset) |
| Tables.BetweenSymmetric | database.py:197-198 | the WHERE clause selects the same rows for `(a, b)` as for `(b, a)` |
| Tables.HistorySymmetric | database.py:189-204 | `get_chat_history(a, b)` and `get_chat_history(b, a)` give the same rows, each as often |
| Tables.SortedUnchanged | database.py:199 | sorting a sequence that is already in timestamp order leaves it unchanged |
| Tables.HistoryKeepsOrder | database.py:189-204 | messages of the pair stored with strictly increasing timestamps come back in the order they were stored |
| Tables.HistoryRows | database.py:189-204 | a row is in the history exactly when its message is stored, is between the pair, and its sender and receiver are registered users whose nicknames it carries; no row comes back twice |
| Tables.HistoryComplete | database.py:189-204 | every stored message between the pair whose two users are registered comes back exactly once |
| Tables.SavedMessageInHistory | database.py:175-204 | after `save_message` between two registered users, the new row is in their history, asked for from either side |
| Store.Database.constructor | database.py:5-16 | opening the store keeps what the file holds (`CREATE TABLE IF NOT EXISTS`) |
| Store.Database.Scan | database.py:133-138 | the table-scan loop returns the first matching row, as `Select` does |
| Store.Database.Query | database.py:232-245 | the query gives what `Find` gives |
| Store.Database.AddUser | database.py:63-74 | the new tables match `Tables.AddUser`; None exactly when the username is taken; otherwise one row with the new id is appended and the other tables are unchanged |
| Store.Database.VerifyUser | database.py:76-95 | the result matches `Tables.VerifyUser` and is Some exactly when a row has both credentials |
| Store.Database.EdgeScan | database.py:105-111 | the scan loop gives the status of the first row joining the two users either way, and None exactly when no row links them |
| Store.Database.AddFriendRequest | database.py:97-124 | the new tables and the result match `Tables.AddFriendRequest`; a refusal changes nothing; the key stays unique, and accepted rows that were paired stay paired |
| Store.Database.GetUser | database.py:129-143 | the row with this username if there is one (the only one), and None exactly when there is none |
| Store.Database.GetUserByUsername | database.py:206-227 | the same row as `get_user`, as a dictionary |
| Store.Database.GetUserByNickname | database.py:229-248 | some user with this nickname, and None exactly when no user has it |
| Store.Database.GetUserById | database.py:250-269 | the user with this id if there is one, and None exactly when there is none |
| Store.Database.GetFriends | database.py:271-293 | the loop that appends one dictionary per joined row builds exactly `FriendsOf` |
| Store.Database.SaveMessage | database.py:175-187 | returns true; one row with a fresh, larger id is appended; users and friendships are unchanged |
| Store.Database.GetChatHistory | database.py:189-204 | the history is `ChatHistory`: sorted by timestamp, with every row a stored message between the pair |
| Store.Database.AddFriend | database.py:295-314 | the new tables match `Tables.AddFriend`; when it returns true, both accepted rows exist; a clash on the first INSERT changes nothing, one on the second leaves the `(a, b)` row; the key stays unique, and accepted rows that were paired stay paired |
| Relay.Lookup | server.py:107-108 | `uid in self.clients` is false exactly when no entry has the key, and `self.clients[uid]` is that key's own connection |
| Relay.KeyIndex | server.py:43 | the position of the key's entry, and None exactly when no entry has the key |
| Relay.PutLookup | server.py:43 | after `self.clients[uid] = conn` the keys stay distinct, `uid` maps to `conn`, and every other key maps to what it did before |
| Relay.ConnIndex | server.py:138-142 | the first position whose value is this connection, and None exactly when there is none |
| Relay.RemoveFirstDistinct | server.py:136-142 | the cleanup keeps the keys distinct |
| Relay.RemoveFirstKeeps | server.py:136-142 | a key that does not lead to the closing connection keeps its entry |
| Relay.RemoveFirstDrops | server.py:136-142 | a key whose entry is the connection's only one is gone after the cleanup |
| Relay.RemoveFirstLookup | server.py:136-142 | the cleanup changes only the closing connection's entry: other keys are kept, and that entry is removed |
| Relay.Open | server.py:16-43 | only a complete `login` first frame is looked at, and anything else changes nothing; a session exists only for credentials that `verify_user` accepts |
| Relay.LoginSucceeds | server.py:26-43 | a good login first sends `auth` success with the user's id, username and nickname; then `clients[user_id]` leads to this connection (the last login wins) and no other key changes |
| Relay.LoginFails | server.py:124-130 | a login fails exactly when no row has both credentials; then `auth` failure with the fixed message is the only change |
| Relay.MessageFacts | server.py:90-115 | a `message` frame whose nickname resolves stores exactly one row with type defaulting to `'text'`, whether the recipient is online or not; a forward goes out exactly when `clients` has the recipient, to that connection; an unresolved nickname changes nothing |
| Relay.HistoryFacts | server.py:60-88 | a `get_history` frame gets exactly one `history` reply on this connection and changes nothing else; the reply is empty for a missing or unknown nickname, and a non-empty reply is exactly that pair's history |
| Relay.OtherFrames | server.py:47-122 | `get_friends` answers with the friends of the id the frame carries; unknown types, missing fields and undecodable frames change nothing |
| Relay.DeliveredInHistory | server.py:96-104 | a delivered `message` between registered users is in their history, asked for from either side, whether or not the recipient is online |
| Relay.ServeKeeps | server.py:47-122 | the read loop keeps `clients`, users and friendships, and only appends to messages and to the frames sent |
| Relay.ServeAnswersHistory | server.py:47-122 | the read loop sends exactly as many `history` frames on this connection as it receives `get_history` frames |
| Relay.RepliesAnswerHistory | server.py:52-117 | one frame's replies hold one `history` frame for a `get_history` and none otherwise |
| Relay.HistoryAlwaysEmptyUnderCPython | server.py:72-88 | when no non-empty list of rows can be encoded, every `history` reply the loop sends is empty |
| Relay.ServeSendsOnlyToKnown | server.py:47-122 | every frame the loop sends goes to this connection, or is a forward to a connection that `clients` holds |
| Relay.LifeWithoutLogin | server.py:16-20 | a connection whose first frame is not a complete `login` gets no reply and never enters `clients` |
| Relay.LifeEndsSession | server.py:136-142 | a logged-in connection that closes removes its user's entry, including one that an earlier open connection had; other entries and the user tables are as before |
| Relay.StaleCloseKeepsNewerLogin | server.py:136-142 | the same user logs in on `older` and then on `newer`; when `older` closes, the user's entry still leads to `newer` |
| Server.ChatServer.constructor | server.py:9-11 | the server starts with the stored tables, nobody connected and nothing sent |
| Server.ChatServer.Connection | server.py:107-108 | the walk over `clients` finds the key's connection: `Lookup`, Some exactly when an entry has the key |
| Server.ChatServer.Register | server.py:43 | `self.clients[uid] = conn` leaves `Put(clients, uid, conn)` with the keys still distinct, and sends nothing |
| Server.ChatServer.Send | server.py:36-40 | one frame is appended to the frames sent |
| Server.ChatServer.Open | server.py:16-130 | the login branch leaves the state and the session that `Relay.Open` gives |
| Server.ChatServer.AnswerHistory | server.py:60-88 | exactly one `history` frame with `HistoryReply`'s rows is sent, and `clients` is unchanged |
| Server.ChatServer.Deliver | server.py:90-117 | the store becomes `Stored`, the frames sent grow by `Replies`, and `clients` is unchanged |
| Server.ChatServer.Dispatch | server.py:48-122 | one frame of the loop leaves the state `Relay.Dispatch` gives |
| Server.ChatServer.Cleanup | server.py:136-142 | the `finally` loop leaves `RemoveFirst(clients, conn)` and sends nothing |
| Server.ChatServer.ReadLoop | server.py:47-122 | the loop over the frames after the login leaves the state `Relay.Serve` gives |
| Server.ChatServer.HandleClient | server.py:13-142 | one connection that delivers these frames and then closes leaves the state `Relay.Life` gives |
| ChatPane.Kind | bubble_message.py:394 | `'text'` maps to `Text` and every other value to `Image` |
| ChatPane.AvatarFor | bubble_message.py:393 | the send avatar for sent messages, the receive avatar otherwise |
| ChatPane.Parsed | bubble_message.py:384-386 | how many messages come before the first timestamp with no date part: all earlier ones have one, and the one at that position has none |
| ChatPane.ParsedAll | bubble_message.py:384-386 | every timestamp has a date part exactly when that count reaches the end |
| ChatPane.ChunkBubbles | bubble_message.py:392-396 | each message adds exactly one bubble, its own |
| ChatPane.ChunkNotices | bubble_message.py:386-390 | a message adds a notice of its date exactly when its date differs from the one before it, so the first message always gets one |
| ChatPane.BubblesForAt | bubble_message.py:392-396 | one bubble per message: the `i`-th bubble is message `i`'s, with the avatar and type chosen for it |
| ChatPane.RenderBubbles | bubble_message.py:384-396 | the bubbles of the rebuilt list correspond one to one, in order, with the messages |
| ChatPane.RenderChunks | bubble_message.py:384-396 | right after the items of the messages before `j` comes a notice with message `j`'s full timestamp exactly when `j` starts a new day, then `j`'s bubble |
| ChatPane.Collapse | bubble_message.py:387-388 | collapsing runs of equal dates gives an empty result only for an empty input, and keeps the last date |
| ChatPane.CollapseRuns | bubble_message.py:387-390 | the collapsed dates have no two equal neighbours |
| ChatPane.RenderNotices | bubble_message.py:383-390 | the notices' dates are the messages' dates with each run of equal dates cut to one, in order |
| ChatPane.RenderNoticeCount | bubble_message.py:383-390 | there are as many notices as runs of equal dates, and no two neighbouring notices share a date |
| ChatPane.LiveStep | bubble_message.py:408-423 | a dated live message adds its bubble last, preceded by a notice with the full timestamp exactly when its date is not `last_message_date`; that date is remembered afterwards |
| ChatPane.LiveMatchesHistory | bubble_message.py:378-423 | feeding dated messages one by one through `add_message` into an empty pane builds the list `load_chat_history` builds (up to the timestamps that live bubbles keep), and leaves the last date remembered |
| ChatPane.StaleDateSkipsNotice | bubble_message.py:378-413 | `load_chat_history` leaves `last_message_date` as it was, so a live message on the remembered date gets no notice, whatever the rebuilt list shows |
| ChatPane.ChatWidget.constructor | bubble_message.py:242-262 | a new pane has an empty list and no `last_message_date` |
| ChatPane.ChatWidget.AddMessageItem | bubble_message.py:338-342 | a non-zero `index` (default 1) appends the item and zero puts it first; the rest of the list and the date are unchanged |
| ChatPane.ChatWidget.ClearMessages | bubble_message.py:367-376 | the list ends empty and `last_message_date` is untouched |
| ChatPane.ChatWidget.AddHistoryItems | bubble_message.py:387-396 | one turn of the loop appends the notice (when the day changed) and then the bubble |
| ChatPane.ChatWidget.LoadChatHistory | bubble_message.py:378-402 | the pane becomes `Load`: cleared, then rebuilt from the messages, stopping at a timestamp with no date part; it reports success exactly when every timestamp has a date part; `last_message_date` is untouched |
| ChatPane.ChatWidget.AddMessage | bubble_message.py:404-428 | the pane becomes `AddLive`: no timestamp adds only the bubble; a new date adds a notice first and is remembered; the call fails, changing nothing, exactly when the timestamp is non-empty whitespace |
| Registration.Validate | register_dialog.py:44-55 | a missing field is reported exactly when a stripped name or a password field is empty; a mismatch is reported exactly when all fields are present and the passwords differ; otherwise the stripped, non-empty values go on |
| Registration.Register | register_dialog.py:41-66 | a rejected form leaves the store alone with its warning; a valid one is offered to `add_user` with the default avatar; a registration carries the id `add_user` returned, and any other outcome is the "registration failed" warning |
| Registration.RegisterAccepts | register_dialog.py:60-66 | on a consistent store the dialog accepts exactly when the fields pass and the stripped username is not taken, and the store stays consistent |
| Registration.RegisterTakenWarns | register_dialog.py:60-66 | a valid form whose stripped username is taken ends in the "registration failed" warning, with the store unchanged |
| Registration.RegisterThenSignIn | register_dialog.py:58-66 | an accepted registration can sign in at once with its password, and has the default avatar |
| Registration.RegisterIgnoresPadding | register_dialog.py:44-47 | whitespace around the username and nickname makes no difference to the outcome |
| Registration.RegisterDialog.constructor | register_dialog.py:5-8 | a new dialog works on the given store and has not accepted |
| Registration.RegisterDialog.HandleRegister | register_dialog.py:41-66 | the store and the outcome are those of `Register`, the store stays consistent, and the dialog accepts exactly on a registration |

## Left out

- Transport: the WebSocket transport, `asyncio` scheduling and `websockets.serve` (server.py:144-166). A login, one frame of the read loop, and a cleanup are each one atomic step. Steps of different connections may come in any order; `Relay.StaleCloseKeepsNewerLogin` composes such a sequence. `Server.ChatServer.HandleClient` and `Relay.Life` run one connection's steps back to back. Nothing interleaves inside a step, for example between `save_message` and the forward that follows it.
- Tables.AddFriendRequest: when rows in both directions join the two users with different statuses, the refusal names the status of the first of them in rowid order, because that is where the model's scan stops; SQLite's `OR` lookup may return the other one.
- Tables.ChatHistory: the order among messages with equal timestamps is the model's stable sort, a choice SQLite does not make; no lemma promises that order.
- Tables.FriendsOf: the order of the friend list is the model's choice (rowid order of `friendships`). The query has no `ORDER BY`, and SQLite will most likely use the `(user_id, friend_id)` primary-key index, giving ascending `friend_id`. No lemma relies on the order.
- The await inside the login: server.py:36-43 awaits `websocket.send` of the `auth` success before `self.clients[user_id] = websocket`. Other connections' steps can run in that gap. A forward to this user can be missed there, and when one user logs in twice, "last login wins" follows the order of the `clients` assignments, not of the replies. The model makes the login one atomic step.
- Integer width: ids and the clock are unbounded; SQLite's are 64-bit.
- JSON encoding and decoding: frames are a datatype, and a decode failure is its own variant. Whether `json.dumps` accepts the history rows is the parameter `encodes`.
- The SQL engine. Tables are sequences and queries are functions on them. The tie order within equal timestamps is not promised.
- The clocks: `CURRENT_TIMESTAMP` and `datetime.now()` are values passed in.
- Store exception handlers (the `except` branches of database.py): no operation of the model raises. The one possible failure, a constraint violation, is modelled as the `None`/`False` result it produces.
- A failed forward: a `send` to a recipient whose connection has already closed is not modelled. It would raise inside the `message` branch and be caught at server.py:116-117.
- Logging: the `print` calls and the `QMessageBox` texts and dialogs of register_dialog.py are not modelled. The three warnings are the `Warning` values.
- The outer exception handlers of `handle_register` (register_dialog.py:67-73), which only show a message.
- Rendering: all Qt rendering in bubble_message.py (`TextMessage`, `Triangle`, `Avatar`, `ImageMessage`, the scroll area and scroll bar, fonts and pixmaps), `set_scroll_bar_last`, and `OpenImageThread`.
- `ChatWidget.send_message` (bubble_message.py:316-336): it is UI wiring that emits a signal and calls `add_message_item`.
- Malformed history messages: a history message is assumed to hold all four keys (`content`, `type`, `timestamp`, `is_send`). A missing key, which would raise `KeyError`, is not modelled; only a timestamp without a date part is.
- Unmodelled files: chat_client.py, chat_window.py, friendlist.py, login.py, demo.py, chat_history.py and the seed scripts (create_test_data.py, init_db.py, init_database.py) are not part of this model.
- `get_user_by_id` at database.py:145-156 and `get_friends` at database.py:158-173: later definitions of the same names replace them, so only database.py:250-293 is modelled.
- Presence and `online_status` frames: the server code sends none.
- Field types: JSON values of the wrong type (a number where a string is expected, say) are not modelled. The frame fields are typed.
