/**
 * What `ChatServer.handle_client` does to the server's state, as functions:
 * the login on the first frame, the dispatch of every later frame, and the
 * `finally` cleanup. One connection's life is `Life`; the class
 * `Server.ChatServer` runs it step by step and is proved against these
 * functions. Each login, frame and cleanup is one atomic step; steps of
 * different connections may interleave in any order.
 */
module Relay {
  import opened Wrappers
  import opened Tables

  /** The identity of one client connection (the `websocket` object). */
  type ConnId = int

  /**
   * One inbound frame, as `json.loads` leaves it. A field the frame lacks is
   * None (Python raises KeyError where it is read); `Unrecognised` is an object
   * whose `type` is missing or none of the four the server knows.
   */
  datatype Frame =
    | Login(username: Option<string>, password: Option<string>)
    | GetFriends(userId: Option<int>)
    | GetHistory(friendNickname: Option<string>)
    | SendMessage(toNickname: Option<string>, content: Option<string>, messageType: Option<string>)
    | Unrecognised
    | Undecodable

  /**
   * A frame together with the clocks read while handling it: the store's
   * `CURRENT_TIMESTAMP` and the server's `datetime.now()` text.
   */
  datatype Arrival = Arrival(frame: Frame, dbTime: nat, localTime: string)

  /** The frames the server sends. */
  datatype OutFrame =
    | AuthOk(userId: int, username: string, nickname: string)
    | AuthFailed(message: string)
    | FriendsList(friends: seq<UserInfo>)
    | History(messages: seq<HistoryRow>)
    | Forward(fromId: int, fromNickname: string, content: string, messageType: string, timestamp: string)

  datatype Sent = Sent(conn: ConnId, frame: OutFrame)

  /** One entry of `self.clients`: user id to connection. */
  datatype Entry = Entry(userId: int, conn: ConnId)

  /**
   * The server: the store, `self.clients` as its entries in dictionary order,
   * and every frame sent so far.
   */
  datatype Server = Server(db: Db, clients: seq<Entry>, outbox: seq<Sent>)

  const AuthFailedMessage := "用户名或密码错误"
  const DefaultMessageType := "text"

  // ----- the clients dictionary ------------------------------------------

  predicate DistinctKeys(cs: seq<Entry>) {
    forall i, j | 0 <= i < j < |cs| :: cs[i].userId != cs[j].userId
  }

  /** `uid in self.clients` and `self.clients[uid]`. */
  function Lookup(cs: seq<Entry>, uid: int): (r: Option<ConnId>)
    ensures r.None? <==> forall e | e in cs :: e.userId != uid
    ensures r.Some? ==> Entry(uid, r.value) in cs
  {
    if cs == [] then None
    else if cs[0].userId == uid then Some(cs[0].conn)
    else Lookup(cs[1..], uid)
  }

  function KeyIndex(cs: seq<Entry>, uid: int): (r: Option<nat>)
    ensures r.Some? ==> r.value < |cs| && cs[r.value].userId == uid
    ensures r.None? <==> forall e | e in cs :: e.userId != uid
  {
    if cs == [] then None
    else if cs[0].userId == uid then Some(0)
    else match KeyIndex(cs[1..], uid)
      case None => None
      case Some(i) => Some(i + 1)
  }

  /** `self.clients[uid] = conn`: an existing key keeps its place and takes the new value. */
  function Put(cs: seq<Entry>, uid: int, conn: ConnId): seq<Entry> {
    match KeyIndex(cs, uid)
    case Some(i) => cs[i := Entry(uid, conn)]
    case None => cs + [Entry(uid, conn)]
  }

  lemma {:induction false} LookupAt(cs: seq<Entry>, k: nat)
    requires DistinctKeys(cs) && k < |cs|
    ensures Lookup(cs, cs[k].userId) == Some(cs[k].conn)
  {
    if k > 0 {
      LookupAt(cs[1..], k - 1);
    }
  }

  lemma LookupIn(cs: seq<Entry>, e: Entry)
    requires DistinctKeys(cs) && e in cs
    ensures Lookup(cs, e.userId) == Some(e.conn)
  {
    var k :| 0 <= k < |cs| && cs[k] == e;
    LookupAt(cs, k);
  }

  /** Where `Put` leaves each entry: the key's own entry becomes the new one, every other entry keeps its place. */
  lemma PutShape(cs: seq<Entry>, uid: int, conn: ConnId)
    requires DistinctKeys(cs)
    ensures var r := Put(cs, uid, conn);
            && Entry(uid, conn) in r
            && |cs| <= |r| <= |cs| + 1
            && (|r| == |cs| + 1 ==> forall j | 0 <= j < |cs| :: cs[j].userId != uid)
            && forall j | 0 <= j < |r| :: r[j] == (if j < |cs| && cs[j].userId != uid then cs[j] else Entry(uid, conn))
  {
    var r := Put(cs, uid, conn);
    match KeyIndex(cs, uid)
    case Some(i) =>
      assert r[i] == Entry(uid, conn);
    case None =>
      assert r[|cs|] == Entry(uid, conn);
  }

  lemma PutDistinct(cs: seq<Entry>, uid: int, conn: ConnId)
    requires DistinctKeys(cs)
    ensures DistinctKeys(Put(cs, uid, conn))
  {
    var r := Put(cs, uid, conn);
    PutShape(cs, uid, conn);
    forall a, b | 0 <= a < b < |r|
      ensures r[a].userId != r[b].userId
    {
      if b == |cs| {
        assert cs[a].userId != uid;
      }
    }
  }

  lemma PutLookupOther(cs: seq<Entry>, uid: int, conn: ConnId, k: int)
    requires DistinctKeys(cs) && k != uid
    ensures Lookup(Put(cs, uid, conn), k) == Lookup(cs, k)
  {
    var r := Put(cs, uid, conn);
    PutShape(cs, uid, conn);
    match Lookup(cs, k)
    case None =>
      forall e | e in r
        ensures e.userId != k
      {
        var j :| 0 <= j < |r| && r[j] == e;
      }
    case Some(c) =>
      var j :| 0 <= j < |cs| && cs[j] == Entry(k, c);
      assert r[j] == Entry(k, c);
      PutDistinct(cs, uid, conn);
      LookupIn(r, Entry(k, c));
  }

  /** After `self.clients[uid] = conn` the key maps to `conn` and no other key changes. */
  lemma PutLookup(cs: seq<Entry>, uid: int, conn: ConnId)
    requires DistinctKeys(cs)
    ensures DistinctKeys(Put(cs, uid, conn))
    ensures Lookup(Put(cs, uid, conn), uid) == Some(conn)
    ensures forall k | k != uid :: Lookup(Put(cs, uid, conn), k) == Lookup(cs, k)
  {
    PutShape(cs, uid, conn);
    PutDistinct(cs, uid, conn);
    LookupIn(Put(cs, uid, conn), Entry(uid, conn));
    forall k | k != uid
      ensures Lookup(Put(cs, uid, conn), k) == Lookup(cs, k)
    {
      PutLookupOther(cs, uid, conn, k);
    }
  }

  // ----- the cleanup ------------------------------------------------------

  /** The first position whose connection is `conn`. */
  function ConnIndex(cs: seq<Entry>, conn: ConnId): (r: Option<nat>)
    ensures r.Some? ==> r.value < |cs| && cs[r.value].conn == conn && forall j | 0 <= j < r.value :: cs[j].conn != conn
    ensures r.None? <==> forall e | e in cs :: e.conn != conn
  {
    if cs == [] then None
    else if cs[0].conn == conn then Some(0)
    else match ConnIndex(cs[1..], conn)
      case None => None
      case Some(i) =>
        assert forall j | 0 < j < i + 1 :: cs[j] == cs[1..][j - 1];
        Some(i + 1)
  }

  /** The `finally` block: delete the first entry whose value is `conn`, then stop. */
  function RemoveFirst(cs: seq<Entry>, conn: ConnId): seq<Entry> {
    match ConnIndex(cs, conn)
    case None => cs
    case Some(i) => cs[..i] + cs[i + 1..]
  }

  /** Deleting position `i` shifts every later entry down by one. */
  lemma RemoveAtShape(cs: seq<Entry>, i: nat)
    requires i < |cs|
    ensures var r := cs[..i] + cs[i + 1..];
            |r| == |cs| - 1 && forall j | 0 <= j < |r| :: r[j] == (if j < i then cs[j] else cs[j + 1])
  {
  }

  lemma RemoveFirstDistinct(cs: seq<Entry>, conn: ConnId)
    requires DistinctKeys(cs)
    ensures DistinctKeys(RemoveFirst(cs, conn))
  {
    match ConnIndex(cs, conn)
    case None =>
    case Some(i) =>
      var r := RemoveFirst(cs, conn);
      RemoveAtShape(cs, i);
      forall a, b | 0 <= a < b < |r| ensures r[a].userId != r[b].userId {
        var a', b' := if a < i then a else a + 1, if b < i then b else b + 1;
        assert r[a] == cs[a'] && r[b] == cs[b'];
      }
  }

  /** Deleting position `i` keeps every other entry and, where keys are distinct, drops the key at `i`. */
  lemma RemoveAtMembers(cs: seq<Entry>, i: nat)
    requires i < |cs| && DistinctKeys(cs)
    ensures forall e | e in cs[..i] + cs[i + 1..] :: e in cs && e.userId != cs[i].userId
    ensures forall j | 0 <= j < |cs| && j != i :: cs[j] in cs[..i] + cs[i + 1..]
  {
    var r := cs[..i] + cs[i + 1..];
    RemoveAtShape(cs, i);
    forall e | e in r
      ensures e in cs && e.userId != cs[i].userId
    {
      var j :| 0 <= j < |r| && r[j] == e;
      var j' := if j < i then j else j + 1;
      assert cs[j'] == e;
    }
    forall j | 0 <= j < |cs| && j != i
      ensures cs[j] in r
    {
      var j' := if j < i then j else j - 1;
      assert r[j'] == cs[j];
    }
  }

  lemma RemoveFirstKeeps(cs: seq<Entry>, conn: ConnId, k: int)
    requires DistinctKeys(cs) && Lookup(cs, k) != Some(conn)
    ensures Lookup(RemoveFirst(cs, conn), k) == Lookup(cs, k)
  {
    match ConnIndex(cs, conn)
    case None =>
    case Some(i) =>
      RemoveAtMembers(cs, i);
      LookupAt(cs, i);
      match Lookup(cs, k)
      case None =>
      case Some(c) =>
        var j :| 0 <= j < |cs| && cs[j] == Entry(k, c);
        RemoveFirstDistinct(cs, conn);
        LookupIn(RemoveFirst(cs, conn), Entry(k, c));
  }

  lemma RemoveFirstDrops(cs: seq<Entry>, conn: ConnId, k: int)
    requires DistinctKeys(cs) && Lookup(cs, k) == Some(conn)
    requires forall e | e in cs && e.userId != k :: e.conn != conn
    ensures Lookup(RemoveFirst(cs, conn), k).None?
  {
    var i := ConnIndex(cs, conn).value;
    assert cs[i] in cs;
    RemoveAtMembers(cs, i);
  }

  /**
   * The cleanup keeps every entry whose value is another connection: a user
   * whose entry a newer login replaced keeps that entry when the old
   * connection closes. An entry that was this connection's only one is gone.
   */
  lemma RemoveFirstLookup(cs: seq<Entry>, conn: ConnId)
    requires DistinctKeys(cs)
    ensures DistinctKeys(RemoveFirst(cs, conn))
    ensures forall k | Lookup(cs, k) != Some(conn) :: Lookup(RemoveFirst(cs, conn), k) == Lookup(cs, k)
    ensures forall k | Lookup(cs, k) == Some(conn) && (forall e | e in cs && e.userId != k :: e.conn != conn) ::
              Lookup(RemoveFirst(cs, conn), k).None?
  {
    RemoveFirstDistinct(cs, conn);
    forall k | Lookup(cs, k) != Some(conn)
      ensures Lookup(RemoveFirst(cs, conn), k) == Lookup(cs, k)
    {
      RemoveFirstKeeps(cs, conn, k);
    }
    forall k | Lookup(cs, k) == Some(conn) && (forall e | e in cs && e.userId != k :: e.conn != conn)
      ensures Lookup(RemoveFirst(cs, conn), k).None?
    {
      RemoveFirstDrops(cs, conn, k);
    }
  }

  // ----- one connection ---------------------------------------------------

  datatype Opened = Opened(server: Server, session: Option<UserInfo>)

  predicate IsLogin(f: Frame) {
    f.Login? && f.username.Some? && f.password.Some?
  }

  /**
   * The first frame. Only a complete `login` frame is looked at; anything
   * else (another type, a missing field, an undecodable payload) ends the
   * handler with no reply. A good login sends `auth` success and then stores
   * the connection under the user's id; a bad one sends `auth` failure.
   */
  function Open(s: Server, conn: ConnId, first: Frame): (r: Opened)
    ensures r.server.db == s.db
    ensures !IsLogin(first) ==> r == Opened(s, None)
    ensures r.session.Some? ==> IsLogin(first) && r.session == VerifyUser(s.db, first.username.value, first.password.value)
  {
    match first
    case Login(Some(username), Some(password)) =>
      (match VerifyUser(s.db, username, password)
       case Some(user) =>
         Opened(s.(outbox := s.outbox + [Sent(conn, AuthOk(user.userId, user.username, user.nickname))],
                   clients := Put(s.clients, user.userId, conn)),
                Some(user))
       case None =>
         Opened(s.(outbox := s.outbox + [Sent(conn, AuthFailed(AuthFailedMessage))]), None))
    case _ => Opened(s, None)
  }

  /**
   * A good login answers with the user's id, username and nickname, and
   * afterwards the user's id leads to this connection, whichever connection it
   * led to before (the last login wins); no other entry changes.
   */
  lemma LoginSucceeds(s: Server, conn: ConnId, username: string, password: string)
    requires DistinctKeys(s.clients)
    ensures var r := Open(s, conn, Login(Some(username), Some(password)));
            && DistinctKeys(r.server.clients)
            && (r.session.Some? ==>
                  && (exists u | u in s.db.users :: u.username == username && u.password == password && r.session.value == Info(u))
                  && r.server.outbox == s.outbox + [Sent(conn, AuthOk(r.session.value.userId, r.session.value.username, r.session.value.nickname))]
                  && Lookup(r.server.clients, r.session.value.userId) == Some(conn)
                  && forall k | k != r.session.value.userId :: Lookup(r.server.clients, k) == Lookup(s.clients, k))
  {
    var r := Open(s, conn, Login(Some(username), Some(password)));
    if r.session.Some? {
      PutLookup(s.clients, r.session.value.userId, conn);
    }
  }

  /** A failed login answers with the failure message and leaves `clients` and the store alone. */
  lemma LoginFails(s: Server, conn: ConnId, username: string, password: string)
    ensures var r := Open(s, conn, Login(Some(username), Some(password)));
            r.session.None? <==>
              && (forall u | u in s.db.users :: u.username != username || u.password != password)
              && r.server == s.(outbox := s.outbox + [Sent(conn, AuthFailed(AuthFailedMessage))])
  {
  }

  /** The `history` reply: empty when the field is missing, the nickname is unknown, or encoding fails. */
  function HistoryReply(db: Db, encodes: seq<HistoryRow> -> bool, user: UserInfo, nickname: Option<string>): seq<HistoryRow> {
    match nickname
    case None => []
    case Some(n) =>
      match Find(db, Nickname(n))
      case None => []
      case Some(friend) =>
        var rows := ChatHistory(db, user.userId, friend.userId);
        if encodes(rows) then rows else []
  }

  /**
   * What one frame of the read loop stores: a `message` frame whose nickname
   * resolves adds one row (sender the session's user, receiver the resolved
   * user, type defaulting to `'text'`), whether or not the recipient is
   * online. Nothing else changes the store.
   */
  function Stored(db: Db, user: UserInfo, a: Arrival): Db {
    match a.frame
    case SendMessage(Some(to), Some(content), kind) =>
      (match Find(db, Nickname(to))
       case None => db
       case Some(target) => SaveMessage(db, user.userId, target.userId, content, kind.GetOr(DefaultMessageType), a.dbTime))
    case _ => db
  }

  /**
   * What one frame of the read loop sends, for the session's `user` on
   * connection `conn`: a `friends_list` for the frame's own `user_id`, exactly
   * one `history` for every `get_history`, and for a `message` a forward to the
   * recipient's connection only if `clients` has one. Everything else is
   * ignored. `encodes` says whether `json.dumps` accepts a list of history rows.
   */
  function Replies(s: Server, encodes: seq<HistoryRow> -> bool, conn: ConnId, user: UserInfo, a: Arrival): seq<Sent> {
    match a.frame
    case GetFriends(Some(uid)) => [Sent(conn, FriendsList(FriendsOf(s.db, uid)))]
    case GetHistory(nickname) => [Sent(conn, History(HistoryReply(s.db, encodes, user, nickname)))]
    case SendMessage(Some(to), Some(content), kind) =>
      (match Find(s.db, Nickname(to))
       case None => []
       case Some(target) =>
         match Lookup(s.clients, target.userId)
         case None => []
         case Some(c) => [Sent(c, Forward(user.userId, user.nickname, content, kind.GetOr(DefaultMessageType), a.localTime))])
    case _ => []
  }

  /** One frame of the read loop. */
  function Dispatch(s: Server, encodes: seq<HistoryRow> -> bool, conn: ConnId, user: UserInfo, a: Arrival): Server {
    s.(db := Stored(s.db, user, a), outbox := s.outbox + Replies(s, encodes, conn, user, a))
  }

  /** The read loop over the frames after the login. */
  function Serve(s: Server, encodes: seq<HistoryRow> -> bool, conn: ConnId, user: UserInfo, arrivals: seq<Arrival>): Server
    decreases |arrivals|
  {
    if arrivals == [] then s
    else Dispatch(Serve(s, encodes, conn, user, arrivals[..|arrivals| - 1]), encodes, conn, user, arrivals[|arrivals| - 1])
  }

  /** The read loop's next frame. */
  lemma ServeStep(s: Server, encodes: seq<HistoryRow> -> bool, conn: ConnId, user: UserInfo, arrivals: seq<Arrival>, i: nat)
    requires i < |arrivals|
    ensures Serve(s, encodes, conn, user, arrivals[..i + 1]) == Dispatch(Serve(s, encodes, conn, user, arrivals[..i]), encodes, conn, user, arrivals[i])
  {
    assert arrivals[..i + 1][..i] == arrivals[..i];
  }

  function Close(s: Server, conn: ConnId): Server {
    s.(clients := RemoveFirst(s.clients, conn))
  }

  /** The whole life of one connection that delivers `arrivals` and then closes. */
  function Life(s: Server, encodes: seq<HistoryRow> -> bool, conn: ConnId, arrivals: seq<Arrival>): Server {
    if arrivals == [] then Close(s, conn)
    else
      var o := Open(s, conn, arrivals[0].frame);
      if o.session.Some? then Close(Serve(o.server, encodes, conn, o.session.value, arrivals[1..]), conn)
      else Close(o.server, conn)
  }

  // ----- properties of the read loop ---------------------------------------

  /**
   * A `message` frame: a resolved nickname stores exactly one row whatever the
   * recipient's presence, and a forward goes out exactly when `clients` has
   * the recipient, to that connection; an unresolved one changes nothing.
   */
  lemma MessageFacts(s: Server, encodes: seq<HistoryRow> -> bool, conn: ConnId, user: UserInfo, to: string, content: string, kind: Option<string>, a: Arrival)
    requires a.frame == SendMessage(Some(to), Some(content), kind)
    ensures var s' := Dispatch(s, encodes, conn, user, a);
            && s'.clients == s.clients
            && match Find(s.db, Nickname(to))
               case None => s' == s
               case Some(target) =>
                 && (exists u | u in s.db.users :: u.nickname == to && target == Info(u))
                 && s'.db.messages == s.db.messages + [MessageRow(s.db.messageSeq + 1, user.userId, target.userId, content, kind.GetOr("text"), a.dbTime)]
                 && s'.db.users == s.db.users && s'.db.friendships == s.db.friendships
                 && (Lookup(s.clients, target.userId).None? <==> s'.outbox == s.outbox)
                 && (Lookup(s.clients, target.userId).Some? ==>
                       s'.outbox == s.outbox + [Sent(Lookup(s.clients, target.userId).value,
                                                     Forward(user.userId, user.nickname, content, kind.GetOr("text"), a.localTime))])
  {
    var s' := Dispatch(s, encodes, conn, user, a);
    match Find(s.db, Nickname(to))
    case None =>
    case Some(target) =>
      if Lookup(s.clients, target.userId).Some? {
        assert |s'.outbox| == |s.outbox| + 1;
      }
  }

  /**
   * A `get_history` frame gets exactly one `history` reply on this
   * connection, empty when the nickname is missing or unknown, and changes
   * nothing else.
   */
  lemma HistoryFacts(s: Server, encodes: seq<HistoryRow> -> bool, conn: ConnId, user: UserInfo, a: Arrival)
    requires a.frame.GetHistory?
    ensures var s' := Dispatch(s, encodes, conn, user, a);
            && s'.db == s.db && s'.clients == s.clients
            && exists rows :: s'.outbox == s.outbox + [Sent(conn, History(rows))]
                 && (a.frame.friendNickname.None? || (forall u | u in s.db.users :: u.nickname != a.frame.friendNickname.value) ==> rows == [])
                 && (rows != [] ==> exists u | u in s.db.users :: u.nickname == a.frame.friendNickname.value
                                      && rows == ChatHistory(s.db, user.userId, u.userId))
  {
    var rows := HistoryReply(s.db, encodes, user, a.frame.friendNickname);
    if rows != [] {
      var f := Find(s.db, Nickname(a.frame.friendNickname.value)).value;
      var u :| u in s.db.users && Matches(u, Nickname(a.frame.friendNickname.value)) && f == Info(u);
    }
  }

  /**
   * A `get_friends` frame answers with the friends of the id it carries, which
   * need not be the session's user. A frame the loop does not handle (another
   * type, a missing field, a payload that does not decode) changes nothing,
   * and the loop goes on.
   */
  lemma OtherFrames(s: Server, encodes: seq<HistoryRow> -> bool, conn: ConnId, user: UserInfo, a: Arrival)
    ensures a.frame.GetFriends? && a.frame.userId.Some? ==>
              Dispatch(s, encodes, conn, user, a) == s.(outbox := s.outbox + [Sent(conn, FriendsList(FriendsOf(s.db, a.frame.userId.value)))])
    ensures || a.frame.Unrecognised? || a.frame.Undecodable? || a.frame.Login? || a.frame == GetFriends(None)
            || (a.frame.SendMessage? && (a.frame.toNickname.None? || a.frame.content.None?))
            ==> Dispatch(s, encodes, conn, user, a) == s
  {
  }

  /**
   * Durability: a `message` frame between two registered users leaves its
   * row in their history, asked for from either side.
   */
  lemma DeliveredInHistory(s: Server, encodes: seq<HistoryRow> -> bool, conn: ConnId, user: UserRow, a: Arrival)
    requires Tables.Valid(s.db) && user in s.db.users
    requires a.frame.SendMessage? && a.frame.toNickname.Some? && a.frame.content.Some?
    requires Find(s.db, Nickname(a.frame.toNickname.value)).Some?
    ensures var db' := Dispatch(s, encodes, conn, Info(user), a).db;
            var target := Find(s.db, Nickname(a.frame.toNickname.value)).value;
            && |db'.messages| == |s.db.messages| + 1
            && (exists h | h in ChatHistory(db', user.userId, target.userId) :: h.message == db'.messages[|db'.messages| - 1])
            && (exists h | h in ChatHistory(db', target.userId, user.userId) :: h.message == db'.messages[|db'.messages| - 1])
  {
    var to, content := a.frame.toNickname.value, a.frame.content.value;
    var target := Find(s.db, Nickname(to)).value;
    var t :| t in s.db.users && Matches(t, Nickname(to)) && target == Info(t);
    var kind := a.frame.messageType.GetOr(DefaultMessageType);
    var db' := SaveMessage(s.db, user.userId, t.userId, content, kind, a.dbTime);
    assert Stored(s.db, Info(user), a) == db';
    SavedMessageInHistory(s.db, user, t, content, kind, a.dbTime);
  }

  /** The number of `history` frames sent on `conn`. */
  function HistoryReplies(out: seq<Sent>, conn: ConnId): nat {
    if out == [] then 0
    else HistoryReplies(out[..|out| - 1], conn) + (if out[|out| - 1].conn == conn && out[|out| - 1].frame.History? then 1 else 0)
  }

  /** The number of `get_history` frames. */
  function HistoryRequests(arrivals: seq<Arrival>): nat {
    if arrivals == [] then 0
    else HistoryRequests(arrivals[..|arrivals| - 1]) + (if arrivals[|arrivals| - 1].frame.GetHistory? then 1 else 0)
  }

  lemma {:induction false} HistoryRepliesAppend(out: seq<Sent>, more: seq<Sent>, conn: ConnId)
    ensures HistoryReplies(out + more, conn) == HistoryReplies(out, conn) + HistoryReplies(more, conn)
    decreases |more|
  {
    if more == [] {
      assert out + more == out;
    } else {
      var init := more[..|more| - 1];
      assert (out + more)[..|out + more| - 1] == out + init;
      HistoryRepliesAppend(out, init, conn);
    }
  }

  /**
   * The read loop keeps `clients`, `users` and `friendships`, and only
   * appends to `chat_messages` and to the frames sent.
   */
  lemma {:induction false} ServeKeeps(s: Server, encodes: seq<HistoryRow> -> bool, conn: ConnId, user: UserInfo, arrivals: seq<Arrival>)
    ensures var s' := Serve(s, encodes, conn, user, arrivals);
            && s'.clients == s.clients
            && s'.db.users == s.db.users && s'.db.friendships == s.db.friendships
            && s.outbox <= s'.outbox && s.db.messages <= s'.db.messages
    decreases |arrivals|
  {
    if arrivals != [] {
      ServeKeeps(s, encodes, conn, user, arrivals[..|arrivals| - 1]);
    }
  }

  /** The read loop answers the `get_history` frames with exactly as many `history` frames on this connection. */
  lemma {:induction false} ServeAnswersHistory(s: Server, encodes: seq<HistoryRow> -> bool, conn: ConnId, user: UserInfo, arrivals: seq<Arrival>)
    ensures var s' := Serve(s, encodes, conn, user, arrivals);
            |s.outbox| <= |s'.outbox| && HistoryReplies(s'.outbox[|s.outbox|..], conn) == HistoryRequests(arrivals)
    decreases |arrivals|
  {
    if arrivals != [] {
      var init, a := arrivals[..|arrivals| - 1], arrivals[|arrivals| - 1];
      ServeAnswersHistory(s, encodes, conn, user, init);
      ServeKeeps(s, encodes, conn, user, init);
      var m := Serve(s, encodes, conn, user, init);
      var added := Replies(m, encodes, conn, user, a);
      assert Serve(s, encodes, conn, user, arrivals).outbox[|s.outbox|..] == m.outbox[|s.outbox|..] + added;
      HistoryRepliesAppend(m.outbox[|s.outbox|..], added, conn);
      RepliesAnswerHistory(m, encodes, conn, user, a);
    }
  }

  /** One frame's replies hold one `history` frame on `conn` for a `get_history`, none otherwise. */
  lemma RepliesAnswerHistory(s: Server, encodes: seq<HistoryRow> -> bool, conn: ConnId, user: UserInfo, a: Arrival)
    ensures HistoryReplies(Replies(s, encodes, conn, user, a), conn) == if a.frame.GetHistory? then 1 else 0
  {
    var added := Replies(s, encodes, conn, user, a);
    assert added == [] || added == [added[0]];
    if added != [] {
      assert added[..0] == [];
    }
  }

  /**
   * As CPython's `json` module behaves, a list of `sqlite3.Row`s cannot be
   * encoded unless it is empty; then every `history` reply the read loop sends
   * is empty.
   */
  lemma {:induction false} HistoryAlwaysEmptyUnderCPython(s: Server, encodes: seq<HistoryRow> -> bool, conn: ConnId, user: UserInfo, arrivals: seq<Arrival>)
    requires forall rows :: encodes(rows) ==> rows == []
    ensures var s' := Serve(s, encodes, conn, user, arrivals);
            forall i | |s.outbox| <= i < |s'.outbox| && s'.outbox[i].frame.History? :: s'.outbox[i].frame.messages == []
    decreases |arrivals|
  {
    if arrivals != [] {
      var init := arrivals[..|arrivals| - 1];
      HistoryAlwaysEmptyUnderCPython(s, encodes, conn, user, init);
      ServeKeeps(s, encodes, conn, user, init);
    }
  }

  /** Every frame the read loop sends goes to this connection, or is a forward to a connection `clients` holds. */
  lemma {:induction false} ServeSendsOnlyToKnown(s: Server, encodes: seq<HistoryRow> -> bool, conn: ConnId, user: UserInfo, arrivals: seq<Arrival>)
    ensures var s' := Serve(s, encodes, conn, user, arrivals);
            forall i | |s.outbox| <= i < |s'.outbox| ::
              s'.outbox[i].conn == conn || (s'.outbox[i].frame.Forward? && exists e | e in s.clients :: e.conn == s'.outbox[i].conn)
    decreases |arrivals|
  {
    if arrivals != [] {
      var init := arrivals[..|arrivals| - 1];
      ServeSendsOnlyToKnown(s, encodes, conn, user, init);
      ServeKeeps(s, encodes, conn, user, init);
    }
  }

  // ----- properties of a connection's life ---------------------------------

  /**
   * A connection whose first frame is not a complete `login` gets no reply and
   * never enters `clients`: if it was not there before, nothing changes.
   */
  lemma LifeWithoutLogin(s: Server, encodes: seq<HistoryRow> -> bool, conn: ConnId, arrivals: seq<Arrival>)
    requires arrivals == [] || !IsLogin(arrivals[0].frame)
    requires forall e | e in s.clients :: e.conn != conn
    ensures Life(s, encodes, conn, arrivals) == s
  {
  }

  /**
   * A logged-in connection that closes takes its user's entry out of
   * `clients`, even an entry an earlier, still open connection had for that
   * user (it was overwritten at login); every other entry is as before.
   */
  lemma LifeEndsSession(s: Server, encodes: seq<HistoryRow> -> bool, conn: ConnId, arrivals: seq<Arrival>)
    requires DistinctKeys(s.clients) && forall e | e in s.clients :: e.conn != conn
    requires arrivals != [] && Open(s, conn, arrivals[0].frame).session.Some?
    ensures var uid := Open(s, conn, arrivals[0].frame).session.value.userId;
            var s' := Life(s, encodes, conn, arrivals);
            && Lookup(s'.clients, uid).None?
            && (forall k | k != uid :: Lookup(s'.clients, k) == Lookup(s.clients, k))
            && s'.db.users == s.db.users && s'.db.friendships == s.db.friendships
  {
    var first := arrivals[0].frame;
    var o := Open(s, conn, first);
    var uid := o.session.value.userId;
    LoginSucceeds(s, conn, first.username.value, first.password.value);
    var cs := o.server.clients;
    ServeKeeps(o.server, encodes, conn, o.session.value, arrivals[1..]);
    forall e | e in cs && e.userId != uid
      ensures e.conn != conn
    {
      LookupIn(cs, e);
      assert Lookup(s.clients, e.userId) == Some(e.conn);
    }
    RemoveFirstLookup(cs, conn);
  }

  /**
   * Last login wins, and a stale close does no harm: the same user logs in on
   * `older` and then on `newer`; when `older` closes, the user's entry still
   * leads to `newer`.
   */
  lemma StaleCloseKeepsNewerLogin(s: Server, older: ConnId, newer: ConnId, username: string, password: string)
    requires DistinctKeys(s.clients) && older != newer
    requires VerifyUser(s.db, username, password).Some?
    ensures var uid := VerifyUser(s.db, username, password).value.userId;
            var first := Open(s, older, Login(Some(username), Some(password))).server;
            var second := Open(first, newer, Login(Some(username), Some(password))).server;
            && Lookup(first.clients, uid) == Some(older)
            && Lookup(second.clients, uid) == Some(newer)
            && Lookup(Close(second, older).clients, uid) == Some(newer)
  {
    LoginSucceeds(s, older, username, password);
    var first := Open(s, older, Login(Some(username), Some(password))).server;
    LoginSucceeds(first, newer, username, password);
    var second := Open(first, newer, Login(Some(username), Some(password))).server;
    RemoveFirstLookup(second.clients, older);
  }
}
