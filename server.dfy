/**
 * The `ChatServer` class of server.py: the store, the `clients` dictionary
 * and, standing in for the sockets, the sequence of frames sent. Every method
 * changes these fields step by step and is proved against the function of
 * `Relay` that gives the whole change.
 */
module Server {
  import opened Wrappers
  import opened Tables
  import Store
  import opened Relay

  class ChatServer {
    const db: Store.Database
    /** `self.clients`, in dictionary order. */
    var clients: seq<Entry>
    /** Every frame sent so far, on any connection. */
    var outbox: seq<Sent>
    /** Whether `json.dumps` accepts a list of history rows. */
    const encodes: seq<HistoryRow> -> bool

    function State(): Relay.Server
      reads this, db
    {
      Relay.Server(db.Snapshot(), clients, outbox)
    }

    ghost predicate Valid()
      reads this, db
    {
      db.Valid() && DistinctKeys(clients)
    }

    /** `ChatServer()`: the store as the file holds it, nobody connected. */
    constructor (stored: Db, encodes: seq<HistoryRow> -> bool)
      requires Tables.Valid(stored)
      ensures Valid() && fresh(db)
      ensures State() == Relay.Server(stored, [], []) && this.encodes == encodes
    {
      db := new Store.Database(stored);
      clients, outbox := [], [];
      this.encodes := encodes;
    }

    /** `uid in self.clients` and `self.clients[uid]`, by a walk over the entries. */
    method Connection(uid: int) returns (r: Option<ConnId>)
      ensures r == Lookup(clients, uid)
      ensures r.Some? <==> exists e | e in clients :: e.userId == uid
    {
      var i := 0;
      while i < |clients|
        invariant 0 <= i <= |clients|
        invariant Lookup(clients, uid) == Lookup(clients[i..], uid)
      {
        if clients[i].userId == uid {
          return Some(clients[i].conn);
        }
        assert clients[i..][1..] == clients[i + 1..];
        i := i + 1;
      }
      return None;
    }

    /** `self.clients[uid] = conn`. */
    method Register(uid: int, conn: ConnId)
      requires DistinctKeys(clients)
      modifies this
      ensures clients == Put(old(clients), uid, conn) && DistinctKeys(clients)
      ensures outbox == old(outbox)
    {
      PutLookup(clients, uid, conn);
      var i := 0;
      while i < |clients|
        invariant 0 <= i <= |clients|
        invariant forall j | 0 <= j < i :: clients[j].userId != uid
      {
        if clients[i].userId == uid {
          assert KeyIndex(clients, uid) == Some(i);
          clients := clients[i := Entry(uid, conn)];
          return;
        }
        i := i + 1;
      }
      clients := clients + [Entry(uid, conn)];
    }

    /** `websocket.send(...)`. */
    method Send(conn: ConnId, frame: OutFrame)
      modifies this
      ensures outbox == old(outbox) + [Sent(conn, frame)]
      ensures clients == old(clients)
    {
      outbox := outbox + [Sent(conn, frame)];
    }

    /** The login on the first frame; the session's user when it succeeds. */
    method Open(conn: ConnId, first: Frame) returns (session: Option<UserInfo>)
      requires Valid()
      modifies this
      ensures Valid()
      ensures Opened(State(), session) == Relay.Open(old(State()), conn, first)
    {
      match first {
        case Login(Some(username), Some(password)) =>
          var user := db.VerifyUser(username, password);
          if user.Some? {
            Send(conn, AuthOk(user.value.userId, user.value.username, user.value.nickname));
            Register(user.value.userId, conn);
          } else {
            Send(conn, AuthFailed(AuthFailedMessage));
          }
          session := user;
        case _ =>
          session := None;
      }
    }

    /** The `get_history` branch. */
    method AnswerHistory(conn: ConnId, user: UserInfo, nickname: Option<string>)
      modifies this
      ensures outbox == old(outbox) + [Sent(conn, History(HistoryReply(db.Snapshot(), encodes, user, nickname)))]
      ensures clients == old(clients)
    {
      if nickname.None? {
        Send(conn, History([]));
        return;
      }
      var friend := db.GetUserByNickname(nickname.value);
      if friend.None? {
        Send(conn, History([]));
        return;
      }
      var history := db.GetChatHistory(user.userId, friend.value.userId);
      if encodes(history) {
        Send(conn, History(history));
      } else {
        Send(conn, History([]));
      }
    }

    /** The `message` branch: store the message, then forward it if the recipient is connected. */
    method Deliver(conn: ConnId, user: UserInfo, to: string, content: string, kind: Option<string>, a: Arrival)
      requires db.Valid()
      modifies this, db
      ensures db.Valid()
      ensures db.Snapshot() == Stored(old(db.Snapshot()), user, Arrival(SendMessage(Some(to), Some(content), kind), a.dbTime, a.localTime))
      ensures clients == old(clients)
      ensures outbox == old(outbox) + Replies(old(State()), encodes, conn, user, Arrival(SendMessage(Some(to), Some(content), kind), a.dbTime, a.localTime))
    {
      var toUser := db.GetUserByNickname(to);
      if toUser.None? {
        return;
      }
      var messageType := kind.GetOr(DefaultMessageType);
      var _ := db.SaveMessage(user.userId, toUser.value.userId, content, a.dbTime, messageType);
      var c := Connection(toUser.value.userId);
      if c.Some? {
        Send(c.value, Forward(user.userId, user.nickname, content, messageType, a.localTime));
      }
    }

    /** One frame of the read loop. */
    method Dispatch(conn: ConnId, user: UserInfo, a: Arrival)
      requires Valid()
      modifies this, db
      ensures Valid()
      ensures State() == Relay.Dispatch(old(State()), encodes, conn, user, a)
    {
      match a.frame {
        case GetFriends(Some(uid)) =>
          var friends := db.GetFriends(uid);
          Send(conn, FriendsList(friends));
        case GetHistory(nickname) =>
          AnswerHistory(conn, user, nickname);
        case SendMessage(Some(to), Some(content), kind) =>
          Deliver(conn, user, to, content, kind, a);
        case _ =>
      }
    }

    /** The `finally` block: delete the first entry whose value is `conn`, then stop. */
    method Cleanup(conn: ConnId)
      modifies this
      ensures clients == RemoveFirst(old(clients), conn)
      ensures outbox == old(outbox)
    {
      var i := 0;
      while i < |clients|
        invariant 0 <= i <= |clients|
        invariant forall j | 0 <= j < i :: clients[j].conn != conn
      {
        if clients[i].conn == conn {
          assert ConnIndex(clients, conn) == Some(i);
          clients := clients[..i] + clients[i + 1..];
          return;
        }
        i := i + 1;
      }
    }

    /** The `async for message in websocket` loop after a good login. */
    method ReadLoop(conn: ConnId, user: UserInfo, arrivals: seq<Arrival>)
      requires Valid()
      modifies this, db
      ensures Valid()
      ensures State() == Serve(old(State()), encodes, conn, user, arrivals)
    {
      ghost var start := State();
      var i := 0;
      while i < |arrivals|
        invariant 0 <= i <= |arrivals|
        invariant Valid()
        invariant State() == Serve(start, encodes, conn, user, arrivals[..i])
      {
        ServeStep(start, encodes, conn, user, arrivals, i);
        Dispatch(conn, user, arrivals[i]);
        i := i + 1;
      }
      assert arrivals[..i] == arrivals;
    }

    /**
     * `handle_client` for a connection that delivers `arrivals` and then
     * closes: the login, the read loop when the login succeeds, the cleanup.
     */
    method HandleClient(conn: ConnId, arrivals: seq<Arrival>)
      requires Valid()
      modifies this, db
      ensures Valid()
      ensures State() == Life(old(State()), encodes, conn, arrivals)
    {
      if arrivals == [] {
        Cleanup(conn);
        RemoveFirstDistinct(old(clients), conn);
        return;
      }
      var session := Open(conn, arrivals[0].frame);
      if session.Some? {
        ReadLoop(conn, session.value, arrivals[1..]);
      }
      ghost var before := clients;
      Cleanup(conn);
      RemoveFirstDistinct(before, conn);
    }
  }
}
