/**
 * The three SQLite tables of the chat store (`users`, `friendships`,
 * `chat_messages`) as one value, and every store operation as a function on
 * that value. The class `Store.Database` performs the same operations in place
 * and is proved against these functions.
 */
module Tables {
  import opened Wrappers

  /** One row of `users`; `user_id` is the AUTOINCREMENT primary key, `username` is UNIQUE. */
  datatype UserRow = UserRow(userId: int, username: string, password: string, nickname: string, avatarPath: string)

  /** The four columns every user query selects (the password never leaves the store). */
  datatype UserInfo = UserInfo(userId: int, username: string, nickname: string, avatarPath: string)

  function Info(u: UserRow): UserInfo {
    UserInfo(u.userId, u.username, u.nickname, u.avatarPath)
  }

  /** The only two values the code ever writes to `friendships.status`. */
  datatype Status = Pending | Accepted

  /** One directed row of `friendships`; the primary key is `(user_id, friend_id)`. */
  datatype Edge = Edge(userId: int, friendId: int, status: Status)

  /** One row of `chat_messages`; `timestamp` is the value of the store's clock at insertion. */
  datatype MessageRow = MessageRow(messageId: int, fromId: int, toId: int, content: string, messageType: string, timestamp: nat)

  /** A row of the history query: the message joined with both users' nicknames. */
  datatype HistoryRow = HistoryRow(message: MessageRow, fromNickname: string, toNickname: string)

  /**
   * The whole database. Rows are kept in table (rowid) order; `userSeq` and
   * `messageSeq` are the AUTOINCREMENT counters of `sqlite_sequence`.
   */
  datatype Db = Db(users: seq<UserRow>, friendships: seq<Edge>, messages: seq<MessageRow>, userSeq: nat, messageSeq: nat)

  const Empty: Db := Db([], [], [], 0, 0)

  /** The constraints the schema enforces: keys unique, AUTOINCREMENT ids increasing and counted. */
  ghost predicate Valid(db: Db) {
    && (forall i | 0 <= i < |db.users| :: 0 < db.users[i].userId <= db.userSeq)
    && (forall i, j | 0 <= i < j < |db.users| :: db.users[i].userId < db.users[j].userId)
    && (forall i, j | 0 <= i < j < |db.users| :: db.users[i].username != db.users[j].username)
    && (forall i, j | 0 <= i < j < |db.friendships| ::
          db.friendships[i].userId != db.friendships[j].userId || db.friendships[i].friendId != db.friendships[j].friendId)
    && (forall i | 0 <= i < |db.messages| :: 0 < db.messages[i].messageId <= db.messageSeq)
    && (forall i, j | 0 <= i < j < |db.messages| :: db.messages[i].messageId < db.messages[j].messageId)
  }

  // ----- user lookups ---------------------------------------------------

  /** The WHERE clauses the user queries use. */
  datatype Column = Username(username: string) | Nickname(nickname: string) | Id(userId: int) | Credentials(name: string, password: string)

  predicate Matches(u: UserRow, c: Column) {
    match c
    case Username(n) => u.username == n
    case Nickname(n) => u.nickname == n
    case Id(i) => u.userId == i
    case Credentials(n, p) => u.username == n && u.password == p
  }

  /** `SELECT ... WHERE <c> ... fetchone()`: some row that matches, None exactly when no row does. */
  function Select(users: seq<UserRow>, c: Column): (r: Option<UserRow>)
    ensures r.Some? ==> r.value in users && Matches(r.value, c)
    ensures r.None? <==> forall i | 0 <= i < |users| :: !Matches(users[i], c)
  {
    if users == [] then None
    else if Matches(users[0], c) then Some(users[0])
    else Select(users[1..], c)
  }

  /** The four selected columns of the row `Select` finds. */
  function Find(db: Db, c: Column): (r: Option<UserInfo>)
    ensures r.Some? ==> exists u | u in db.users :: Matches(u, c) && r.value == Info(u)
    ensures r.None? <==> forall u | u in db.users :: !Matches(u, c)
  {
    match Select(db.users, c)
    case None => None
    case Some(u) => Some(Info(u))
  }

  /** A column the schema keeps unique: the username, the id, and so also the credentials. */
  predicate UniqueColumn(c: Column) {
    !c.Nickname?
  }

  lemma {:induction false} SelectUnique(users: seq<UserRow>, c: Column, k: nat)
    requires k < |users| && Matches(users[k], c) && UniqueColumn(c)
    requires forall i, j | 0 <= i < j < |users| :: users[i].userId < users[j].userId
    requires forall i, j | 0 <= i < j < |users| :: users[i].username != users[j].username
    ensures Select(users, c) == Some(users[k])
  {
    if k > 0 {
      assert !Matches(users[0], c);
      SelectUnique(users[1..], c, k - 1);
    }
  }

  /** On a unique column the query finds THE matching row, whichever it is. */
  lemma FindUnique(db: Db, c: Column, u: UserRow)
    requires Valid(db) && UniqueColumn(c) && u in db.users && Matches(u, c)
    ensures Find(db, c) == Some(Info(u))
  {
    var k :| 0 <= k < |db.users| && db.users[k] == u;
    SelectUnique(db.users, c, k);
  }

  /**
   * `verify_user`: the user's four columns exactly when some row has both this
   * username and this password, None otherwise.
   */
  function VerifyUser(db: Db, username: string, password: string): (r: Option<UserInfo>)
    ensures r.Some? <==> exists u | u in db.users :: u.username == username && u.password == password
    ensures r.Some? ==> exists u | u in db.users :: u.username == username && u.password == password && r.value == Info(u)
  {
    Find(db, Credentials(username, password))
  }

  // ----- users: insertion -----------------------------------------------

  datatype Inserted = Inserted(db: Db, id: Option<int>)

  /**
   * `add_user`: the UNIQUE constraint on `username` rejects a taken name and
   * leaves the table as it was; otherwise one row with the next AUTOINCREMENT id
   * is appended and that id is returned.
   */
  function AddUser(db: Db, username: string, password: string, nickname: string, avatarPath: string): (r: Inserted)
    ensures r.id.None? <==> exists u | u in db.users :: u.username == username
    ensures r.id.None? ==> r.db == db
    ensures r.id.Some? ==>
              && r.id.value == db.userSeq + 1
              && r.db == db.(users := db.users + [UserRow(r.id.value, username, password, nickname, avatarPath)], userSeq := r.id.value)
  {
    if Find(db, Username(username)).Some? then Inserted(db, None)
    else
      var id := db.userSeq + 1;
      Inserted(db.(users := db.users + [UserRow(id, username, password, nickname, avatarPath)], userSeq := id), Some(id))
  }

  /** The new id is positive (so Python treats it as true) and no earlier row carries it. */
  lemma AddUserFresh(db: Db, username: string, password: string, nickname: string, avatarPath: string)
    requires Valid(db)
    ensures var r := AddUser(db, username, password, nickname, avatarPath);
            && Valid(r.db)
            && (r.id.Some? ==> r.id.value > 0 && forall u | u in db.users :: u.userId != r.id.value)
            && |r.db.users| == |db.users| + (if r.id.Some? then 1 else 0)
  {
  }

  /**
   * Registration followed by login: once `add_user` succeeds, `verify_user`
   * accepts exactly that username with exactly that password.
   */
  lemma {:induction false} RegisterThenLogin(db: Db, username: string, password: string, nickname: string, avatarPath: string, attempt: string)
    requires Valid(db)
    requires AddUser(db, username, password, nickname, avatarPath).id.Some?
    ensures var r := AddUser(db, username, password, nickname, avatarPath);
            VerifyUser(r.db, username, attempt) ==
              if attempt == password then Some(UserInfo(r.id.value, username, nickname, avatarPath)) else None
  {
    var r := AddUser(db, username, password, nickname, avatarPath);
    AddUserFresh(db, username, password, nickname, avatarPath);
    var row := r.db.users[|r.db.users| - 1];
    assert row in r.db.users;
    if attempt == password {
      FindUnique(r.db, Credentials(username, attempt), row);
    } else {
      forall u | u in r.db.users
        ensures !Matches(u, Credentials(username, attempt))
      {
        if u != row {
          assert u in db.users;
        }
      }
    }
  }

  // ----- friendships ----------------------------------------------------

  /** The status of the `(a, b)` row, if there is one. */
  function EdgeStatus(edges: seq<Edge>, a: int, b: int): (r: Option<Status>)
    ensures r.None? <==> forall e | e in edges :: e.userId != a || e.friendId != b
    ensures r.Some? ==> Edge(a, b, r.value) in edges
  {
    if edges == [] then None
    else if edges[0].userId == a && edges[0].friendId == b then Some(edges[0].status)
    else EdgeStatus(edges[1..], a, b)
  }

  predicate Links(e: Edge, a: int, b: int) {
    (e.userId == a && e.friendId == b) || (e.userId == b && e.friendId == a)
  }

  /** The status of some row joining `a` and `b` in either direction, if there is one. */
  function EdgeBetween(edges: seq<Edge>, a: int, b: int): (r: Option<Status>)
    ensures r.None? <==> forall e | e in edges :: !Links(e, a, b)
    ensures r.Some? ==> exists e | e in edges :: Links(e, a, b) && e.status == r.value
  {
    if edges == [] then None
    else if Links(edges[0], a, b) then Some(edges[0].status)
    else EdgeBetween(edges[1..], a, b)
  }

  datatype Changed = Changed(db: Db, ok: bool)

  /**
   * `add_friend`: two INSERTs of an `'accepted'` row, `(a, b)` then `(b, a)`.
   * A primary-key clash on either one makes it return false; no rollback is
   * issued, so a clash on the second keeps the first row.
   */
  function AddFriend(db: Db, a: int, b: int): (r: Changed)
    ensures r.ok <==> a != b && EdgeStatus(db.friendships, a, b).None? && EdgeStatus(db.friendships, b, a).None?
    ensures r.ok ==> r.db.friendships == db.friendships + [Edge(a, b, Accepted), Edge(b, a, Accepted)]
    ensures EdgeStatus(db.friendships, a, b).Some? ==> r == Changed(db, false)
    ensures EdgeStatus(db.friendships, a, b).None? && !r.ok ==> r.db.friendships == db.friendships + [Edge(a, b, Accepted)]
    ensures r.db.users == db.users && r.db.messages == db.messages
    ensures r.db.userSeq == db.userSeq && r.db.messageSeq == db.messageSeq
  {
    if EdgeStatus(db.friendships, a, b).Some? then Changed(db, false)
    else
      var first := db.friendships + [Edge(a, b, Accepted)];
      if EdgeStatus(first, b, a).Some? then Changed(db.(friendships := first), false)
      else Changed(db.(friendships := first + [Edge(b, a, Accepted)]), true)
  }

  /**
   * The half-written friendship: when `(a, b)` is new but `(b, a)` already
   * exists (or `a == b`), `add_friend` reports failure and still leaves the
   * `(a, b)` row behind.
   */
  lemma AddFriendHalfWrite(db: Db, a: int, b: int)
    requires EdgeStatus(db.friendships, a, b).None?
    requires a == b || EdgeStatus(db.friendships, b, a).Some?
    ensures var r := AddFriend(db, a, b);
            !r.ok && r.db.friendships == db.friendships + [Edge(a, b, Accepted)]
  {
  }

  /** Whatever `add_friend` does, an accepted row still has its reverse row. */
  ghost predicate AcceptedHaveReverse(edges: seq<Edge>) {
    forall e | e in edges && e.status == Accepted :: exists f | f in edges :: f.userId == e.friendId && f.friendId == e.userId
  }

  /** A row whose key is not taken yet keeps the keys of `friendships` unique. */
  lemma AppendEdgeKeepsValid(db: Db, e: Edge)
    requires Valid(db) && EdgeStatus(db.friendships, e.userId, e.friendId).None?
    ensures Valid(db.(friendships := db.friendships + [e]))
  {
    var fs := db.friendships + [e];
    forall i, j | 0 <= i < j < |fs|
      ensures fs[i].userId != fs[j].userId || fs[i].friendId != fs[j].friendId
    {
      if j == |fs| - 1 {
        assert fs[i] in db.friendships;
      } else {
        assert fs[i] == db.friendships[i] && fs[j] == db.friendships[j];
      }
    }
  }

  /** Appending rows whose accepted ones find their reverse among the result keeps every accepted row paired. */
  lemma AppendKeepsReverse(edges: seq<Edge>, added: seq<Edge>)
    requires AcceptedHaveReverse(edges)
    requires forall e | e in added && e.status == Accepted :: exists f | f in edges + added :: f.userId == e.friendId && f.friendId == e.userId
    ensures AcceptedHaveReverse(edges + added)
  {
    var fs := edges + added;
    forall e | e in fs && e.status == Accepted
      ensures exists f | f in fs :: f.userId == e.friendId && f.friendId == e.userId
    {
      if e in edges {
        var f :| f in edges && f.userId == e.friendId && f.friendId == e.userId;
        assert f in fs;
      } else {
        assert e in added;
      }
    }
  }

  /** `add_friend` keeps the schema's constraints, and keeps every accepted row paired when it was before. */
  lemma AddFriendKeepsReverse(db: Db, a: int, b: int)
    requires Valid(db)
    ensures Valid(AddFriend(db, a, b).db)
    ensures AcceptedHaveReverse(db.friendships) ==> AcceptedHaveReverse(AddFriend(db, a, b).db.friendships)
  {
    var edges := db.friendships;
    if EdgeStatus(edges, a, b).None? {
      var ab := Edge(a, b, Accepted);
      var first := edges + [ab];
      AppendEdgeKeepsValid(db, ab);
      var rev := EdgeStatus(first, b, a);
      if rev.Some? {
        assert Edge(b, a, rev.value) in first;
        if AcceptedHaveReverse(edges) {
          AppendKeepsReverse(edges, [ab]);
        }
      } else {
        var ba := Edge(b, a, Accepted);
        AppendEdgeKeepsValid(db.(friendships := first), ba);
        assert first + [ba] == edges + [ab, ba];
        assert ab in edges + [ab, ba] && ba in edges + [ab, ba];
        if AcceptedHaveReverse(edges) {
          AppendKeepsReverse(edges, [ab, ba]);
        }
      }
    }
  }

  const NoSuchUser := "用户不存在"
  const AlreadyFriends := "已经是好友"
  const RequestPending := "好友请求待处理"
  const RequestSent := "好友请求已发送"

  datatype Requested = Requested(db: Db, ok: bool, message: string)

  /**
   * `add_friend_request`: an unknown username and an existing row in either
   * direction are refused with the table unchanged; otherwise exactly one
   * `'pending'` row `(userId, friend)` is added, and not its reverse.
   */
  function AddFriendRequest(db: Db, userId: int, friendUsername: string): (r: Requested)
    ensures Find(db, Username(friendUsername)).None? ==> r == Requested(db, false, NoSuchUser)
    ensures Find(db, Username(friendUsername)).Some? ==>
              var f := Find(db, Username(friendUsername)).value.userId;
              match EdgeBetween(db.friendships, userId, f)
              case Some(Accepted) => r == Requested(db, false, AlreadyFriends)
              case Some(Pending) => r == Requested(db, false, RequestPending)
              case None => r == Requested(db.(friendships := db.friendships + [Edge(userId, f, Pending)]), true, RequestSent)
  {
    match Find(db, Username(friendUsername))
    case None => Requested(db, false, NoSuchUser)
    case Some(friend) =>
      match EdgeBetween(db.friendships, userId, friend.userId)
      case Some(Accepted) => Requested(db, false, AlreadyFriends)
      case Some(Pending) => Requested(db, false, RequestPending)
      case None => Requested(db.(friendships := db.friendships + [Edge(userId, friend.userId, Pending)]), true, RequestSent)
  }

  /** A refusal names the status of a row that really joins the two users, and changes nothing. */
  lemma AddFriendRequestRefusal(db: Db, userId: int, friendUsername: string)
    requires AddFriendRequest(db, userId, friendUsername).message in {AlreadyFriends, RequestPending}
    ensures var r := AddFriendRequest(db, userId, friendUsername);
            && !r.ok && r.db == db
            && exists f, e | f in db.users && e in db.friendships ::
                 && f.username == friendUsername && Links(e, userId, f.userId)
                 && e.status == (if r.message == AlreadyFriends then Accepted else Pending)
  {
    var found := Find(db, Username(friendUsername));
    var f :| f in db.users && Matches(f, Username(friendUsername)) && found.value == Info(f);
    var st := EdgeBetween(db.friendships, userId, f.userId);
    var e :| e in db.friendships && Links(e, userId, f.userId) && e.status == st.value;
  }

  /**
   * A sent request adds only the forward pending row; the reverse row did not
   * exist before and is not added.
   */
  lemma AddFriendRequestSent(db: Db, userId: int, friendUsername: string)
    requires AddFriendRequest(db, userId, friendUsername).ok
    ensures var r := AddFriendRequest(db, userId, friendUsername);
            && r.db.users == db.users && r.db.messages == db.messages
            && exists f | f in db.users :: f.username == friendUsername
                 && r.db.friendships == db.friendships + [Edge(userId, f.userId, Pending)]
                 && EdgeStatus(db.friendships, userId, f.userId).None?
                 && EdgeStatus(db.friendships, f.userId, userId).None?
  {
    var found := Find(db, Username(friendUsername));
    var f :| f in db.users && Matches(f, Username(friendUsername)) && found.value == Info(f);
  }

  /** A request keeps the keys unique and every accepted row paired with its reverse. */
  lemma AddFriendRequestKeepsReverse(db: Db, userId: int, friendUsername: string)
    requires Valid(db)
    ensures Valid(AddFriendRequest(db, userId, friendUsername).db)
    ensures AcceptedHaveReverse(db.friendships) ==> AcceptedHaveReverse(AddFriendRequest(db, userId, friendUsername).db.friendships)
  {
    var found := Find(db, Username(friendUsername));
    if found.Some? && EdgeBetween(db.friendships, userId, found.value.userId).None? {
      var e := Edge(userId, found.value.userId, Pending);
      assert EdgeStatus(db.friendships, userId, found.value.userId).None? by {
        forall g | g in db.friendships
          ensures g.userId != userId || g.friendId != found.value.userId
        {
          assert !Links(g, userId, found.value.userId);
        }
      }
      AppendEdgeKeepsValid(db, e);
      if AcceptedHaveReverse(db.friendships) {
        AppendKeepsReverse(db.friendships, [e]);
      }
    }
  }

  /** The friends' columns a `get_friends` row contributes: the user at `friend_id` of a row from `u`. */
  function FriendRow(users: seq<UserRow>, e: Edge, u: int): seq<UserInfo> {
    if e.userId != u then []
    else match Select(users, Id(e.friendId))
      case None => []
      case Some(w) => [Info(w)]
  }

  /** The `get_friends` join, row by row in table order. */
  function Friends(users: seq<UserRow>, edges: seq<Edge>, u: int): seq<UserInfo>
    decreases |edges|
  {
    if edges == [] then []
    else Friends(users, edges[..|edges| - 1], u) + FriendRow(users, edges[|edges| - 1], u)
  }

  function FriendsOf(db: Db, u: int): seq<UserInfo> {
    Friends(db.users, db.friendships, u)
  }

  lemma {:induction false} FriendsMembers(users: seq<UserRow>, edges: seq<Edge>, u: int, x: UserInfo)
    requires forall i, j | 0 <= i < j < |users| :: users[i].userId < users[j].userId
    requires forall i, j | 0 <= i < j < |users| :: users[i].username != users[j].username
    ensures x in Friends(users, edges, u) <==>
              exists e, w | e in edges && w in users :: e.userId == u && w.userId == e.friendId && x == Info(w)
    decreases |edges|
  {
    if edges != [] {
      var init, last := edges[..|edges| - 1], edges[|edges| - 1];
      assert edges == init + [last];
      FriendsMembers(users, init, u, x);
      if last.userId == u {
        match Select(users, Id(last.friendId))
        case None =>
        case Some(w) =>
          forall w' | w' in users && w'.userId == last.friendId
            ensures w' == w
          {
            var k :| 0 <= k < |users| && users[k] == w';
            SelectUnique(users, Id(last.friendId), k);
          }
      }
    }
  }

  /**
   * `get_friends(u)`: the user at `friend_id` of every row whose `user_id` is
   * `u`, whatever its status, so pending requests count too.
   */
  lemma FriendsOfMembers(db: Db, u: int, x: UserInfo)
    requires Valid(db)
    ensures x in FriendsOf(db, u) <==>
              exists e, w | e in db.friendships && w in db.users :: e.userId == u && w.userId == e.friendId && x == Info(w)
  {
    FriendsMembers(db.users, db.friendships, u, x);
  }

  /** After a successful `add_friend(a, b)` of two registered users each lists the other. */
  lemma AddFriendSymmetric(db: Db, a: UserRow, b: UserRow)
    requires Valid(db) && a in db.users && b in db.users
    requires AddFriend(db, a.userId, b.userId).ok
    ensures Info(b) in FriendsOf(AddFriend(db, a.userId, b.userId).db, a.userId)
    ensures Info(a) in FriendsOf(AddFriend(db, a.userId, b.userId).db, b.userId)
  {
    var r := AddFriend(db, a.userId, b.userId);
    assert Valid(r.db);
    assert Edge(a.userId, b.userId, Accepted) in r.db.friendships;
    assert Edge(b.userId, a.userId, Accepted) in r.db.friendships;
    FriendsOfMembers(r.db, a.userId, Info(b));
    FriendsOfMembers(r.db, b.userId, Info(a));
  }

  // ----- messages -------------------------------------------------------

  /**
   * `save_message`: one row is appended with the next AUTOINCREMENT id, the
   * given sender, receiver, content and type, and the clock's current value.
   */
  function SaveMessage(db: Db, fromId: int, toId: int, content: string, messageType: string, now: nat): (r: Db)
    ensures r.messages == db.messages + [MessageRow(db.messageSeq + 1, fromId, toId, content, messageType, now)]
    ensures r.messageSeq == db.messageSeq + 1
    ensures r.users == db.users && r.friendships == db.friendships && r.userSeq == db.userSeq
  {
    db.(messages := db.messages + [MessageRow(db.messageSeq + 1, fromId, toId, content, messageType, now)],
        messageSeq := db.messageSeq + 1)
  }

  /** The new message id is larger than every earlier one, and the store stays valid. */
  lemma SaveMessageFresh(db: Db, fromId: int, toId: int, content: string, messageType: string, now: nat)
    requires Valid(db)
    ensures Valid(SaveMessage(db, fromId, toId, content, messageType, now))
    ensures forall m | m in db.messages :: m.messageId < db.messageSeq + 1
  {
  }

  predicate InPair(m: MessageRow, a: int, b: int) {
    (m.fromId == a && m.toId == b) || (m.fromId == b && m.toId == a)
  }

  /** The two user joins of the history query; a message whose sender or receiver has no row drops out. */
  function Joined(users: seq<UserRow>, m: MessageRow): seq<HistoryRow> {
    match (Select(users, Id(m.fromId)), Select(users, Id(m.toId)))
    case (Some(f), Some(t)) => [HistoryRow(m, f.nickname, t.nickname)]
    case _ => []
  }

  /** The WHERE and JOIN of `get_chat_history`, in table order. */
  function Between(users: seq<UserRow>, msgs: seq<MessageRow>, a: int, b: int): (r: seq<HistoryRow>)
    ensures forall h | h in r :: h.message in msgs && InPair(h.message, a, b)
    decreases |msgs|
  {
    if msgs == [] then []
    else
      var m := msgs[|msgs| - 1];
      Between(users, msgs[..|msgs| - 1], a, b) + (if InPair(m, a, b) then Joined(users, m) else [])
  }

  /**
   * How often the join yields a row: as often as its message is stored, when
   * the message is of the pair and the row is the one the two user joins give
   * it; never otherwise.
   */
  lemma {:induction false} BetweenCount(users: seq<UserRow>, msgs: seq<MessageRow>, a: int, b: int, h: HistoryRow)
    ensures multiset(Between(users, msgs, a, b))[h] ==
              if InPair(h.message, a, b) && Joined(users, h.message) == [h] then multiset(msgs)[h.message] else 0
    decreases |msgs|
  {
    if msgs != [] {
      var init, m := msgs[..|msgs| - 1], msgs[|msgs| - 1];
      assert msgs == init + [m];
      BetweenCount(users, init, a, b, h);
      var tail := if InPair(m, a, b) then Joined(users, m) else [];
      assert multiset(Between(users, msgs, a, b)) == multiset(Between(users, init, a, b)) + multiset(tail);
      assert multiset(msgs) == multiset(init) + multiset{m};
    }
  }

  /** Under strictly increasing ids no message row is stored twice. */
  lemma {:induction false} StoredOnce(msgs: seq<MessageRow>, m: MessageRow)
    requires forall i, j | 0 <= i < j < |msgs| :: msgs[i].messageId < msgs[j].messageId
    ensures multiset(msgs)[m] <= 1
    decreases |msgs|
  {
    if msgs != [] {
      var init, last := msgs[..|msgs| - 1], msgs[|msgs| - 1];
      assert msgs == init + [last];
      StoredOnce(init, m);
      if last == m {
        forall x | x in init
          ensures x != m
        {
          var k :| 0 <= k < |init| && init[k] == x;
          assert msgs[k] == x;
        }
      }
    }
  }

  /** The two joins of a message whose sender and receiver are both registered. */
  lemma JoinedRow(db: Db, m: MessageRow, f: UserRow, t: UserRow)
    requires Valid(db) && f in db.users && t in db.users && f.userId == m.fromId && t.userId == m.toId
    ensures Joined(db.users, m) == [HistoryRow(m, f.nickname, t.nickname)]
  {
    var kf :| 0 <= kf < |db.users| && db.users[kf] == f;
    var kt :| 0 <= kt < |db.users| && db.users[kt] == t;
    SelectUnique(db.users, Id(m.fromId), kf);
    SelectUnique(db.users, Id(m.toId), kt);
  }

  ghost predicate SortedByTime(s: seq<HistoryRow>) {
    forall i, j | 0 <= i < j < |s| :: s[i].message.timestamp <= s[j].message.timestamp
  }

  ghost predicate StrictlyByTime(s: seq<HistoryRow>) {
    forall i, j | 0 <= i < j < |s| :: s[i].message.timestamp < s[j].message.timestamp
  }

  /** A row no earlier than every row of a sorted sequence can go last. */
  lemma AppendSorted(s: seq<HistoryRow>, last: HistoryRow)
    requires SortedByTime(s)
    requires forall x | x in s :: x.message.timestamp <= last.message.timestamp
    ensures SortedByTime(s + [last])
  {
    var r := s + [last];
    forall i, j | 0 <= i < j < |r|
      ensures r[i].message.timestamp <= r[j].message.timestamp
    {
      assert r[i] == s[i] && s[i] in s;
      if j < |s| {
        assert r[j] == s[j];
      }
    }
  }

  /** Puts `h` after every row that is not later than it. */
  function InsertByTime(h: HistoryRow, s: seq<HistoryRow>): (r: seq<HistoryRow>)
    requires SortedByTime(s)
    ensures SortedByTime(r) && multiset(r) == multiset(s) + multiset{h}
    ensures forall x | x in r :: x in s || x == h
    decreases |s|
  {
    if s == [] || s[|s| - 1].message.timestamp <= h.message.timestamp then
      AppendSorted(s, h);
      s + [h]
    else
      var init, last := s[..|s| - 1], s[|s| - 1];
      assert s == init + [last];
      var front := InsertByTime(h, init);
      forall x | x in front
        ensures x.message.timestamp <= last.message.timestamp
      {
        if x != h {
          var k :| 0 <= k < |init| && init[k] == x;
          assert s[k] == x;
        }
      }
      AppendSorted(front, last);
      var r := front + [last];
      assert multiset(r) == multiset(front) + multiset{last};
      r
  }

  function SortByTime(s: seq<HistoryRow>): (r: seq<HistoryRow>)
    ensures SortedByTime(r) && multiset(r) == multiset(s)
    decreases |s|
  {
    if s == [] then []
    else
      assert s == s[..|s| - 1] + [s[|s| - 1]];
      InsertByTime(s[|s| - 1], SortByTime(s[..|s| - 1]))
  }

  /**
   * `get_chat_history(a, b)`: the messages from `a` to `b` and from `b` to `a`
   * (each exactly once), in non-decreasing timestamp order.
   */
  function ChatHistory(db: Db, a: int, b: int): (r: seq<HistoryRow>)
    ensures SortedByTime(r)
    ensures multiset(r) == multiset(Between(db.users, db.messages, a, b))
  {
    SortByTime(Between(db.users, db.messages, a, b))
  }

  lemma {:induction false} BetweenSymmetric(users: seq<UserRow>, msgs: seq<MessageRow>, a: int, b: int)
    ensures Between(users, msgs, a, b) == Between(users, msgs, b, a)
    decreases |msgs|
  {
    if msgs != [] {
      BetweenSymmetric(users, msgs[..|msgs| - 1], a, b);
    }
  }

  /**
   * Asking for the history of `(a, b)` or of `(b, a)` gives the same rows, each
   * as often; both are in timestamp order, and the order among equal
   * timestamps is not promised.
   */
  lemma HistorySymmetric(db: Db, a: int, b: int)
    ensures multiset(ChatHistory(db, a, b)) == multiset(ChatHistory(db, b, a))
  {
    BetweenSymmetric(db.users, db.messages, a, b);
  }

  lemma {:induction false} SortedUnchanged(s: seq<HistoryRow>)
    requires SortedByTime(s)
    ensures SortByTime(s) == s
    decreases |s|
  {
    if s != [] {
      var init, last := s[..|s| - 1], s[|s| - 1];
      assert s == init + [last];
      assert SortedByTime(init) by {
        forall i, j | 0 <= i < j < |init|
          ensures init[i].message.timestamp <= init[j].message.timestamp
        {
          assert init[i] == s[i] && init[j] == s[j];
        }
      }
      SortedUnchanged(init);
      if init != [] {
        assert init[|init| - 1] == s[|s| - 2];
      }
      calc {
        SortByTime(s);
        InsertByTime(last, SortByTime(init));
        InsertByTime(last, init);
        init + [last];
      }
    }
  }

  /**
   * Messages of a pair stored with strictly increasing timestamps come back in
   * the order they were stored (with a tie, `ORDER BY timestamp` fixes no order).
   */
  lemma HistoryKeepsOrder(db: Db, a: int, b: int)
    requires StrictlyByTime(Between(db.users, db.messages, a, b))
    ensures ChatHistory(db, a, b) == Between(db.users, db.messages, a, b)
  {
    var rows := Between(db.users, db.messages, a, b);
    assert SortedByTime(rows);
    SortedUnchanged(rows);
  }

  /**
   * `get_chat_history(a, b)` holds exactly the stored messages from `a` to `b`
   * and from `b` to `a` whose sender and receiver are both registered, each
   * once, with those users' nicknames.
   */
  lemma HistoryRows(db: Db, a: int, b: int, h: HistoryRow)
    requires Valid(db)
    ensures h in ChatHistory(db, a, b) <==>
              && h.message in db.messages && InPair(h.message, a, b)
              && exists f, t | f in db.users && t in db.users ::
                   f.userId == h.message.fromId && t.userId == h.message.toId && h == HistoryRow(h.message, f.nickname, t.nickname)
    ensures multiset(ChatHistory(db, a, b))[h] <= 1
  {
    BetweenCount(db.users, db.messages, a, b, h);
    StoredOnce(db.messages, h.message);
    JoinedIs(db, h);
    assert h in ChatHistory(db, a, b) <==> multiset(ChatHistory(db, a, b))[h] > 0;
    assert h.message in db.messages <==> multiset(db.messages)[h.message] > 0;
  }

  /** The row the two joins give a message is the one holding its registered users' nicknames. */
  lemma JoinedIs(db: Db, h: HistoryRow)
    requires Valid(db)
    ensures Joined(db.users, h.message) == [h] <==>
              exists f, t | f in db.users && t in db.users ::
                f.userId == h.message.fromId && t.userId == h.message.toId && h == HistoryRow(h.message, f.nickname, t.nickname)
  {
    var m := h.message;
    if Joined(db.users, m) == [h] {
      var f, t := Select(db.users, Id(m.fromId)).value, Select(db.users, Id(m.toId)).value;
      assert f in db.users && t in db.users;
    }
    forall f, t | f in db.users && t in db.users && f.userId == m.fromId && t.userId == m.toId
      ensures Joined(db.users, m) == [HistoryRow(m, f.nickname, t.nickname)]
    {
      JoinedRow(db, m, f, t);
    }
  }

  /** Every stored message of the pair whose two users are registered comes back exactly once. */
  lemma HistoryComplete(db: Db, a: int, b: int, m: MessageRow, f: UserRow, t: UserRow)
    requires Valid(db) && m in db.messages && InPair(m, a, b)
    requires f in db.users && t in db.users && f.userId == m.fromId && t.userId == m.toId
    ensures multiset(ChatHistory(db, a, b))[HistoryRow(m, f.nickname, t.nickname)] == 1
  {
    var h := HistoryRow(m, f.nickname, t.nickname);
    JoinedRow(db, m, f, t);
    BetweenCount(db.users, db.messages, a, b, h);
    StoredOnce(db.messages, m);
  }

  /**
   * Durability: once `save_message(from, to, ...)` has run between two
   * registered users, the new row is in the history of the pair, asked either way.
   */
  lemma SavedMessageInHistory(db: Db, from: UserRow, to: UserRow, content: string, messageType: string, now: nat)
    requires Valid(db) && from in db.users && to in db.users
    ensures var db' := SaveMessage(db, from.userId, to.userId, content, messageType, now);
            var h := HistoryRow(db'.messages[|db'.messages| - 1], from.nickname, to.nickname);
            h in ChatHistory(db', from.userId, to.userId) && h in ChatHistory(db', to.userId, from.userId)
  {
    var db' := SaveMessage(db, from.userId, to.userId, content, messageType, now);
    var m := db'.messages[|db'.messages| - 1];
    var kf :| 0 <= kf < |db.users| && db.users[kf] == from;
    var kt :| 0 <= kt < |db.users| && db.users[kt] == to;
    SelectUnique(db.users, Id(from.userId), kf);
    SelectUnique(db.users, Id(to.userId), kt);
    assert db'.messages[..|db'.messages| - 1] == db.messages;
    var h := HistoryRow(m, from.nickname, to.nickname);
    assert h in Between(db'.users, db'.messages, from.userId, to.userId);
    assert h in multiset(ChatHistory(db', from.userId, to.userId));
    HistorySymmetric(db', from.userId, to.userId);
  }
}
