/**
 * The `Database` class of database.py: the three tables as sequence fields
 * that its methods reassign, one INSERT or query per method. Each method is
 * proved against the function of `Tables` that states what it does.
 */
module Store {
  import opened Wrappers
  import opened Tables

  class Database {
    var users: seq<UserRow>
    var friendships: seq<Edge>
    var messages: seq<MessageRow>
    /** The AUTOINCREMENT counters of `users` and `chat_messages`. */
    var userSeq: nat
    var messageSeq: nat

    /** The tables as one value. */
    function Snapshot(): Db
      reads this
    {
      Db(users, friendships, messages, userSeq, messageSeq)
    }

    ghost predicate Valid()
      reads this
    {
      Tables.Valid(Snapshot())
    }

    /**
     * Opening the store: `CREATE TABLE IF NOT EXISTS` keeps whatever the file
     * already holds (`Tables.Empty` for a new file).
     */
    constructor (stored: Db)
      requires Tables.Valid(stored)
      ensures Valid() && Snapshot() == stored
    {
      users, friendships, messages := stored.users, stored.friendships, stored.messages;
      userSeq, messageSeq := stored.userSeq, stored.messageSeq;
    }

    /** A table scan: the first row, in table order, that the WHERE clause `c` accepts. */
    method Scan(c: Column) returns (r: Option<UserRow>)
      ensures r == Select(users, c)
    {
      var i := 0;
      while i < |users|
        invariant 0 <= i <= |users|
        invariant Select(users, c) == Select(users[i..], c)
      {
        if Matches(users[i], c) {
          return Some(users[i]);
        }
        assert users[i..][1..] == users[i + 1..];
        i := i + 1;
      }
      return None;
    }

    method Query(c: Column) returns (r: Option<UserInfo>)
      ensures r == Find(Snapshot(), c)
    {
      var row := Scan(c);
      r := if row.Some? then Some(Info(row.value)) else None;
    }

    /** `add_user`: a taken username is refused (None) and nothing changes; otherwise one row and its fresh id. */
    method AddUser(username: string, password: string, nickname: string, avatarPath: string) returns (id: Option<int>)
      requires Valid()
      modifies this
      ensures Valid()
      ensures Inserted(Snapshot(), id) == Tables.AddUser(old(Snapshot()), username, password, nickname, avatarPath)
      ensures id.None? <==> exists u | u in old(users) :: u.username == username
      ensures id.Some? ==> users == old(users) + [UserRow(id.value, username, password, nickname, avatarPath)]
      ensures friendships == old(friendships) && messages == old(messages)
    {
      AddUserFresh(Snapshot(), username, password, nickname, avatarPath);
      var taken := Scan(Username(username));
      if taken.Some? {
        return None;
      }
      userSeq := userSeq + 1;
      users := users + [UserRow(userSeq, username, password, nickname, avatarPath)];
      id := Some(userSeq);
    }

    /** `verify_user`: the user's columns exactly when a row has this username and this password. */
    method VerifyUser(username: string, password: string) returns (r: Option<UserInfo>)
      ensures r == Tables.VerifyUser(Snapshot(), username, password)
      ensures r.Some? <==> exists u | u in users :: u.username == username && u.password == password
    {
      r := Query(Credentials(username, password));
    }

    /** The scan for a row joining `a` and `b` in either direction: the status of the first one. */
    method EdgeScan(a: int, b: int) returns (r: Option<Status>)
      ensures r == EdgeBetween(friendships, a, b)
      ensures r.None? <==> forall e | e in friendships :: !Links(e, a, b)
    {
      var i := 0;
      while i < |friendships|
        invariant 0 <= i <= |friendships|
        invariant EdgeBetween(friendships, a, b) == EdgeBetween(friendships[i..], a, b)
      {
        if Links(friendships[i], a, b) {
          return Some(friendships[i].status);
        }
        assert friendships[i..][1..] == friendships[i + 1..];
        i := i + 1;
      }
      return None;
    }

    /** `add_friend_request`: refuses an unknown user or an existing row either way, else adds one pending row. */
    method AddFriendRequest(userId: int, friendUsername: string) returns (ok: bool, message: string)
      requires Valid()
      modifies this
      ensures Valid()
      ensures AcceptedHaveReverse(old(friendships)) ==> AcceptedHaveReverse(friendships)
      ensures Requested(Snapshot(), ok, message) == Tables.AddFriendRequest(old(Snapshot()), userId, friendUsername)
      ensures !ok ==> Snapshot() == old(Snapshot())
    {
      AddFriendRequestKeepsReverse(Snapshot(), userId, friendUsername);
      var friend := Query(Username(friendUsername));
      if friend.None? {
        return false, NoSuchUser;
      }
      var existing := EdgeScan(userId, friend.value.userId);
      if existing == Some(Accepted) {
        return false, AlreadyFriends;
      } else if existing == Some(Pending) {
        return false, RequestPending;
      }
      friendships := friendships + [Edge(userId, friend.value.userId, Pending)];
      return true, RequestSent;
    }

    /** `get_user`: the row with this username, if any. */
    method GetUser(username: string) returns (r: Option<UserInfo>)
      requires Valid()
      ensures r == Find(Snapshot(), Username(username))
      ensures forall u | u in users && u.username == username :: r == Some(Info(u))
      ensures r.None? <==> forall u | u in users :: u.username != username
    {
      r := Query(Username(username));
      forall u | u in users && u.username == username
        ensures r == Some(Info(u))
      {
        FindUnique(Snapshot(), Username(username), u);
      }
    }

    /** `get_user_by_username`: the same query as `get_user`, its row copied into a dictionary. */
    method GetUserByUsername(username: string) returns (r: Option<UserInfo>)
      requires Valid()
      ensures r == Find(Snapshot(), Username(username))
      ensures forall u | u in users && u.username == username :: r == Some(Info(u))
      ensures r.None? <==> forall u | u in users :: u.username != username
    {
      r := GetUser(username);
    }

    /** `get_user_by_nickname`: some user with this nickname (nicknames need not be unique), or None. */
    method GetUserByNickname(nickname: string) returns (r: Option<UserInfo>)
      ensures r == Find(Snapshot(), Nickname(nickname))
      ensures r.Some? ==> r.value.nickname == nickname && exists u | u in users :: u.nickname == nickname && r.value == Info(u)
      ensures r.None? <==> forall u | u in users :: u.nickname != nickname
    {
      r := Query(Nickname(nickname));
    }

    /** `get_user_by_id` (the definition that Python keeps, the later of the two). */
    method GetUserById(userId: int) returns (r: Option<UserInfo>)
      requires Valid()
      ensures r == Find(Snapshot(), Id(userId))
      ensures forall u | u in users && u.userId == userId :: r == Some(Info(u))
      ensures r.None? <==> forall u | u in users :: u.userId != userId
    {
      r := Query(Id(userId));
      forall u | u in users && u.userId == userId
        ensures r == Some(Info(u))
      {
        FindUnique(Snapshot(), Id(userId), u);
      }
    }

    /**
     * `get_friends` (the later definition): the join of `friendships` with
     * `users`, each joined row appended as a dictionary in turn.
     */
    method GetFriends(userId: int) returns (friends: seq<UserInfo>)
      ensures friends == FriendsOf(Snapshot(), userId)
    {
      friends := [];
      var i := 0;
      while i < |friendships|
        invariant 0 <= i <= |friendships|
        invariant friends == Friends(users, friendships[..i], userId)
      {
        var e := friendships[i];
        if e.userId == userId {
          var w := Scan(Id(e.friendId));
          if w.Some? {
            friends := friends + [Info(w.value)];
          }
        }
        assert friendships[..i + 1][..i] == friendships[..i];
        i := i + 1;
      }
      assert friendships[..i] == friendships;
    }

    /** `save_message`: appends one row with a new, larger id; the other tables are untouched. */
    method SaveMessage(fromId: int, toId: int, content: string, now: nat, messageType: string := "text") returns (ok: bool)
      requires Valid()
      modifies this
      ensures Valid() && ok
      ensures Snapshot() == Tables.SaveMessage(old(Snapshot()), fromId, toId, content, messageType, now)
      ensures messages == old(messages) + [MessageRow(old(messageSeq) + 1, fromId, toId, content, messageType, now)]
      ensures forall m | m in old(messages) :: m.messageId < old(messageSeq) + 1
      ensures users == old(users) && friendships == old(friendships)
    {
      SaveMessageFresh(Snapshot(), fromId, toId, content, messageType, now);
      messageSeq := messageSeq + 1;
      messages := messages + [MessageRow(messageSeq, fromId, toId, content, messageType, now)];
      ok := true;
    }

    /** `get_chat_history`: the messages between the two users, either way, ordered by timestamp. */
    method GetChatHistory(a: int, b: int) returns (history: seq<HistoryRow>)
      ensures history == ChatHistory(Snapshot(), a, b)
      ensures SortedByTime(history)
      ensures forall h | h in history :: h.message in messages && InPair(h.message, a, b)
    {
      var rows := [];
      var i := 0;
      while i < |messages|
        invariant 0 <= i <= |messages|
        invariant rows == Between(users, messages[..i], a, b)
      {
        var m := messages[i];
        if InPair(m, a, b) {
          var f := Scan(Id(m.fromId));
          var t := Scan(Id(m.toId));
          if f.Some? && t.Some? {
            rows := rows + [HistoryRow(m, f.value.nickname, t.value.nickname)];
          }
        }
        assert messages[..i + 1][..i] == messages[..i];
        i := i + 1;
      }
      assert messages[..i] == messages;
      history := SortByTime(rows);
      forall h | h in history
        ensures h.message in messages && InPair(h.message, a, b)
      {
        assert h in multiset(history);
      }
    }

    /**
     * `add_friend`: inserts `(a, b)` then `(b, a)`, both `'accepted'`. A key
     * clash on either makes it return false; the first row stays when only the
     * second clashes, since nothing is rolled back.
     */
    method AddFriend(a: int, b: int) returns (ok: bool)
      requires Valid()
      modifies this
      ensures Valid()
      ensures AcceptedHaveReverse(old(friendships)) ==> AcceptedHaveReverse(friendships)
      ensures Changed(Snapshot(), ok) == Tables.AddFriend(old(Snapshot()), a, b)
      ensures ok ==> Edge(a, b, Accepted) in friendships && Edge(b, a, Accepted) in friendships
      ensures EdgeStatus(old(friendships), a, b).Some? ==> !ok && friendships == old(friendships)
      ensures EdgeStatus(old(friendships), a, b).None? && !ok ==> friendships == old(friendships) + [Edge(a, b, Accepted)]
    {
      AddFriendKeepsReverse(Snapshot(), a, b);
      if EdgeStatus(friendships, a, b).Some? {
        return false;
      }
      friendships := friendships + [Edge(a, b, Accepted)];
      if EdgeStatus(friendships, b, a).Some? {
        return false;
      }
      friendships := friendships + [Edge(b, a, Accepted)];
      return true;
    }
  }
}
