/**
 * The message list of the chat pane (`ChatWidget` in bubble_message.py):
 * `layout0` as a sequence of items, each a date separator (`Notice`) or a
 * message bubble, and the `last_message_date` field. Rendering is dropped;
 * what is kept is which items exist and in what order. The pane's operations
 * are functions on a `Pane` value; the class `ChatWidget` performs them step
 * by step and is proved against those functions.
 */
module ChatPane {
  import opened Wrappers
  import Str = Text

  /** `MessageType`. */
  datatype MessageType = Text | Image

  /** One widget of `layout0`: a `Notice` with its text, or a `BubbleMessage` with the fields it stores. */
  datatype Item =
    | Notice(text: string)
    | Bubble(content: string, avatarPath: string, messageType: MessageType, isSend: bool, timestamp: Option<string>)

  /** One element of the `messages` list `load_chat_history` receives. */
  datatype HistoryMessage = HistoryMessage(content: string, kind: string, timestamp: string, isSend: bool)

  /** The widget's list and its `last_message_date` (None while the attribute does not exist). */
  datatype Pane = Pane(items: seq<Item>, lastMessageDate: Option<string>)

  /** The type mapping: `'text'` is a text message, every other value an image. */
  function Kind(s: string): (r: MessageType)
    ensures r == Text <==> s == "text"
    ensures r == Image <==> s != "text"
  {
    if s == "text" then Text else Image
  }

  /** The avatar choice: the sender's avatar on sent messages, the receiver's otherwise. */
  function AvatarFor(isSend: bool, sendAvatar: string, receiveAvatar: string): (r: string)
    ensures isSend ==> r == sendAvatar
    ensures !isSend ==> r == receiveAvatar
  {
    if isSend then sendAvatar else receiveAvatar
  }

  // ----- load_chat_history -------------------------------------------------

  /** The date part of a timestamp, `split()[0]`: None where that raises. */
  function DateOf(m: HistoryMessage): Option<string> {
    Str.FirstWord(m.timestamp)
  }

  /** Every timestamp has a date part. */
  predicate Dated(msgs: seq<HistoryMessage>) {
    forall i | 0 <= i < |msgs| :: DateOf(msgs[i]).Some?
  }

  /** Message `j` starts a new day: it is the first, or its date differs from the one before it. */
  predicate NewDate(msgs: seq<HistoryMessage>, j: nat)
    requires j < |msgs|
  {
    j == 0 || DateOf(msgs[j]) != DateOf(msgs[j - 1])
  }

  /** The bubble for one history message (no timestamp is passed on). */
  function BubbleFor(m: HistoryMessage, sendAvatar: string, receiveAvatar: string): Item {
    Bubble(m.content, AvatarFor(m.isSend, sendAvatar, receiveAvatar), Kind(m.kind), m.isSend, None)
  }

  /** What message `j` adds: a notice with its full timestamp when it starts a new day, then its bubble. */
  function Chunk(msgs: seq<HistoryMessage>, j: nat, sendAvatar: string, receiveAvatar: string): seq<Item>
    requires j < |msgs|
  {
    (if NewDate(msgs, j) then [Notice(msgs[j].timestamp)] else []) + [BubbleFor(msgs[j], sendAvatar, receiveAvatar)]
  }

  /** The list `load_chat_history` builds from the first `n` messages, their timestamps all having a date part. */
  function Rendered(msgs: seq<HistoryMessage>, n: nat, sendAvatar: string, receiveAvatar: string): seq<Item>
    requires n <= |msgs|
    decreases n
  {
    if n == 0 then [] else Rendered(msgs, n - 1, sendAvatar, receiveAvatar) + Chunk(msgs, n - 1, sendAvatar, receiveAvatar)
  }

  /** How many messages come before the first timestamp with no date part (all of them if there is none). */
  function Parsed(msgs: seq<HistoryMessage>): (k: nat)
    ensures k <= |msgs|
    ensures forall i | 0 <= i < k :: DateOf(msgs[i]).Some?
    ensures k < |msgs| ==> DateOf(msgs[k]).None?
  {
    if msgs == [] then 0
    else if DateOf(msgs[0]).None? then 0
    else
      var k := 1 + Parsed(msgs[1..]);
      assert forall i | 1 <= i < k :: msgs[i] == msgs[1..][i - 1];
      k
  }

  /** All timestamps have a date part exactly when `Parsed` reaches the end. */
  lemma ParsedAll(msgs: seq<HistoryMessage>)
    ensures Dated(msgs) <==> Parsed(msgs) == |msgs|
  {
  }

  /**
   * `load_chat_history`: the list is cleared and rebuilt from the messages; a
   * timestamp with no date part raises, leaving the list as built so far.
   * `last_message_date` is neither read nor written.
   */
  function Load(p: Pane, msgs: seq<HistoryMessage>, sendAvatar: string, receiveAvatar: string): Pane {
    Pane(Rendered(msgs, Parsed(msgs), sendAvatar, receiveAvatar), p.lastMessageDate)
  }

  /** `Parsed` is the length of the dated prefix. */
  lemma {:induction false} ParsedAt(msgs: seq<HistoryMessage>, i: nat)
    requires i <= |msgs| && forall k | 0 <= k < i :: DateOf(msgs[k]).Some?
    requires i < |msgs| ==> DateOf(msgs[i]).None?
    ensures Parsed(msgs) == i
    decreases i
  {
    if i > 0 {
      assert DateOf(msgs[0]).Some?;
      ParsedAt(msgs[1..], i - 1);
    }
  }

  /** The bubbles of a list, in order. */
  function Bubbles(items: seq<Item>): seq<Item> {
    if items == [] then []
    else Bubbles(items[..|items| - 1]) + (if items[|items| - 1].Bubble? then [items[|items| - 1]] else [])
  }

  /** The date parts of the notices of a list, in order. */
  function NoticeDates(items: seq<Item>): seq<Option<string>> {
    if items == [] then []
    else NoticeDates(items[..|items| - 1]) + (if items[|items| - 1].Notice? then [Str.FirstWord(items[|items| - 1].text)] else [])
  }

  lemma {:induction false} BubblesAppend(a: seq<Item>, b: seq<Item>)
    ensures Bubbles(a + b) == Bubbles(a) + Bubbles(b)
    decreases |b|
  {
    if b == [] {
      assert a + b == a;
    } else {
      assert (a + b)[..|a + b| - 1] == a + b[..|b| - 1];
      BubblesAppend(a, b[..|b| - 1]);
    }
  }

  lemma {:induction false} NoticeDatesAppend(a: seq<Item>, b: seq<Item>)
    ensures NoticeDates(a + b) == NoticeDates(a) + NoticeDates(b)
    decreases |b|
  {
    if b == [] {
      assert a + b == a;
    } else {
      assert (a + b)[..|a + b| - 1] == a + b[..|b| - 1];
      NoticeDatesAppend(a, b[..|b| - 1]);
    }
  }

  /** A chunk holds exactly one bubble, its message's. */
  lemma ChunkBubbles(msgs: seq<HistoryMessage>, j: nat, sendAvatar: string, receiveAvatar: string)
    requires j < |msgs|
    ensures Bubbles(Chunk(msgs, j, sendAvatar, receiveAvatar)) == [BubbleFor(msgs[j], sendAvatar, receiveAvatar)]
  {
    var b := BubbleFor(msgs[j], sendAvatar, receiveAvatar);
    assert Bubbles([b]) == [b] by {
      assert [b][..0] == [];
    }
    if NewDate(msgs, j) {
      var n := Notice(msgs[j].timestamp);
      assert [n, b][..1] == [n] && [n][..0] == [];
      assert Bubbles([n]) == [];
      assert Chunk(msgs, j, sendAvatar, receiveAvatar) == [n, b];
    } else {
      assert Chunk(msgs, j, sendAvatar, receiveAvatar) == [b];
    }
  }

  /** A chunk holds a notice, of its message's date, exactly when the message starts a new day. */
  lemma ChunkNotices(msgs: seq<HistoryMessage>, j: nat, sendAvatar: string, receiveAvatar: string)
    requires j < |msgs|
    ensures NoticeDates(Chunk(msgs, j, sendAvatar, receiveAvatar)) == if NewDate(msgs, j) then [DateOf(msgs[j])] else []
  {
    var b := BubbleFor(msgs[j], sendAvatar, receiveAvatar);
    assert NoticeDates([b]) == [] by {
      assert [b][..0] == [];
    }
    if NewDate(msgs, j) {
      var n := Notice(msgs[j].timestamp);
      assert [n, b][..1] == [n] && [n][..0] == [];
      assert NoticeDates([n]) == [DateOf(msgs[j])];
      assert Chunk(msgs, j, sendAvatar, receiveAvatar) == [n, b];
    } else {
      assert Chunk(msgs, j, sendAvatar, receiveAvatar) == [b];
    }
  }

  /** The bubbles of the first `n` messages, in order. */
  function BubblesFor(msgs: seq<HistoryMessage>, n: nat, sendAvatar: string, receiveAvatar: string): seq<Item>
    requires n <= |msgs|
    decreases n
  {
    if n == 0 then [] else BubblesFor(msgs, n - 1, sendAvatar, receiveAvatar) + [BubbleFor(msgs[n - 1], sendAvatar, receiveAvatar)]
  }

  /** That is one bubble per message: the `i`-th is message `i`'s. */
  lemma {:induction false} BubblesForAt(msgs: seq<HistoryMessage>, n: nat, sendAvatar: string, receiveAvatar: string)
    requires n <= |msgs|
    ensures |BubblesFor(msgs, n, sendAvatar, receiveAvatar)| == n
    ensures forall i | 0 <= i < n :: BubblesFor(msgs, n, sendAvatar, receiveAvatar)[i] == BubbleFor(msgs[i], sendAvatar, receiveAvatar)
    decreases n
  {
    if n > 0 {
      BubblesForAt(msgs, n - 1, sendAvatar, receiveAvatar);
    }
  }

  /** The bubbles of the rebuilt list correspond one to one, in order, with the messages. */
  lemma {:induction false} RenderBubbles(msgs: seq<HistoryMessage>, n: nat, sendAvatar: string, receiveAvatar: string)
    requires n <= |msgs|
    ensures Bubbles(Rendered(msgs, n, sendAvatar, receiveAvatar)) == BubblesFor(msgs, n, sendAvatar, receiveAvatar)
    decreases n
  {
    if n > 0 {
      var m: nat := n - 1;
      RenderBubbles(msgs, m, sendAvatar, receiveAvatar);
      BubblesAppend(Rendered(msgs, m, sendAvatar, receiveAvatar), Chunk(msgs, m, sendAvatar, receiveAvatar));
      ChunkBubbles(msgs, m, sendAvatar, receiveAvatar);
    }
  }

  /**
   * The list is the messages' chunks in order: right after the items of the
   * first `j` messages comes a notice carrying message `j`'s full timestamp
   * exactly when `j` starts a new day, and then message `j`'s bubble.
   */
  lemma {:induction false} RenderChunks(msgs: seq<HistoryMessage>, j: nat, n: nat, sendAvatar: string, receiveAvatar: string)
    requires j < n <= |msgs|
    ensures Rendered(msgs, j, sendAvatar, receiveAvatar) + Chunk(msgs, j, sendAvatar, receiveAvatar) <= Rendered(msgs, n, sendAvatar, receiveAvatar)
    decreases n
  {
    var front := Rendered(msgs, j, sendAvatar, receiveAvatar) + Chunk(msgs, j, sendAvatar, receiveAvatar);
    var last := Rendered(msgs, n - 1, sendAvatar, receiveAvatar);
    assert Rendered(msgs, n, sendAvatar, receiveAvatar) == last + Chunk(msgs, n - 1, sendAvatar, receiveAvatar);
    if j < n - 1 {
      RenderChunks(msgs, j, n - 1, sendAvatar, receiveAvatar);
      assert front <= last;
    } else {
      assert front == Rendered(msgs, n, sendAvatar, receiveAvatar);
    }
  }

  /** The date parts of the first `n` timestamps, in order. */
  function Dates(msgs: seq<HistoryMessage>, n: nat): (ds: seq<Option<string>>)
    requires n <= |msgs|
    ensures |ds| == n
    decreases n
  {
    if n == 0 then [] else Dates(msgs, n - 1) + [DateOf(msgs[n - 1])]
  }

  /** One date per message: the `i`-th is message `i`'s. */
  lemma {:induction false} DatesAt(msgs: seq<HistoryMessage>, n: nat)
    requires n <= |msgs|
    ensures forall i | 0 <= i < n :: Dates(msgs, n)[i] == DateOf(msgs[i])
    decreases n
  {
    if n > 0 {
      DatesAt(msgs, n - 1);
    }
  }

  /** A sequence with every run of equal neighbours cut to one element. */
  function Collapse(ds: seq<Option<string>>): (r: seq<Option<string>>)
    ensures ds == [] <==> r == []
    ensures r != [] ==> r[|r| - 1] == ds[|ds| - 1]
  {
    if ds == [] then []
    else
      var c := Collapse(ds[..|ds| - 1]);
      if |ds| > 1 && ds[|ds| - 1] == ds[|ds| - 2] then c else c + [ds[|ds| - 1]]
  }

  /** The collapsed sequence has no two equal neighbours: one element per run. */
  lemma {:induction false} CollapseRuns(ds: seq<Option<string>>)
    ensures forall i | 0 < i < |Collapse(ds)| :: Collapse(ds)[i] != Collapse(ds)[i - 1]
    decreases |ds|
  {
    if ds != [] {
      var n := |ds| - 1;
      CollapseRuns(ds[..n]);
      var c := Collapse(ds[..n]);
      if n > 0 && ds[n] != ds[n - 1] {
        assert ds[..n][n - 1] == ds[n - 1];
        assert c != [] && c[|c| - 1] == ds[n - 1];
        var r := c + [ds[n]];
        assert Collapse(ds) == r;
        forall i | 0 < i < |r| ensures r[i] != r[i - 1] {
          if i < |c| {
            assert r[i] == c[i] && r[i - 1] == c[i - 1];
          } else {
            assert r[i] == ds[n] && r[i - 1] == c[|c| - 1];
          }
        }
      } else if n > 0 {
        assert Collapse(ds) == c;
      }
    }
  }

  /** Collapsing one more element adds it unless it repeats the last one. */
  lemma CollapseStep(ds: seq<Option<string>>, d: Option<string>)
    ensures Collapse(ds + [d]) == if ds != [] && d == ds[|ds| - 1] then Collapse(ds) else Collapse(ds) + [d]
  {
    var e := ds + [d];
    assert e[..|e| - 1] == ds;
  }

  /** One more message keeps the notices one per run of equal dates. */
  lemma NoticesStep(items: seq<Item>, chunk: seq<Item>, ds: seq<Option<string>>, d: Option<string>, newDay: bool)
    requires NoticeDates(items) == Collapse(ds)
    requires NoticeDates(chunk) == if newDay then [d] else []
    requires newDay <==> ds == [] || d != ds[|ds| - 1]
    ensures NoticeDates(items + chunk) == Collapse(ds + [d])
  {
    NoticeDatesAppend(items, chunk);
    CollapseStep(ds, d);
  }

  /**
   * The notices of the rebuilt list are one per run of equal dates, in
   * order, each of its run's date.
   */
  lemma {:induction false} RenderNotices(msgs: seq<HistoryMessage>, n: nat, sendAvatar: string, receiveAvatar: string)
    requires n <= |msgs|
    ensures NoticeDates(Rendered(msgs, n, sendAvatar, receiveAvatar)) == Collapse(Dates(msgs, n))
    decreases n
  {
    if n > 0 {
      var m: nat := n - 1;
      RenderNotices(msgs, m, sendAvatar, receiveAvatar);
      ChunkNotices(msgs, m, sendAvatar, receiveAvatar);
      NoticesStep(Rendered(msgs, m, sendAvatar, receiveAvatar), Chunk(msgs, m, sendAvatar, receiveAvatar),
                  Dates(msgs, m), DateOf(msgs[m]), NewDate(msgs, m));
    }
  }

  /** Hence there are as many notices as runs of equal dates, and no two neighbouring notices share a date. */
  lemma RenderNoticeCount(msgs: seq<HistoryMessage>, sendAvatar: string, receiveAvatar: string)
    ensures |NoticeDates(Rendered(msgs, |msgs|, sendAvatar, receiveAvatar))| == |Collapse(Dates(msgs, |msgs|))|
    ensures var ns := NoticeDates(Rendered(msgs, |msgs|, sendAvatar, receiveAvatar)); forall i | 0 < i < |ns| :: ns[i] != ns[i - 1]
  {
    RenderNotices(msgs, |msgs|, sendAvatar, receiveAvatar);
    CollapseRuns(Dates(msgs, |msgs|));
  }

  // ----- add_message -------------------------------------------------------

  /**
   * `add_message`. A timestamp that is None or empty adds only the bubble.
   * Otherwise its date part is taken: a timestamp that has none raises inside
   * the `try`, and then nothing changes; a date other than
   * `last_message_date` becomes `last_message_date` and is preceded by a
   * notice with the full timestamp. The bubble keeps the timestamp it was given.
   */
  function AddLive(p: Pane, content: string, isSend: bool, avatarPath: string, messageType: string, timestamp: Option<string>): Pane {
    var bubble := Bubble(content, avatarPath, Kind(messageType), isSend, timestamp);
    if timestamp.None? || timestamp.value == "" then p.(items := p.items + [bubble])
    else
      match Str.FirstWord(timestamp.value)
      case None => p
      case Some(date) =>
        if p.lastMessageDate != Some(date) then Pane(p.items + [Notice(timestamp.value), bubble], Some(date))
        else p.(items := p.items + [bubble])
  }

  /**
   * A live message with a dated timestamp adds its bubble last, preceded by a
   * notice exactly when its date is not the remembered one, and that date is
   * remembered afterwards.
   */
  lemma LiveStep(p: Pane, content: string, isSend: bool, avatarPath: string, messageType: string, timestamp: string)
    requires Str.FirstWord(timestamp).Some?
    ensures var bubble := Bubble(content, avatarPath, Kind(messageType), isSend, Some(timestamp));
            var q := AddLive(p, content, isSend, avatarPath, messageType, Some(timestamp));
            && q.items == p.items + (if p.lastMessageDate != Str.FirstWord(timestamp) then [Notice(timestamp), bubble] else [bubble])
            && q.lastMessageDate == Str.FirstWord(timestamp)
  {
    assert timestamp != "";
  }

  /** Feeding the first `n` history messages through `add_message` one by one. */
  function AddAll(p: Pane, msgs: seq<HistoryMessage>, n: nat, sendAvatar: string, receiveAvatar: string): Pane
    requires n <= |msgs|
    decreases n
  {
    if n == 0 then p
    else
      var m := msgs[n - 1];
      AddLive(AddAll(p, msgs, n - 1, sendAvatar, receiveAvatar), m.content, m.isSend,
              AvatarFor(m.isSend, sendAvatar, receiveAvatar), m.kind, Some(m.timestamp))
  }

  /** The list with every bubble's timestamp dropped. */
  function Untimed(items: seq<Item>): (r: seq<Item>)
    ensures |r| == |items|
  {
    if items == [] then []
    else
      var it := items[|items| - 1];
      Untimed(items[..|items| - 1]) + [if it.Bubble? then it.(timestamp := None) else it]
  }

  lemma {:induction false} UntimedAppend(a: seq<Item>, b: seq<Item>)
    ensures Untimed(a + b) == Untimed(a) + Untimed(b)
    decreases |b|
  {
    if b == [] {
      assert a + b == a;
    } else {
      assert (a + b)[..|a + b| - 1] == a + b[..|b| - 1];
      UntimedAppend(a, b[..|b| - 1]);
    }
  }

  /** Dropping the bubble's timestamp from what a live message adds gives the history chunk. */
  lemma UntimedChunk(msgs: seq<HistoryMessage>, n: nat, sendAvatar: string, receiveAvatar: string)
    requires n < |msgs|
    ensures var m := msgs[n];
            var bubble := Bubble(m.content, AvatarFor(m.isSend, sendAvatar, receiveAvatar), Kind(m.kind), m.isSend, Some(m.timestamp));
            Untimed(if NewDate(msgs, n) then [Notice(m.timestamp), bubble] else [bubble]) == Chunk(msgs, n, sendAvatar, receiveAvatar)
  {
    var m := msgs[n];
    var bubble := Bubble(m.content, AvatarFor(m.isSend, sendAvatar, receiveAvatar), Kind(m.kind), m.isSend, Some(m.timestamp));
    assert [bubble][..0] == [];
    if NewDate(msgs, n) {
      var added := [Notice(m.timestamp), bubble];
      assert added[..1] == [Notice(m.timestamp)];
      assert [Notice(m.timestamp)][..0] == [];
    }
  }

  /**
   * The live path and the history path agree on separators: adding dated
   * messages one by one with `add_message` to an empty list builds the list
   * `load_chat_history` builds, up to the timestamps the live bubbles keep,
   * and leaves the last message's date in `last_message_date`.
   */
  lemma {:induction false} LiveMatchesHistory(msgs: seq<HistoryMessage>, n: nat, sendAvatar: string, receiveAvatar: string)
    requires n <= |msgs| && forall i | 0 <= i < n :: DateOf(msgs[i]).Some?
    ensures var q := AddAll(Pane([], None), msgs, n, sendAvatar, receiveAvatar);
            && Untimed(q.items) == Rendered(msgs, n, sendAvatar, receiveAvatar)
            && q.lastMessageDate == (if n == 0 then None else DateOf(msgs[n - 1]))
    decreases n
  {
    if n > 0 {
      var j := n - 1;
      var m := msgs[j];
      LiveMatchesHistory(msgs, j, sendAvatar, receiveAvatar);
      var p := AddAll(Pane([], None), msgs, j, sendAvatar, receiveAvatar);
      var avatar := AvatarFor(m.isSend, sendAvatar, receiveAvatar);
      assert DateOf(m).Some?;
      var q := AddAll(Pane([], None), msgs, n, sendAvatar, receiveAvatar);
      assert q == AddLive(p, m.content, m.isSend, avatar, m.kind, Some(m.timestamp));
      LiveStep(p, m.content, m.isSend, avatar, m.kind, m.timestamp);
      assert NewDate(msgs, j) <==> p.lastMessageDate != DateOf(m);
      var bubble := Bubble(m.content, avatar, Kind(m.kind), m.isSend, Some(m.timestamp));
      var added := if NewDate(msgs, j) then [Notice(m.timestamp), bubble] else [bubble];
      assert q.items == p.items + added;
      UntimedAppend(p.items, added);
      UntimedChunk(msgs, j, sendAvatar, receiveAvatar);
      assert Untimed(q.items) == Rendered(msgs, j, sendAvatar, receiveAvatar) + Chunk(msgs, j, sendAvatar, receiveAvatar);
    }
  }

  /**
   * `load_chat_history` leaves `last_message_date` as it was, so after the
   * list is rebuilt a live message on that remembered date gets no notice,
   * whatever dates the rebuilt list shows.
   */
  lemma StaleDateSkipsNotice(p: Pane, msgs: seq<HistoryMessage>, sendAvatar: string, receiveAvatar: string, content: string, timestamp: string)
    requires Str.FirstWord(timestamp).Some? && p.lastMessageDate == Str.FirstWord(timestamp)
    ensures var q := Load(p, msgs, sendAvatar, receiveAvatar);
            AddLive(q, content, true, sendAvatar, "text", Some(timestamp)).items
              == q.items + [Bubble(content, sendAvatar, Text, true, Some(timestamp))]
  {
    assert timestamp != "";
  }

  // ----- the widget ----------------------------------------------------------

  class ChatWidget {
    /** `layout0`'s widgets, top to bottom. */
    var items: seq<Item>
    var lastMessageDate: Option<string>

    function Snapshot(): Pane
      reads this
    {
      Pane(items, lastMessageDate)
    }

    /** A new pane: an empty list and no `last_message_date` attribute yet. */
    constructor ()
      ensures Snapshot() == Pane([], None)
    {
      items, lastMessageDate := [], None;
    }

    /** `add_message_item`: appended when `index` is truthy (non-zero), put first otherwise. */
    method AddMessageItem(item: Item, index: int := 1)
      modifies this
      ensures index != 0 ==> items == old(items) + [item]
      ensures index == 0 ==> items == [item] + old(items)
      ensures lastMessageDate == old(lastMessageDate)
    {
      if index != 0 {
        items := items + [item];
      } else {
        items := [item] + items;
      }
    }

    /** `clear_messages`: takes the first item out until none is left. */
    method ClearMessages()
      modifies this
      ensures items == [] && lastMessageDate == old(lastMessageDate)
    {
      while |items| > 0
        invariant lastMessageDate == old(lastMessageDate)
        decreases |items|
      {
        items := items[1..];
      }
    }

    /** One turn of `load_chat_history`'s loop: the notice when the day changed, then the bubble. */
    method AddHistoryItems(m: HistoryMessage, newDay: bool, sendAvatar: string, receiveAvatar: string)
      modifies this
      ensures items == old(items) + (if newDay then [Notice(m.timestamp)] else []) + [BubbleFor(m, sendAvatar, receiveAvatar)]
      ensures lastMessageDate == old(lastMessageDate)
    {
      if newDay {
        AddMessageItem(Notice(m.timestamp));
      }
      AddMessageItem(BubbleFor(m, sendAvatar, receiveAvatar));
    }

    /**
     * `load_chat_history`; `ok` is false where it raises (a timestamp with no
     * date part), the list then holding what was built before that message.
     */
    method LoadChatHistory(friendNickname: string, msgs: seq<HistoryMessage>, sendAvatar: string, receiveAvatar: string) returns (ok: bool)
      modifies this
      ensures Snapshot() == Load(old(Snapshot()), msgs, sendAvatar, receiveAvatar)
      ensures ok <==> Dated(msgs)
    {
      ParsedAll(msgs);
      ClearMessages();
      var currentDate: Option<string> := None;
      var i := 0;
      while i < |msgs|
        invariant 0 <= i <= |msgs|
        invariant forall k | 0 <= k < i :: DateOf(msgs[k]).Some?
        invariant items == Rendered(msgs, i, sendAvatar, receiveAvatar)
        invariant currentDate == if i == 0 then None else DateOf(msgs[i - 1])
        invariant lastMessageDate == old(lastMessageDate)
      {
        var m := msgs[i];
        var messageDate := Str.FirstWord(m.timestamp);
        if messageDate.None? {
          ParsedAt(msgs, i);
          return false;
        }
        var newDay := currentDate != messageDate;
        assert newDay == NewDate(msgs, i);
        if newDay {
          currentDate := messageDate;
        }
        AddHistoryItems(m, newDay, sendAvatar, receiveAvatar);
        assert items == Rendered(msgs, i + 1, sendAvatar, receiveAvatar);
        i := i + 1;
      }
      ParsedAt(msgs, i);
      ok := true;
    }

    /** `add_message`; `ok` is false where the `try` caught an exception. */
    method AddMessage(content: string, isSend: bool, avatarPath: string, messageType: string := "text", timestamp: Option<string> := None) returns (ok: bool)
      modifies this
      ensures Snapshot() == AddLive(old(Snapshot()), content, isSend, avatarPath, messageType, timestamp)
      ensures !ok <==> timestamp.Some? && timestamp.value != "" && Str.AllSpace(timestamp.value)
    {
      if timestamp.Some? && timestamp.value != "" {
        Str.FirstWordNone(timestamp.value);
        var messageDate := Str.FirstWord(timestamp.value);
        if messageDate.None? {
          return false;
        }
        if lastMessageDate != messageDate {
          lastMessageDate := messageDate;
          AddMessageItem(Notice(timestamp.value));
        }
      }
      AddMessageItem(Bubble(content, avatarPath, Kind(messageType), isSend, timestamp));
      return true;
    }
  }
}
