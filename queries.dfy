/** The read side the services share: how a stored message is formatted for
    clients, the ordered and paginated message queries, the case-insensitive
    search, the single-message lookup, and the "mark every message of a
    conversation as read" upsert loop. */
module Queries {
  import opened Common
  import opened Tables
  import opened Reactions

  /** The shape in which the services hand a message to clients. */
  datatype MessageView = MessageView(
    id: MessageId,
    senderId: UserId,
    content: string,
    timestamp: nat,
    messageType: string,
    fileName: Option<string>,
    fileSize: Option<string>,
    reactions: seq<ReactionGroup>,
    isEdited: bool,
    isPinned: bool,
    readBy: seq<UserId>)

  /** A stored message carrying the given reaction groups and readers. */
  function View(m: Message, groups: seq<ReactionGroup>, readers: seq<UserId>): MessageView {
    MessageView(m.id, m.senderId, m.content, m.createdAt, m.messageType,
                m.fileName, m.fileSize, groups, m.isEdited, m.isPinned, readers)
  }

  /** The message's `reactions` relation, in table order. */
  function ReactionsOf(rs: seq<Reaction>, id: MessageId): seq<Reaction> {
    Filter(rs, ReactionOn(id))
  }

  /** `readBy.map((r) => r.userId)`: the users holding a receipt for the message. */
  function ReadersOf(ts: seq<ReadReceipt>, id: MessageId): (r: seq<UserId>)
    ensures forall u :: u in r <==> ReadReceipt(id, u) in ts
  {
    var rows := Filter(ts, ReceiptOn(id));
    var r := seq(|rows|, i requires 0 <= i < |rows| => rows[i].userId);
    assert forall i :: 0 <= i < |rows| ==> rows[i] == ReadReceipt(id, r[i]) by {
      forall i | 0 <= i < |rows| ensures rows[i] == ReadReceipt(id, r[i]) {
        assert rows[i] in rows;
      }
    }
    assert forall u :: ReadReceipt(id, u) in ts ==> u in r by {
      forall u | ReadReceipt(id, u) in ts ensures u in r {
        var i :| 0 <= i < |rows| && rows[i] == ReadReceipt(id, u);
        assert r[i] == u;
      }
    }
    r
  }

  /** The formatting every service applies to a message read with its
      reactions and receipts. */
  function FormatMessage(m: Message, rs: seq<Reaction>, ts: seq<ReadReceipt>): (v: MessageView)
    ensures v.id == m.id && v.timestamp == m.createdAt
    ensures GroupsOf(ReactionsOf(rs, m.id), v.reactions)
    ensures forall u :: u in v.readBy <==> ReadReceipt(m.id, u) in ts
  {
    GroupReactionsCorrect(ReactionsOf(rs, m.id));
    View(m, GroupReactions(ReactionsOf(rs, m.id)), ReadersOf(ts, m.id))
  }

  /** A message no reaction and no receipt points at is formatted with empty
      `reactions` and `readBy`. */
  lemma {:induction false} UnreferencedFormatsEmpty(m: Message, rs: seq<Reaction>, ts: seq<ReadReceipt>)
    requires forall x :: x in rs ==> x.messageId != m.id
    requires forall t :: t in ts ==> t.messageId != m.id
    ensures FormatMessage(m, rs, ts) == View(m, [], [])
  {
    FilterNone(rs, ReactionOn(m.id));
    FilterNone(ts, ReceiptOn(m.id));
  }

  /** `messages.map(format)`. */
  function FormatAll(ms: seq<Message>, rs: seq<Reaction>, ts: seq<ReadReceipt>): (r: seq<MessageView>)
    ensures |r| == |ms|
    ensures forall i :: 0 <= i < |ms| ==> r[i] == FormatMessage(ms[i], rs, ts)
  {
    seq(|ms|, i requires 0 <= i < |ms| => FormatMessage(ms[i], rs, ts))
  }

  /** Formatting a list yields one view per message and nothing else. */
  lemma FormatAllMembers(ms: seq<Message>, rs: seq<Reaction>, ts: seq<ReadReceipt>)
    ensures forall m :: m in ms ==> FormatMessage(m, rs, ts) in FormatAll(ms, rs, ts)
    ensures forall v :: v in FormatAll(ms, rs, ts) ==> exists m :: m in ms && v == FormatMessage(m, rs, ts)
  {
    var r := FormatAll(ms, rs, ts);
    forall m | m in ms ensures FormatMessage(m, rs, ts) in r {
      var i :| 0 <= i < |ms| && ms[i] == m;
      assert r[i] == FormatMessage(m, rs, ts);
    }
    forall v | v in r ensures exists m :: m in ms && v == FormatMessage(m, rs, ts) {
      var i :| 0 <= i < |r| && r[i] == v;
      assert ms[i] in ms;
    }
  }

  // ---------------------------------------------------------------------
  // Message queries

  /** `findMany({ where: { conversationId: c }, orderBy: { createdAt: 'desc' } })`:
      the table holds messages in creation order, so this is its filter read
      back to front. */
  function NewestFirst(ms: seq<Message>, c: ConversationId): seq<Message> {
    Reverse(Filter(ms, InConversation(c)))
  }

  lemma NewestFirstCorrect(ms: seq<Message>, c: ConversationId)
    requires StrictlyIncreasing(ms, MessageTime)
    ensures forall m :: m in NewestFirst(ms, c) <==> m in ms && m.conversationId == c
    ensures StrictlyDecreasing(NewestFirst(ms, c), MessageTime)
  {
    FilterIncreasing(ms, InConversation(c), MessageTime);
    ReverseMembers(Filter(ms, InConversation(c)));
    ReverseDecreasing(Filter(ms, InConversation(c)), MessageTime);
  }

  /** `getMessages(conversationId, limit, offset)`: skip `offset`, take `limit`
      of the newest-first messages, formatted. */
  function MessagesPage(ms: seq<Message>, rs: seq<Reaction>, ts: seq<ReadReceipt>,
                        c: ConversationId, limit: nat, offset: nat): seq<MessageView>
  {
    FormatAll(Page(NewestFirst(ms, c), offset, limit), rs, ts)
  }

  /** A page holds at most `limit` messages, each of the conversation, newest
      first, and it is the `offset`-th window of the conversation's messages. */
  lemma {:induction false} MessagesPageCorrect(ms: seq<Message>, rs: seq<Reaction>, ts: seq<ReadReceipt>,
                                               c: ConversationId, limit: nat, offset: nat)
    requires StrictlyIncreasing(ms, MessageTime)
    ensures var r := MessagesPage(ms, rs, ts, c, limit, offset);
      && |r| <= limit
      && |r| == Min(limit, if offset <= |NewestFirst(ms, c)| then |NewestFirst(ms, c)| - offset else 0)
      && (forall i :: 0 <= i < |r| ==> r[i] == FormatMessage(NewestFirst(ms, c)[offset + i], rs, ts))
      && (forall v :: v in r ==> exists m :: m in ms && m.conversationId == c && v == FormatMessage(m, rs, ts))
      && (forall i, j :: 0 <= i < j < |r| ==> r[i].timestamp > r[j].timestamp)
  {
    NewestFirstCorrect(ms, c);
    var newest := NewestFirst(ms, c);
    var r := MessagesPage(ms, rs, ts, c, limit, offset);
    forall v | v in r ensures exists m :: m in ms && m.conversationId == c && v == FormatMessage(m, rs, ts) {
      var i :| 0 <= i < |r| && r[i] == v;
      assert newest[offset + i] in newest;
    }
  }

  /** The search condition: the conversation's messages whose content contains
      `query` ignoring case. */
  function Matching(c: ConversationId, query: string): Message -> bool {
    (m: Message) => m.conversationId == c && ContainsIgnoringCase(m.content, query)
  }

  /** `searchMessages(conversationId, query)`, newest first, formatted. */
  function SearchResults(ms: seq<Message>, rs: seq<Reaction>, ts: seq<ReadReceipt>,
                         c: ConversationId, query: string): seq<MessageView>
  {
    FormatAll(Reverse(Filter(ms, Matching(c, query))), rs, ts)
  }

  /** The search returns exactly the matching messages, newest first. */
  lemma {:induction false} SearchResultsCorrect(ms: seq<Message>, rs: seq<Reaction>, ts: seq<ReadReceipt>,
                                                c: ConversationId, query: string)
    requires StrictlyIncreasing(ms, MessageTime)
    ensures var r := SearchResults(ms, rs, ts, c, query);
      && (forall m :: m in ms && m.conversationId == c && ContainsIgnoringCase(m.content, query)
                      ==> FormatMessage(m, rs, ts) in r)
      && (forall v :: v in r ==> exists m :: m in ms && m.conversationId == c
                                     && ContainsIgnoringCase(m.content, query) && v == FormatMessage(m, rs, ts))
      && (forall i, j :: 0 <= i < j < |r| ==> r[i].timestamp > r[j].timestamp)
  {
    var found := Reverse(Filter(ms, Matching(c, query)));
    FilterIncreasing(ms, Matching(c, query), MessageTime);
    ReverseMembers(Filter(ms, Matching(c, query)));
    ReverseDecreasing(Filter(ms, Matching(c, query)), MessageTime);
    FormatAllMembers(found, rs, ts);
    var r := SearchResults(ms, rs, ts, c, query);
    forall m | m in ms && m.conversationId == c && ContainsIgnoringCase(m.content, query)
      ensures m in found
    {
      assert Matching(c, query)(m);
    }
    forall v | v in r ensures exists m :: m in ms && m.conversationId == c
                                  && ContainsIgnoringCase(m.content, query) && v == FormatMessage(m, rs, ts)
    {
      var m :| m in found && v == FormatMessage(m, rs, ts);
      assert Matching(c, query)(m);
    }
  }

  /** `getMessageWithDetails(id)`: NotFound, or the formatted message. */
  function MessageDetails(ms: seq<Message>, rs: seq<Reaction>, ts: seq<ReadReceipt>, id: MessageId)
    : (r: Result<MessageView>)
    ensures r.Err? <==> id !in MessageIds(ms)
    ensures r.Err? ==> r.error == NotFound
    ensures r.Ok? ==> exists m :: m in ms && m.id == id && r.value == FormatMessage(m, rs, ts)
  {
    match FindMessage(ms, id)
    case None => Err(NotFound)
    case Some(k) => Ok(FormatMessage(ms[k], rs, ts))
  }

  // ---------------------------------------------------------------------
  // Marking a conversation as read

  /** The receipts table after upserting `(m.id, u)` for each `m` of `ms` in turn. */
  function MarkRead(ts: seq<ReadReceipt>, ms: seq<Message>, u: UserId): seq<ReadReceipt> {
    if ms == [] then ts
    else UpsertReceipt(MarkRead(ts, ms[..|ms| - 1], u), ReadReceipt(ms[|ms| - 1].id, u))
  }

  /** Afterwards the table holds exactly the old receipts plus one for `u` on
      every message of `ms`; the old rows keep their places. */
  lemma {:induction false} MarkReadContents(ts: seq<ReadReceipt>, ms: seq<Message>, u: UserId)
    ensures forall t :: t in MarkRead(ts, ms, u) <==> t in ts || (t.userId == u && t.messageId in MessageIds(ms))
    ensures |MarkRead(ts, ms, u)| >= |ts| && MarkRead(ts, ms, u)[..|ts|] == ts
  {
    if ms != [] {
      var p := ms[..|ms| - 1];
      MarkReadContents(ts, p, u);
      assert MessageIds(ms) == MessageIds(p) + {ms[|ms| - 1].id} by {
        assert ms == p + [ms[|ms| - 1]];
      }
    }
  }

  /** Upserting receipts that are all present already changes nothing. */
  lemma {:induction false} MarkReadPresent(ts: seq<ReadReceipt>, ms: seq<Message>, u: UserId)
    requires forall m :: m in ms ==> ReadReceipt(m.id, u) in ts
    ensures MarkRead(ts, ms, u) == ts
  {
    if ms != [] {
      var p := ms[..|ms| - 1];
      assert forall m :: m in p ==> m in ms;
      assert ms[|ms| - 1] in ms;
      MarkReadPresent(ts, p, u);
    }
  }

  /** Marking the same messages read a second time leaves the table as it is. */
  lemma MarkReadIdempotent(ts: seq<ReadReceipt>, ms: seq<Message>, u: UserId)
    ensures MarkRead(MarkRead(ts, ms, u), ms, u) == MarkRead(ts, ms, u)
  {
    MarkReadContents(ts, ms, u);
    forall m | m in ms ensures ReadReceipt(m.id, u) in MarkRead(ts, ms, u) {
      assert m.id in MessageIds(ms);
    }
    MarkReadPresent(MarkRead(ts, ms, u), ms, u);
  }

  lemma MarkReadStep(ts: seq<ReadReceipt>, ms: seq<Message>, i: nat, u: UserId)
    requires i < |ms|
    ensures MarkRead(ts, ms[..i + 1], u) == UpsertReceipt(MarkRead(ts, ms[..i], u), ReadReceipt(ms[i].id, u))
  {
    assert ms[..i + 1][..i] == ms[..i];
  }

  /** `markAsRead(conversationId, userId)`'s loop: fetch the conversation's
      messages, then upsert a receipt for each, one after another. */
  method MarkConversationRead(store: Store, c: ConversationId, u: UserId)
    requires store.Valid()
    modifies store`receipts
    ensures store.Valid()
    ensures store.receipts == MarkRead(old(store.receipts), Filter(store.messages, InConversation(c)), u)
  {
    var ms := Filter(store.messages, InConversation(c));
    var i := 0;
    while i < |ms|
      invariant 0 <= i <= |ms|
      invariant store.Valid()
      invariant store.receipts == MarkRead(old(store.receipts), ms[..i], u)
    {
      assert ms[i] in store.messages;
      assert ms[i].id in MessageIds(store.messages);
      MarkReadStep(old(store.receipts), ms, i, u);
      var _ := store.UpsertReadReceipt(ReadReceipt(ms[i].id, u));
      i := i + 1;
    }
    assert ms[..|ms|] == ms;
  }
}
