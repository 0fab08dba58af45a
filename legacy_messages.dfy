/** The older message service. It returns raw message rows with their
    reaction and receipt rows, lists messages oldest first, adds reactions
    without replacing the user's earlier ones, deletes only when the message
    belongs to the given conversation, and marks as read by creating the
    receipts that are missing. It emits no events. */
module LegacyMessages {
  import opened Common
  import opened Tables
  import opened Queries
  import opened Dto

  /** A message row with `include: { reactions: true, readBy: true }`. */
  datatype MessageRecord = MessageRecord(message: Message, reactions: seq<Reaction>, readBy: seq<ReadReceipt>)

  function WithRelations(m: Message, rs: seq<Reaction>, ts: seq<ReadReceipt>): (r: MessageRecord)
    ensures r.message == m
    ensures forall x :: x in r.reactions <==> x in rs && x.messageId == m.id
    ensures forall t :: t in r.readBy <==> t in ts && t.messageId == m.id
  {
    MessageRecord(m, Filter(rs, ReactionOn(m.id)), Filter(ts, ReceiptOn(m.id)))
  }

  // ---------------------------------------------------------------------
  // getMessages

  /** `findMany({ where: { conversationId }, skip: offset, take: limit,
      orderBy: { createdAt: 'asc' } })`: the store keeps messages in
      `createdAt` order, so ascending order is table order. */
  function OldestFirstPage(ms: seq<Message>, rs: seq<Reaction>, ts: seq<ReadReceipt>,
                           c: ConversationId, limit: nat, offset: nat): seq<MessageRecord>
  {
    var page := Page(Filter(ms, InConversation(c)), offset, limit);
    seq(|page|, i requires 0 <= i < |page| => WithRelations(page[i], rs, ts))
  }

  /** A page holds at most `limit` rows, each a message of the conversation
      with its relations, oldest first, and it is the `offset`-th window. */
  lemma OldestFirstPageCorrect(ms: seq<Message>, rs: seq<Reaction>, ts: seq<ReadReceipt>,
                               c: ConversationId, limit: nat, offset: nat)
    requires StrictlyIncreasing(ms, MessageTime)
    ensures var r := OldestFirstPage(ms, rs, ts, c, limit, offset);
      var all := Filter(ms, InConversation(c));
      && |r| <= limit
      && |r| == Min(limit, if offset <= |all| then |all| - offset else 0)
      && (forall i :: 0 <= i < |r| ==> r[i] == WithRelations(all[offset + i], rs, ts))
      && (forall x :: x in r ==> x.message in ms && x.message.conversationId == c)
      && (forall i, j :: 0 <= i < j < |r| ==> r[i].message.createdAt < r[j].message.createdAt)
  {
    var all := Filter(ms, InConversation(c));
    var r := OldestFirstPage(ms, rs, ts, c, limit, offset);
    FilterIncreasing(ms, InConversation(c), MessageTime);
    forall x | x in r ensures x.message in ms && x.message.conversationId == c {
      var i :| 0 <= i < |r| && r[i] == x;
      assert all[offset + i] in all;
    }
    forall i, j | 0 <= i < j < |r| ensures r[i].message.createdAt < r[j].message.createdAt {
      assert MessageTime(all[offset + i]) < MessageTime(all[offset + j]);
    }
  }

  /** The same window of the conversation's messages the newer service lists
      newest first, read in the opposite direction. */
  lemma OldestFirstReversesNewest(ms: seq<Message>, c: ConversationId)
    ensures Reverse(NewestFirst(ms, c)) == Filter(ms, InConversation(c))
  {
    ReverseReverse(Filter(ms, InConversation(c)));
  }

  // ---------------------------------------------------------------------
  // addReaction

  /** Two appended rows of one user on one message, with different emojis,
      are both that user's rows on that message. */
  lemma TwoRowsMatch(rs: seq<Reaction>, m: MessageId, u: UserId, e1: string, e2: string)
    requires e1 != e2
    ensures var after := rs + [Reaction(m, u, e1)] + [Reaction(m, u, e2)];
      |Filter(after, ReactionMatchesUser(m, u))| >= 2
  {
    var a := Reaction(m, u, e1);
    var b := Reaction(m, u, e2);
    FilterAppend(rs + [a], [b], ReactionMatchesUser(m, u));
    FilterAppend(rs, [a], ReactionMatchesUser(m, u));
    assert Filter([a], ReactionMatchesUser(m, u)) == [a];
    assert Filter([b], ReactionMatchesUser(m, u)) == [b];
  }

  function ReactionMatchesUser(m: MessageId, u: UserId): Reaction -> bool {
    (r: Reaction) => ReactionMatches(ByUser(m, u), r)
  }

  // ---------------------------------------------------------------------
  // markAsRead

  function NotReadBy(ts: seq<ReadReceipt>, u: UserId): Message -> bool {
    (m: Message) => ReadReceipt(m.id, u) !in ts
  }

  /** `messages.filter(m => !m.readBy.some(r => r.userId === userId))` over
      the conversation's messages. */
  function Unread(ms: seq<Message>, ts: seq<ReadReceipt>, c: ConversationId, u: UserId): (r: seq<Message>)
    ensures forall m :: m in r <==> m in ms && m.conversationId == c && ReadReceipt(m.id, u) !in ts
  {
    Filter(Filter(ms, InConversation(c)), NotReadBy(ts, u))
  }

  /** One receipt `(m.id, u)` per message of `ms`, in order. */
  function ReceiptRows(ms: seq<Message>, u: UserId): (r: seq<ReadReceipt>)
    ensures |r| == |ms|
    ensures forall i :: 0 <= i < |ms| ==> r[i] == ReadReceipt(ms[i].id, u)
  {
    seq(|ms|, i requires 0 <= i < |ms| => ReadReceipt(ms[i].id, u))
  }

  /** The receipts table after the legacy `markAsRead(c, u)`. */
  function MarkUnread(ms: seq<Message>, ts: seq<ReadReceipt>, c: ConversationId, u: UserId): seq<ReadReceipt> {
    ts + ReceiptRows(Unread(ms, ts, c, u), u)
  }

  /** Afterwards every message of the conversation has a receipt for `u`, the
      old receipts keep their places, and no receipt appears twice. */
  lemma MarkUnreadCovers(ms: seq<Message>, ts: seq<ReadReceipt>, c: ConversationId, u: UserId)
    requires Distinct(ts) && StrictlyIncreasing(ms, MessageKey)
    ensures var after := MarkUnread(ms, ts, c, u);
      && (forall m :: m in ms && m.conversationId == c ==> ReadReceipt(m.id, u) in after)
      && after[..|ts|] == ts
      && Distinct(after)
  {
    var unread := Unread(ms, ts, c, u);
    var rows := ReceiptRows(unread, u);
    var after := ts + rows;
    forall m | m in ms && m.conversationId == c ensures ReadReceipt(m.id, u) in after {
      if ReadReceipt(m.id, u) !in ts {
        var i :| 0 <= i < |unread| && unread[i] == m;
        assert rows[i] == ReadReceipt(m.id, u);
      }
    }
    UnreadIncreasing(ms, ts, c, u);
    forall i, j | 0 <= i < j < |after| ensures after[i] != after[j] {
      if j >= |ts| && i >= |ts| {
        assert MessageKey(unread[i - |ts|]) < MessageKey(unread[j - |ts|]);
      } else if j >= |ts| {
        assert after[j] == rows[j - |ts|];
        assert ReadReceipt(unread[j - |ts|].id, u) !in ts;
      }
    }
  }

  lemma UnreadIncreasing(ms: seq<Message>, ts: seq<ReadReceipt>, c: ConversationId, u: UserId)
    requires StrictlyIncreasing(ms, MessageKey)
    ensures StrictlyIncreasing(Unread(ms, ts, c, u), MessageKey)
  {
    FilterIncreasing(ms, InConversation(c), MessageKey);
    FilterIncreasing(Filter(ms, InConversation(c)), NotReadBy(ts, u), MessageKey);
  }

  /** A second call finds nothing unread, so it creates nothing. */
  lemma MarkUnreadRepeat(ms: seq<Message>, ts: seq<ReadReceipt>, c: ConversationId, u: UserId)
    requires StrictlyIncreasing(ms, MessageKey)
    ensures Unread(ms, MarkUnread(ms, ts, c, u), c, u) == []
    ensures MarkUnread(ms, MarkUnread(ms, ts, c, u), c, u) == MarkUnread(ms, ts, c, u)
  {
    var after := MarkUnread(ms, ts, c, u);
    var unread := Unread(ms, ts, c, u);
    var convo := Filter(ms, InConversation(c));
    forall m | m in convo ensures !NotReadBy(after, u)(m) {
      if ReadReceipt(m.id, u) !in ts {
        var i :| 0 <= i < |unread| && unread[i] == m;
        assert after[|ts| + i] == ReadReceipt(m.id, u);
      }
    }
    FilterNone(convo, NotReadBy(after, u));
    assert ReceiptRows([], u) == [];
  }

  /** With distinct message ids, creating the missing receipts gives the same
      table as the newer services' upsert of every receipt in turn. */
  lemma {:induction false} MarkUnreadAgreesWithUpsert(ts: seq<ReadReceipt>, ms: seq<Message>, u: UserId)
    requires StrictlyIncreasing(ms, MessageKey)
    ensures MarkRead(ts, ms, u) == ts + ReceiptRows(Filter(ms, NotReadBy(ts, u)), u)
  {
    if ms != [] {
      var n := |ms| - 1;
      var p := ms[..n];
      var x := ms[n];
      assert ms == p + [x];
      FilterAppend(p, [x], NotReadBy(ts, u));
      LastIdLargest(ms);
      MarkUnreadAgreesWithUpsert(ts, p, u);
      var fp := Filter(p, NotReadBy(ts, u));
      ReceiptRowsBelow(fp, x, u);
      UpsertAfterCreated(ts, fp, x, u);
    }
  }

  /** So the legacy `markAsRead(c, u)` leaves the receipts table exactly as
      the newer services' `markAsRead(c, u)` does. */
  lemma MarkUnreadMatchesMarkRead(ms: seq<Message>, ts: seq<ReadReceipt>, c: ConversationId, u: UserId)
    requires StrictlyIncreasing(ms, MessageKey)
    ensures MarkUnread(ms, ts, c, u) == MarkRead(ts, Filter(ms, InConversation(c)), u)
  {
    FilterIncreasing(ms, InConversation(c), MessageKey);
    MarkUnreadAgreesWithUpsert(ts, Filter(ms, InConversation(c)), u);
  }

  /** Every message before the last has a smaller id; so does the prefix. */
  lemma LastIdLargest(ms: seq<Message>)
    requires ms != [] && StrictlyIncreasing(ms, MessageKey)
    ensures StrictlyIncreasing(ms[..|ms| - 1], MessageKey)
    ensures forall y :: y in ms[..|ms| - 1] ==> y.id < ms[|ms| - 1].id
  {
    var n := |ms| - 1;
    forall y | y in ms[..n] ensures y.id < ms[n].id {
      var i :| 0 <= i < n && ms[i] == y;
      assert MessageKey(ms[i]) < MessageKey(ms[n]);
    }
  }

  /** One step of the agreement: upserting the next receipt creates it
      exactly when it was not in the table before the first create. */
  lemma UpsertAfterCreated(ts: seq<ReadReceipt>, fp: seq<Message>, x: Message, u: UserId)
    requires ReadReceipt(x.id, u) !in ReceiptRows(fp, u)
    ensures UpsertReceipt(ts + ReceiptRows(fp, u), ReadReceipt(x.id, u))
            == ts + ReceiptRows(fp + Filter([x], NotReadBy(ts, u)), u)
  {
    if ReadReceipt(x.id, u) in ts {
      assert Filter([x], NotReadBy(ts, u)) == [];
      assert fp + [] == fp;
    } else {
      assert Filter([x], NotReadBy(ts, u)) == [x];
      ReceiptRowsSnoc(fp, x, u);
    }
  }

  lemma ReceiptRowsBelow(ms: seq<Message>, x: Message, u: UserId)
    requires forall y :: y in ms ==> y.id < x.id
    ensures ReadReceipt(x.id, u) !in ReceiptRows(ms, u)
  {
    forall i | 0 <= i < |ms| ensures ReceiptRows(ms, u)[i] != ReadReceipt(x.id, u) {
      assert ms[i] in ms;
    }
  }

  lemma ReceiptRowsSnoc(ms: seq<Message>, x: Message, u: UserId)
    ensures ReceiptRows(ms + [x], u) == ReceiptRows(ms, u) + [ReadReceipt(x.id, u)]
  {
  }

  class LegacyMessagesService {
    const prisma: Store

    constructor (prisma: Store)
      ensures this.prisma == prisma
    {
      this.prisma := prisma;
    }

    /** `getMessages(conversationId, limit = 50, offset = 0)`, oldest first. */
    method GetMessages(conversationId: ConversationId, limit: Option<nat>, offset: Option<nat>)
      returns (r: seq<MessageRecord>)
      ensures r == OldestFirstPage(prisma.messages, prisma.reactions, prisma.receipts, conversationId,
                                   if limit.Some? then limit.value else 50,
                                   if offset.Some? then offset.value else 0)
    {
      var take := if limit.Some? then limit.value else 50;
      var skip := if offset.Some? then offset.value else 0;
      r := OldestFirstPage(prisma.messages, prisma.reactions, prisma.receipts, conversationId, take, skip);
    }

    /** `create(dto)`: one new message with `type` defaulting to 'text',
        returned with its (empty) reactions and receipts. */
    method Create(dto: CreateMessageDto) returns (r: Result<MessageRecord>)
      requires prisma.Valid()
      modifies prisma`messages, prisma`nextId, prisma`clock
      ensures prisma.Valid()
      ensures r.Err? <==> dto.conversationId !in ConversationIds(prisma.conversations)
                          || dto.senderId !in UserIds(prisma.users)
      ensures r.Err? ==> r.error == ForeignKeyViolation && prisma.messages == old(prisma.messages)
                         && prisma.nextId == old(prisma.nextId) && prisma.clock == old(prisma.clock)
      ensures r.Ok? ==>
        var m := NewMessage(MessageDataOf(dto), old(prisma.nextId), old(prisma.clock));
        && prisma.messages == old(prisma.messages) + [m]
        && prisma.nextId == old(prisma.nextId) + 1 && prisma.clock == old(prisma.clock) + 1
        && m.messageType == DefaultType(dto.messageType) && m.content == dto.content
        && m.fileName == dto.fileName && m.fileSize == dto.fileSize
        && r.value == MessageRecord(m, [], [])
        && r.value == WithRelations(m, prisma.reactions, prisma.receipts)
    {
      var created := prisma.CreateMessage(MessageDataOf(dto));
      if created.Err? {
        return Err(created.error);
      }
      var m := created.value;
      forall x | x in prisma.reactions ensures !ReactionOn(m.id)(x) {
        var y :| y in old(prisma.messages) && y.id == x.messageId;
      }
      forall t | t in prisma.receipts ensures !ReceiptOn(m.id)(t) {
        var y :| y in old(prisma.messages) && y.id == t.messageId;
      }
      FilterNone(prisma.reactions, ReactionOn(m.id));
      FilterNone(prisma.receipts, ReceiptOn(m.id));
      r := Ok(WithRelations(m, prisma.reactions, prisma.receipts));
    }

    /** `update(messageId, dto)`: sets `content` and `isEdited`; a missing
        message is NotFound. */
    method Update(messageId: MessageId, content: string) returns (r: Result<MessageRecord>)
      requires prisma.Valid()
      modifies prisma`messages
      ensures prisma.Valid()
      ensures r.Err? <==> messageId !in MessageIds(old(prisma.messages))
      ensures r.Err? ==> r.error == NotFound && prisma.messages == old(prisma.messages)
      ensures r.Ok? ==>
        var k := FindMessage(old(prisma.messages), messageId).value;
        var m := old(prisma.messages)[k].(content := content, isEdited := true);
        && prisma.messages == old(prisma.messages)[k := m]
        && r.value == WithRelations(m, prisma.reactions, prisma.receipts)
    {
      var updated := prisma.UpdateMessage(messageId, SetContent(content));
      if updated.Err? {
        return Err(updated.error);
      }
      r := Ok(WithRelations(updated.value, prisma.reactions, prisma.receipts));
    }

    /** `delete(messageId, conversationId)`: a deleteMany on both keys, so a
        message of another conversation, or none, is silently kept. */
    method Delete(messageId: MessageId, conversationId: ConversationId)
      requires prisma.Valid()
      modifies prisma`messages, prisma`reactions, prisma`receipts
      ensures prisma.Valid()
      ensures var k := FindMessage(old(prisma.messages), messageId);
        if k.Some? && old(prisma.messages)[k.value].conversationId == conversationId then
          && prisma.messages == Filter(old(prisma.messages), OtherMessage(messageId))
          && prisma.reactions == Filter(old(prisma.reactions), ReactionNotOn(messageId))
          && prisma.receipts == Filter(old(prisma.receipts), ReceiptNotOn(messageId))
        else
          && prisma.messages == old(prisma.messages)
          && prisma.reactions == old(prisma.reactions)
          && prisma.receipts == old(prisma.receipts)
    {
      var _ := prisma.DeleteManyMessages(messageId, conversationId);
    }

    /** `addReaction(messageId, userId, emoji)`: a plain create; earlier
        reactions of the user stay. */
    method AddReaction(messageId: MessageId, userId: UserId, emoji: string) returns (r: Result<Reaction>)
      requires prisma.Valid()
      modifies prisma`reactions
      ensures prisma.Valid()
      ensures var row := Reaction(messageId, userId, emoji);
        && (messageId !in MessageIds(prisma.messages) ==> r == Err(ForeignKeyViolation))
        && (messageId in MessageIds(prisma.messages) && row in old(prisma.reactions) ==> r == Err(UniqueViolation))
        && (r.Ok? <==> messageId in MessageIds(prisma.messages) && row !in old(prisma.reactions))
        && (r.Err? ==> prisma.reactions == old(prisma.reactions))
        && (r.Ok? ==> r.value == row && prisma.reactions == old(prisma.reactions) + [row])
    {
      r := prisma.CreateReaction(Reaction(messageId, userId, emoji));
    }

    /** `removeReaction(messageId, userId, emoji)`: deletes the exact row and
        returns how many rows went. */
    method RemoveReaction(messageId: MessageId, userId: UserId, emoji: string) returns (count: nat)
      requires prisma.Valid()
      modifies prisma`reactions
      ensures prisma.Valid()
      ensures prisma.reactions == Filter(old(prisma.reactions), ReactionKept(Exactly(Reaction(messageId, userId, emoji))))
      ensures count == |old(prisma.reactions)| - |prisma.reactions|
    {
      count := prisma.DeleteManyReactions(Exactly(Reaction(messageId, userId, emoji)));
    }

    /** `markAsRead(conversationId, userId)`: the unread messages are found
        first, then one receipt is created for each. The creates are issued
        together; the model runs them one after another. */
    method MarkAsRead(conversationId: ConversationId, userId: UserId)
      requires prisma.Valid()
      modifies prisma`receipts
      ensures prisma.Valid()
      ensures prisma.receipts == MarkUnread(prisma.messages, old(prisma.receipts), conversationId, userId)
    {
      var unread := Unread(prisma.messages, prisma.receipts, conversationId, userId);
      UnreadIncreasing(prisma.messages, prisma.receipts, conversationId, userId);
      CreateReceipts(prisma, unread, userId);
    }
  }

  /** `addReaction` is additive: reacting twice to a stored message with two
      different emojis (neither given before) succeeds both times and leaves
      two rows for that user on that message, where the newer service keeps one. */
  method AdditiveReactionsAccumulate(service: LegacyMessagesService, m: MessageId, u: UserId,
                                     e1: string, e2: string)
      returns (r1: Result<Reaction>, r2: Result<Reaction>)
    requires service.prisma.Valid()
    requires m in MessageIds(service.prisma.messages) && e1 != e2
    requires Reaction(m, u, e1) !in service.prisma.reactions && Reaction(m, u, e2) !in service.prisma.reactions
    modifies service.prisma`reactions
    ensures service.prisma.Valid()
    ensures r1 == Ok(Reaction(m, u, e1)) && r2 == Ok(Reaction(m, u, e2))
    ensures service.prisma.reactions == old(service.prisma.reactions) + [Reaction(m, u, e1)] + [Reaction(m, u, e2)]
    ensures |Filter(service.prisma.reactions, ReactionMatchesUser(m, u))| >= 2
  {
    r1 := service.AddReaction(m, u, e1);
    r2 := service.AddReaction(m, u, e2);
    TwoRowsMatch(old(service.prisma.reactions), m, u, e1, e2);
  }

  /** The creates of `markAsRead`, one per unread message, in order. */
  method CreateReceipts(store: Store, unread: seq<Message>, u: UserId)
    requires store.Valid()
    requires StrictlyIncreasing(unread, MessageKey)
    requires forall m :: m in unread ==> m in store.messages && ReadReceipt(m.id, u) !in store.receipts
    modifies store`receipts
    ensures store.Valid()
    ensures store.receipts == old(store.receipts) + ReceiptRows(unread, u)
  {
    var i := 0;
    while i < |unread|
      invariant 0 <= i <= |unread|
      invariant store.Valid()
      invariant store.receipts == old(store.receipts) + ReceiptRows(unread[..i], u)
    {
      CreateSucceeds(old(store.receipts), unread, u, i);
      assert unread[i] in store.messages;
      assert unread[i].id in MessageIds(store.messages);
      CreateStep(old(store.receipts), unread, u, i);
      var _ := store.CreateReadReceipt(ReadReceipt(unread[i].id, u));
      i := i + 1;
    }
    assert unread[..|unread|] == unread;
  }

  lemma CreateStep(ts: seq<ReadReceipt>, unread: seq<Message>, u: UserId, i: nat)
    requires i < |unread|
    ensures ts + ReceiptRows(unread[..i + 1], u) == ts + ReceiptRows(unread[..i], u) + [ReadReceipt(unread[i].id, u)]
  {
    assert unread[..i + 1] == unread[..i] + [unread[i]];
    ReceiptRowsSnoc(unread[..i], unread[i], u);
  }

  /** The i-th create of `markAsRead` repeats no receipt: its message was
      unread, and the receipts created before it are for smaller ids. */
  lemma CreateSucceeds(ts: seq<ReadReceipt>, unread: seq<Message>, u: UserId, i: nat)
    requires i < |unread|
    requires StrictlyIncreasing(unread, MessageKey)
    requires forall m :: m in unread ==> ReadReceipt(m.id, u) !in ts
    ensures ReadReceipt(unread[i].id, u) !in ts + ReceiptRows(unread[..i], u)
  {
    assert unread[i] in unread;
    forall j | 0 <= j < i ensures ReceiptRows(unread[..i], u)[j] != ReadReceipt(unread[i].id, u) {
      assert MessageKey(unread[j]) < MessageKey(unread[i]);
    }
  }
}
