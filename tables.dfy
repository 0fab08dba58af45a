/** The relational store the services talk to, as in-memory tables.
    Rows are values; the `Store` object owns one sequence per table, kept in
    insertion order, and its methods are the store operations the services
    issue (create, update, delete, deleteMany, upsert). Ids the store generates
    (messages, conversations) come from the counter `nextId`; `createdAt`
    comes from the monotone counter `clock`. */
module Tables {
  import opened Common

  type UserId = string
  type MessageId = nat
  type ConversationId = nat

  /** A user row. `avatar` is a column of its own beside `avatarUrl`; no
      operation of the core writes it, so a created row holds none. */
  datatype User = User(id: UserId, name: string, avatarUrl: Option<string>, avatar: Option<string>,
                       status: Option<string>)

  datatype Conversation = Conversation(
    id: ConversationId,
    isGroup: bool,
    groupName: Option<string>,
    groupAvatar: Option<string>,
    muted: bool,
    archived: bool,
    createdAt: nat)

  datatype Participant = Participant(conversationId: ConversationId, userId: UserId)

  /** `messageType` is the stored `type` column: 'text', 'image' or 'file' by
      convention, but any string the client sent. */
  datatype Message = Message(
    id: MessageId,
    conversationId: ConversationId,
    senderId: UserId,
    content: string,
    messageType: string,
    fileName: Option<string>,
    fileSize: Option<string>,
    createdAt: nat,
    isEdited: bool,
    isPinned: bool)

  /** Unique on the whole triple (messageId, userId, emoji). */
  datatype Reaction = Reaction(messageId: MessageId, userId: UserId, emoji: string)

  /** Unique on the pair (messageId, userId). */
  datatype ReadReceipt = ReadReceipt(messageId: MessageId, userId: UserId)

  /** The columns a service supplies when it creates a message. */
  datatype MessageData = MessageData(
    conversationId: ConversationId,
    senderId: UserId,
    content: string,
    messageType: string,
    fileName: Option<string>,
    fileSize: Option<string>)

  /** The `data` of a message update. */
  datatype MessagePatch = SetContent(content: string) | SetPinned(pinned: bool)

  /** The `data` of a conversation update. */
  datatype ConversationPatch = SetArchived(archived: bool) | SetMuted(muted: bool)

  /** The `where` of a reaction deleteMany. */
  datatype ReactionWhere = ByUser(messageId: MessageId, userId: UserId) | Exactly(row: Reaction)

  // ---------------------------------------------------------------------
  // Keys, lookups and row filters

  function UserIds(us: seq<User>): set<UserId> {
    set u | u in us :: u.id
  }

  function ConversationIds(cs: seq<Conversation>): set<ConversationId> {
    set c | c in cs :: c.id
  }

  function MessageIds(ms: seq<Message>): set<MessageId> {
    set m | m in ms :: m.id
  }

  function MessageKey(m: Message): int { m.id }
  function MessageTime(m: Message): int { m.createdAt }
  function ConversationKey(c: Conversation): int { c.id }
  function ConversationTime(c: Conversation): int { c.createdAt }

  /** Position of the user with id `id`. */
  function FindUser(us: seq<User>, id: UserId): (r: Option<nat>)
    ensures r.Some? ==> r.value < |us| && us[r.value].id == id
    ensures r.None? <==> id !in UserIds(us)
  {
    if us == [] then None
    else if us[0].id == id then Some(0)
    else match FindUser(us[1..], id)
      case None => None
      case Some(k) => Some(k + 1)
  }

  function FindConversation(cs: seq<Conversation>, id: ConversationId): (r: Option<nat>)
    ensures r.Some? ==> r.value < |cs| && cs[r.value].id == id
    ensures r.None? <==> id !in ConversationIds(cs)
  {
    if cs == [] then None
    else if cs[0].id == id then Some(0)
    else match FindConversation(cs[1..], id)
      case None => None
      case Some(k) => Some(k + 1)
  }

  function FindMessage(ms: seq<Message>, id: MessageId): (r: Option<nat>)
    ensures r.Some? ==> r.value < |ms| && ms[r.value].id == id
    ensures r.None? <==> id !in MessageIds(ms)
  {
    if ms == [] then None
    else if ms[0].id == id then Some(0)
    else match FindMessage(ms[1..], id)
      case None => None
      case Some(k) => Some(k + 1)
  }

  function InConversation(c: ConversationId): Message -> bool {
    (m: Message) => m.conversationId == c
  }

  function OtherMessage(id: MessageId): Message -> bool {
    (m: Message) => m.id != id
  }

  function ReactionOn(id: MessageId): Reaction -> bool {
    (r: Reaction) => r.messageId == id
  }

  function ReactionNotOn(id: MessageId): Reaction -> bool {
    (r: Reaction) => r.messageId != id
  }

  function ReceiptOn(id: MessageId): ReadReceipt -> bool {
    (t: ReadReceipt) => t.messageId == id
  }

  function ReceiptNotOn(id: MessageId): ReadReceipt -> bool {
    (t: ReadReceipt) => t.messageId != id
  }

  function ParticipantOf(c: ConversationId): Participant -> bool {
    (p: Participant) => p.conversationId == c
  }

  predicate ReactionMatches(w: ReactionWhere, r: Reaction) {
    match w
    case ByUser(m, u) => r.messageId == m && r.userId == u
    case Exactly(row) => r == row
  }

  /** The rows a deleteMany with `where: w` leaves in place. */
  function ReactionKept(w: ReactionWhere): Reaction -> bool {
    (r: Reaction) => !ReactionMatches(w, r)
  }

  // ---------------------------------------------------------------------
  // Row constructors and updates

  function NewMessage(data: MessageData, id: MessageId, at: nat): Message {
    Message(id, data.conversationId, data.senderId, data.content, data.messageType,
            data.fileName, data.fileSize, at, false, false)
  }

  function Patched(m: Message, patch: MessagePatch): Message {
    match patch
    case SetContent(content) => m.(content := content, isEdited := true)
    case SetPinned(pinned) => m.(isPinned := pinned)
  }

  function PatchedConversation(c: Conversation, patch: ConversationPatch): Conversation {
    match patch
    case SetArchived(b) => c.(archived := b)
    case SetMuted(b) => c.(muted := b)
  }

  /** A field the update's `data` leaves `undefined` keeps its stored value. */
  function Keep(stored: Option<string>, given: Option<string>): Option<string> {
    if given.Some? then given else stored
  }

  /** The users table after `upsert({ where: { id }, update, create })`. */
  function UpsertUserRow(us: seq<User>, id: UserId, name: string,
                         avatarUrl: Option<string>, status: Option<string>): seq<User>
  {
    match FindUser(us, id)
    case Some(k) =>
      us[k := us[k].(name := name, avatarUrl := Keep(us[k].avatarUrl, avatarUrl),
                     status := Keep(us[k].status, status))]
    case None => us + [User(id, name, avatarUrl, None, status)]
  }

  function ParticipantRows(c: ConversationId, members: seq<UserId>): (r: seq<Participant>)
    ensures |r| == |members|
    ensures forall i :: 0 <= i < |members| ==> r[i] == Participant(c, members[i])
  {
    seq(|members|, i requires 0 <= i < |members| => Participant(c, members[i]))
  }

  /** The receipts table after an upsert of `row` with an empty `update`. */
  function UpsertReceipt(ts: seq<ReadReceipt>, row: ReadReceipt): seq<ReadReceipt> {
    if row in ts then ts else ts + [row]
  }

  // ---------------------------------------------------------------------
  // Table invariants

  ghost predicate UniqueUserIds(us: seq<User>) {
    forall i, j :: 0 <= i < j < |us| ==> us[i].id != us[j].id
  }

  /** Rows sit in creation order; their ids and timestamps come from the counters. */
  ghost predicate ConversationsChronological(cs: seq<Conversation>, nextId: nat, clock: nat) {
    && StrictlyIncreasing(cs, ConversationKey)
    && StrictlyIncreasing(cs, ConversationTime)
    && forall c :: c in cs ==> c.id < nextId && c.createdAt < clock
  }

  ghost predicate MessagesChronological(ms: seq<Message>, nextId: nat, clock: nat) {
    && StrictlyIncreasing(ms, MessageKey)
    && StrictlyIncreasing(ms, MessageTime)
    && forall m :: m in ms ==> m.id < nextId && m.createdAt < clock
  }

  ghost predicate TablesValid(us: seq<User>, cs: seq<Conversation>, ps: seq<Participant>,
                              ms: seq<Message>, rs: seq<Reaction>, ts: seq<ReadReceipt>,
                              nextId: nat, clock: nat)
  {
    && UniqueUserIds(us)
    && ConversationsChronological(cs, nextId, clock)
    && MessagesChronological(ms, nextId, clock)
    && (forall m :: m in ms ==> m.conversationId in ConversationIds(cs) && m.senderId in UserIds(us))
    && (forall p :: p in ps ==> p.conversationId in ConversationIds(cs) && p.userId in UserIds(us))
    && (forall r :: r in rs ==> r.messageId in MessageIds(ms))
    && (forall t :: t in ts ==> t.messageId in MessageIds(ms))
    && Distinct(rs)
    && Distinct(ts)
  }

  // ---------------------------------------------------------------------
  // Lemmas about the table operations

  lemma UpsertUserRowKeys(us: seq<User>, id: UserId, name: string,
                          avatarUrl: Option<string>, status: Option<string>)
    requires UniqueUserIds(us)
    ensures UniqueUserIds(UpsertUserRow(us, id, name, avatarUrl, status))
    ensures UserIds(UpsertUserRow(us, id, name, avatarUrl, status)) == UserIds(us) + {id}
  {
    var r := UpsertUserRow(us, id, name, avatarUrl, status);
    match FindUser(us, id)
    case Some(k) =>
      forall x | x in UserIds(us) ensures x in UserIds(r) {
        var i :| 0 <= i < |us| && us[i].id == x;
        assert r[i].id == x;
      }
      forall x | x in UserIds(r) ensures x in UserIds(us) {
        var i :| 0 <= i < |r| && r[i].id == x;
        assert us[i].id == x;
      }
    case None =>
      assert r[|us|].id == id;
  }

  lemma MessagesDeleteKeepsOrder(ms: seq<Message>, id: MessageId, nextId: nat, clock: nat)
    requires MessagesChronological(ms, nextId, clock)
    ensures MessagesChronological(Filter(ms, OtherMessage(id)), nextId, clock)
    ensures MessageIds(Filter(ms, OtherMessage(id))) == MessageIds(ms) - {id}
  {
    FilterIncreasing(ms, OtherMessage(id), MessageKey);
    FilterIncreasing(ms, OtherMessage(id), MessageTime);
    var r := Filter(ms, OtherMessage(id));
    forall x | x in MessageIds(ms) - {id} ensures x in MessageIds(r) {
      var m :| m in ms && m.id == x;
      assert m in r;
    }
  }

  lemma StrictlyIncreasingAppend<T>(s: seq<T>, x: T, key: T -> int)
    requires StrictlyIncreasing(s, key)
    requires forall y :: y in s ==> key(y) < key(x)
    ensures StrictlyIncreasing(s + [x], key)
  {
    var t := s + [x];
    forall i, j | 0 <= i < j < |t| ensures key(t[i]) < key(t[j]) {
      if j == |s| {
        assert t[i] in s;
      }
    }
  }

  lemma PatchKeepsMessagesValid(us: seq<User>, cs: seq<Conversation>, ps: seq<Participant>,
                                 ms: seq<Message>, rs: seq<Reaction>, ts: seq<ReadReceipt>,
                                 nextId: nat, clock: nat, k: nat, patch: MessagePatch)
    requires TablesValid(us, cs, ps, ms, rs, ts, nextId, clock)
    requires k < |ms|
    ensures TablesValid(us, cs, ps, ms[k := Patched(ms[k], patch)], rs, ts, nextId, clock)
  {
    var ms' := ms[k := Patched(ms[k], patch)];
    PatchKeepsMessageIds(ms, k, patch);
    PatchKeepsChronology(ms, nextId, clock, k, patch);
    forall x | x in ms'
      ensures x.conversationId in ConversationIds(cs) && x.senderId in UserIds(us)
    {
      var i :| 0 <= i < |ms'| && ms'[i] == x;
      assert ms[i] in ms;
    }
  }

  lemma PatchKeepsMessageIds(ms: seq<Message>, k: nat, patch: MessagePatch)
    requires k < |ms|
    ensures MessageIds(ms[k := Patched(ms[k], patch)]) == MessageIds(ms)
  {
    var ms' := ms[k := Patched(ms[k], patch)];
    forall x | x in MessageIds(ms) ensures x in MessageIds(ms') {
      var i :| 0 <= i < |ms| && ms[i].id == x;
      assert ms'[i].id == x;
    }
    forall x | x in MessageIds(ms') ensures x in MessageIds(ms) {
      var i :| 0 <= i < |ms'| && ms'[i].id == x;
      assert ms[i].id == x;
    }
  }

  lemma PatchKeepsChronology(ms: seq<Message>, nextId: nat, clock: nat, k: nat, patch: MessagePatch)
    requires MessagesChronological(ms, nextId, clock)
    requires k < |ms|
    ensures MessagesChronological(ms[k := Patched(ms[k], patch)], nextId, clock)
  {
    var ms' := ms[k := Patched(ms[k], patch)];
    forall i, j | 0 <= i < j < |ms'|
      ensures MessageKey(ms'[i]) < MessageKey(ms'[j]) && MessageTime(ms'[i]) < MessageTime(ms'[j])
    {
      assert MessageKey(ms[i]) < MessageKey(ms[j]);
      assert MessageTime(ms[i]) < MessageTime(ms[j]);
    }
    forall x | x in ms' ensures x.id < nextId && x.createdAt < clock {
      var i :| 0 <= i < |ms'| && ms'[i] == x;
      assert ms[i] in ms;
    }
  }

  lemma DeleteKeepsTablesValid(us: seq<User>, cs: seq<Conversation>, ps: seq<Participant>,
                               ms: seq<Message>, rs: seq<Reaction>, ts: seq<ReadReceipt>,
                               nextId: nat, clock: nat, id: MessageId)
    requires TablesValid(us, cs, ps, ms, rs, ts, nextId, clock)
    ensures TablesValid(us, cs, ps, Filter(ms, OtherMessage(id)), Filter(rs, ReactionNotOn(id)),
                        Filter(ts, ReceiptNotOn(id)), nextId, clock)
  {
    MessagesDeleteKeepsOrder(ms, id, nextId, clock);
    FilterDistinct(rs, ReactionNotOn(id));
    FilterDistinct(ts, ReceiptNotOn(id));
  }

  lemma PatchKeepsConversationsValid(us: seq<User>, cs: seq<Conversation>, ps: seq<Participant>,
                                      ms: seq<Message>, rs: seq<Reaction>, ts: seq<ReadReceipt>,
                                      nextId: nat, clock: nat, k: nat, patch: ConversationPatch)
    requires TablesValid(us, cs, ps, ms, rs, ts, nextId, clock)
    requires k < |cs|
    ensures TablesValid(us, cs[k := PatchedConversation(cs[k], patch)], ps, ms, rs, ts, nextId, clock)
  {
    PatchKeepsConversationIds(cs, k, patch);
    PatchKeepsConversationChronology(cs, nextId, clock, k, patch);
  }

  lemma PatchKeepsConversationIds(cs: seq<Conversation>, k: nat, patch: ConversationPatch)
    requires k < |cs|
    ensures ConversationIds(cs[k := PatchedConversation(cs[k], patch)]) == ConversationIds(cs)
  {
    var cs' := cs[k := PatchedConversation(cs[k], patch)];
    forall x | x in ConversationIds(cs) ensures x in ConversationIds(cs') {
      var i :| 0 <= i < |cs| && cs[i].id == x;
      assert cs'[i].id == x;
    }
    forall x | x in ConversationIds(cs') ensures x in ConversationIds(cs) {
      var i :| 0 <= i < |cs'| && cs'[i].id == x;
      assert cs[i].id == x;
    }
  }

  lemma PatchKeepsConversationChronology(cs: seq<Conversation>, nextId: nat, clock: nat, k: nat,
                                         patch: ConversationPatch)
    requires ConversationsChronological(cs, nextId, clock)
    requires k < |cs|
    ensures ConversationsChronological(cs[k := PatchedConversation(cs[k], patch)], nextId, clock)
  {
    var cs' := cs[k := PatchedConversation(cs[k], patch)];
    forall i, j | 0 <= i < j < |cs'|
      ensures ConversationKey(cs'[i]) < ConversationKey(cs'[j])
              && ConversationTime(cs'[i]) < ConversationTime(cs'[j])
    {
      assert ConversationKey(cs[i]) < ConversationKey(cs[j]);
      assert ConversationTime(cs[i]) < ConversationTime(cs[j]);
    }
    forall x | x in cs' ensures x.id < nextId && x.createdAt < clock {
      var i :| 0 <= i < |cs'| && cs'[i] == x;
      assert cs[i] in cs;
    }
  }

  class Store {
    var users: seq<User>
    var conversations: seq<Conversation>
    var participants: seq<Participant>
    var messages: seq<Message>
    var reactions: seq<Reaction>
    var receipts: seq<ReadReceipt>
    var nextId: nat
    var clock: nat

    ghost predicate Valid()
      reads this
    {
      TablesValid(users, conversations, participants, messages, reactions, receipts, nextId, clock)
    }

    constructor ()
      ensures Valid()
      ensures users == [] && conversations == [] && participants == []
      ensures messages == [] && reactions == [] && receipts == []
    {
      users, conversations, participants := [], [], [];
      messages, reactions, receipts := [], [], [];
      nextId, clock := 0, 0;
    }

    /** `message.create`: fails when the conversation or the sender is missing. */
    method CreateMessage(data: MessageData) returns (r: Result<Message>)
      requires Valid()
      modifies this`messages, this`nextId, this`clock
      ensures Valid()
      ensures r.Err? <==> data.conversationId !in ConversationIds(conversations) || data.senderId !in UserIds(users)
      ensures r.Err? ==> r.error == ForeignKeyViolation
      ensures r.Err? ==> messages == old(messages) && nextId == old(nextId) && clock == old(clock)
      ensures r.Ok? ==> r.value == NewMessage(data, old(nextId), old(clock))
      ensures r.Ok? ==> messages == old(messages) + [r.value]
      ensures r.Ok? ==> nextId == old(nextId) + 1 && clock == old(clock) + 1
    {
      if data.conversationId !in ConversationIds(conversations) || data.senderId !in UserIds(users) {
        return Err(ForeignKeyViolation);
      }
      var m := NewMessage(data, nextId, clock);
      StrictlyIncreasingAppend(messages, m, MessageKey);
      StrictlyIncreasingAppend(messages, m, MessageTime);
      assert MessageIds(messages + [m]) == MessageIds(messages) + {m.id};
      SetMessages(messages + [m], nextId + 1, clock + 1);
      r := Ok(m);
    }

    /** Replaces the message table and advances the counters. */
    method SetMessages(ms: seq<Message>, n: nat, t: nat)
      requires TablesValid(users, conversations, participants, ms, reactions, receipts, n, t)
      modifies this`messages, this`nextId, this`clock
      ensures Valid()
      ensures messages == ms && nextId == n && clock == t
    {
      messages, nextId, clock := ms, n, t;
    }

    /** `message.update`: fails with NotFound when no message has the id. */
    method UpdateMessage(id: MessageId, patch: MessagePatch) returns (r: Result<Message>)
      requires Valid()
      modifies this`messages
      ensures Valid()
      ensures FindMessage(old(messages), id).None? ==> r == Err(NotFound) && messages == old(messages)
      ensures FindMessage(old(messages), id).Some? ==>
        var k := FindMessage(old(messages), id).value;
        && r == Ok(Patched(old(messages)[k], patch))
        && messages == old(messages)[k := Patched(old(messages)[k], patch)]
    {
      match FindMessage(messages, id)
      case None =>
        r := Err(NotFound);
      case Some(k) =>
        var m := Patched(messages[k], patch);
        PatchKeepsMessagesValid(users, conversations, participants, messages, reactions, receipts,
                                nextId, clock, k, patch);
        var ms := messages[k := m];
        messages := ms;
        r := Ok(m);
    }

    /** `message.delete`: fails with NotFound; otherwise the message goes and,
        through the cascade on their foreign keys, so do its reactions and receipts. */
    method DeleteMessage(id: MessageId) returns (r: Result<Message>)
      requires Valid()
      modifies this`messages, this`reactions, this`receipts
      ensures Valid()
      ensures FindMessage(old(messages), id).None? ==>
        && r == Err(NotFound)
        && messages == old(messages) && reactions == old(reactions) && receipts == old(receipts)
      ensures FindMessage(old(messages), id).Some? ==>
        && r == Ok(old(messages)[FindMessage(old(messages), id).value])
        && messages == Filter(old(messages), OtherMessage(id))
        && reactions == Filter(old(reactions), ReactionNotOn(id))
        && receipts == Filter(old(receipts), ReceiptNotOn(id))
    {
      match FindMessage(messages, id)
      case None =>
        r := Err(NotFound);
      case Some(k) =>
        r := Ok(messages[k]);
        DeleteKeepsTablesValid(users, conversations, participants, messages, reactions, receipts,
                               nextId, clock, id);
        SetMessageTables(Filter(messages, OtherMessage(id)), Filter(reactions, ReactionNotOn(id)),
                         Filter(receipts, ReceiptNotOn(id)));
    }

    /** Replaces the message, reaction and receipt tables at once. */
    method SetMessageTables(ms: seq<Message>, rs: seq<Reaction>, ts: seq<ReadReceipt>)
      requires TablesValid(users, conversations, participants, ms, rs, ts, nextId, clock)
      modifies this`messages, this`reactions, this`receipts
      ensures Valid()
      ensures messages == ms && reactions == rs && receipts == ts
    {
      messages, reactions, receipts := ms, rs, ts;
    }

    /** `message.deleteMany({ where: { id, conversationId } })`: removes the
        message only when both match; the result is the count removed. */
    method DeleteManyMessages(id: MessageId, conversationId: ConversationId) returns (count: nat)
      requires Valid()
      modifies this`messages, this`reactions, this`receipts
      ensures Valid()
      ensures var k := FindMessage(old(messages), id);
        if k.Some? && old(messages)[k.value].conversationId == conversationId then
          && count == 1
          && messages == Filter(old(messages), OtherMessage(id))
          && reactions == Filter(old(reactions), ReactionNotOn(id))
          && receipts == Filter(old(receipts), ReceiptNotOn(id))
        else
          count == 0 && messages == old(messages) && reactions == old(reactions) && receipts == old(receipts)
    {
      var k := FindMessage(messages, id);
      if k.Some? && messages[k.value].conversationId == conversationId {
        var _ := DeleteMessage(id);
        count := 1;
      } else {
        count := 0;
      }
    }

    /** `reaction.deleteMany({ where: w })`. */
    method DeleteManyReactions(w: ReactionWhere) returns (count: nat)
      requires Valid()
      modifies this`reactions
      ensures Valid()
      ensures reactions == Filter(old(reactions), ReactionKept(w))
      ensures count == |old(reactions)| - |reactions|
    {
      FilterDistinct(reactions, ReactionKept(w));
      var kept := Filter(reactions, ReactionKept(w));
      count := |reactions| - |kept|;
      reactions := kept;
    }

    /** `reaction.create`: fails on a missing message or a repeated triple. */
    method CreateReaction(row: Reaction) returns (r: Result<Reaction>)
      requires Valid()
      modifies this`reactions
      ensures Valid()
      ensures row.messageId !in MessageIds(messages) ==> r == Err(ForeignKeyViolation)
      ensures row.messageId in MessageIds(messages) && row in old(reactions) ==> r == Err(UniqueViolation)
      ensures r.Err? ==> reactions == old(reactions)
      ensures r.Ok? <==> row.messageId in MessageIds(messages) && row !in old(reactions)
      ensures r.Ok? ==> r.value == row && reactions == old(reactions) + [row]
    {
      if row.messageId !in MessageIds(messages) {
        return Err(ForeignKeyViolation);
      }
      if row in reactions {
        return Err(UniqueViolation);
      }
      reactions := reactions + [row];
      r := Ok(row);
    }

    /** `readReceipt.upsert` with an empty `update`: creates the row unless it exists. */
    method UpsertReadReceipt(row: ReadReceipt) returns (r: Result<ReadReceipt>)
      requires Valid()
      modifies this`receipts
      ensures Valid()
      ensures r.Err? <==> row.messageId !in MessageIds(messages)
      ensures r.Err? ==> r.error == ForeignKeyViolation && receipts == old(receipts)
      ensures r.Ok? ==> r.value == row && receipts == UpsertReceipt(old(receipts), row)
    {
      if row.messageId !in MessageIds(messages) {
        return Err(ForeignKeyViolation);
      }
      receipts := UpsertReceipt(receipts, row);
      r := Ok(row);
    }

    /** `readReceipt.create`: fails on a missing message or a repeated pair. */
    method CreateReadReceipt(row: ReadReceipt) returns (r: Result<ReadReceipt>)
      requires Valid()
      modifies this`receipts
      ensures Valid()
      ensures row.messageId !in MessageIds(messages) ==> r == Err(ForeignKeyViolation)
      ensures row.messageId in MessageIds(messages) && row in old(receipts) ==> r == Err(UniqueViolation)
      ensures r.Err? ==> receipts == old(receipts)
      ensures r.Ok? <==> row.messageId in MessageIds(messages) && row !in old(receipts)
      ensures r.Ok? ==> r.value == row && receipts == old(receipts) + [row]
    {
      if row.messageId !in MessageIds(messages) {
        return Err(ForeignKeyViolation);
      }
      if row in receipts {
        return Err(UniqueViolation);
      }
      receipts := receipts + [row];
      r := Ok(row);
    }

    /** `user.upsert` keyed by id; the update sets the given fields only. */
    method UpsertUser(id: UserId, name: string, avatarUrl: Option<string>, status: Option<string>)
      requires Valid()
      modifies this`users
      ensures Valid()
      ensures users == UpsertUserRow(old(users), id, name, avatarUrl, status)
      ensures UserIds(users) == UserIds(old(users)) + {id}
    {
      UpsertUserRowKeys(users, id, name, avatarUrl, status);
      users := UpsertUserRow(users, id, name, avatarUrl, status);
    }

    /** `conversation.create` with a nested create of one participant row per
        member; fails, creating nothing, when a member is not a user. */
    method CreateConversation(isGroup: bool, groupName: Option<string>, groupAvatar: Option<string>,
                              members: seq<UserId>) returns (r: Result<Conversation>)
      requires Valid()
      modifies this`conversations, this`participants, this`nextId, this`clock
      ensures Valid()
      ensures r.Err? <==> exists u :: u in members && u !in UserIds(users)
      ensures r.Err? ==> r.error == ForeignKeyViolation
      ensures r.Err? ==> conversations == old(conversations) && participants == old(participants)
                         && nextId == old(nextId) && clock == old(clock)
      ensures r.Ok? ==> r.value == Conversation(old(nextId), isGroup, groupName, groupAvatar, false, false, old(clock))
      ensures r.Ok? ==> conversations == old(conversations) + [r.value]
      ensures r.Ok? ==> participants == old(participants) + ParticipantRows(r.value.id, members)
      ensures r.Ok? ==> nextId == old(nextId) + 1 && clock == old(clock) + 1
    {
      if exists u :: u in members && u !in UserIds(users) {
        return Err(ForeignKeyViolation);
      }
      var c := Conversation(nextId, isGroup, groupName, groupAvatar, false, false, clock);
      StrictlyIncreasingAppend(conversations, c, ConversationKey);
      StrictlyIncreasingAppend(conversations, c, ConversationTime);
      assert ConversationIds(conversations + [c]) == ConversationIds(conversations) + {c.id};
      var rows := ParticipantRows(c.id, members);
      forall p | p in participants + rows
        ensures p.conversationId in ConversationIds(conversations + [c]) && p.userId in UserIds(users)
      {
        if p !in participants {
          var i :| 0 <= i < |rows| && rows[i] == p;
          assert members[i] in members;
        }
      }
      SetConversationTables(conversations + [c], participants + rows, nextId + 1, clock + 1);
      r := Ok(c);
    }

    /** Replaces the conversation and participant tables and advances the counters. */
    method SetConversationTables(cs: seq<Conversation>, ps: seq<Participant>, n: nat, t: nat)
      requires TablesValid(users, cs, ps, messages, reactions, receipts, n, t)
      modifies this`conversations, this`participants, this`nextId, this`clock
      ensures Valid()
      ensures conversations == cs && participants == ps && nextId == n && clock == t
    {
      conversations, participants, nextId, clock := cs, ps, n, t;
    }

    /** `conversation.update`: fails with NotFound when no conversation has the id. */
    method UpdateConversation(id: ConversationId, patch: ConversationPatch) returns (r: Result<Conversation>)
      requires Valid()
      modifies this`conversations
      ensures Valid()
      ensures FindConversation(old(conversations), id).None? ==>
        r == Err(NotFound) && conversations == old(conversations)
      ensures FindConversation(old(conversations), id).Some? ==>
        var k := FindConversation(old(conversations), id).value;
        && r == Ok(PatchedConversation(old(conversations)[k], patch))
        && conversations == old(conversations)[k := PatchedConversation(old(conversations)[k], patch)]
    {
      match FindConversation(conversations, id)
      case None =>
        r := Err(NotFound);
      case Some(k) =>
        var c := PatchedConversation(conversations[k], patch);
        PatchKeepsConversationsValid(users, conversations, participants, messages, reactions, receipts,
                                     nextId, clock, k, patch);
        var cs := conversations[k := c];
        conversations := cs;
        r := Ok(c);
    }
  }
}
