/** The message lifecycle service: send, react, edit, pin, delete, mark as
    read, and the message queries. Each store-changing operation issues the
    same store calls as the service, in the same order, and then notifies the
    conversation through the gateway. */
module Messages {
  import opened Common
  import opened Tables
  import opened Queries
  import opened Gateway
  import opened Dto

  /** What `deleteMessage` did about the message's uploaded file. */
  datatype FileRemoval = NoFile | Removed(fileName: string) | RemovalFailed(fileName: string)

  /** The `{ succes, message }` answer of `deleteMessage`. */
  datatype DeleteResponse = DeleteResponse(succes: bool, message: string)

  /** A file or image message with a truthy `fileName` has a file on disk. */
  predicate HasUpload(m: Message) {
    (m.messageType == "file" || m.messageType == "image") && Truthy(m.fileName)
  }

  /** The reactions table after `addReaction`: the user's rows on the message
      are deleted, then the new row is created. */
  function ReplaceReaction(rs: seq<Reaction>, row: Reaction): seq<Reaction> {
    Filter(rs, ReactionKept(ByUser(row.messageId, row.userId))) + [row]
  }

  /** After a replace the user has exactly one row on the message, the new
      one; the rows of other users and other messages are kept, in order. */
  lemma ReplaceReactionCorrect(rs: seq<Reaction>, row: Reaction)
    ensures var r := ReplaceReaction(rs, row);
      && r[|r| - 1] == row
      && (forall i :: 0 <= i < |r| && r[i].messageId == row.messageId && r[i].userId == row.userId
                      <==> i == |r| - 1)
      && Filter(r, ReactionKept(ByUser(row.messageId, row.userId)))
         == Filter(rs, ReactionKept(ByUser(row.messageId, row.userId)))
  {
    var w := ByUser(row.messageId, row.userId);
    var kept := Filter(rs, ReactionKept(w));
    assert forall i :: 0 <= i < |kept| ==> kept[i] in kept;
    FilterAppend(kept, [row], ReactionKept(w));
    FilterAll(kept, ReactionKept(w));
  }

  /** Removing a row that is not there changes nothing. */
  lemma {:induction false} RemoveAbsentReaction(rs: seq<Reaction>, row: Reaction)
    requires row !in rs
    ensures Filter(rs, ReactionKept(Exactly(row))) == rs
  {
    FilterAll(rs, ReactionKept(Exactly(row)));
  }

  /** The service layer over the store and the gateway. */
  class MessagesService {
    const prisma: Store
    const chatGateway: ChatGateway

    constructor (prisma: Store, chatGateway: ChatGateway)
      ensures this.prisma == prisma && this.chatGateway == chatGateway
    {
      this.prisma := prisma;
      this.chatGateway := chatGateway;
    }

    /** `getMessages(conversationId, limit = 50, offset = 0)`. */
    method GetMessages(conversationId: ConversationId, limit: Option<nat>, offset: Option<nat>)
      returns (r: seq<MessageView>)
      ensures r == MessagesPage(prisma.messages, prisma.reactions, prisma.receipts, conversationId,
                                if limit.Some? then limit.value else 50,
                                if offset.Some? then offset.value else 0)
    {
      var take := if limit.Some? then limit.value else 50;
      var skip := if offset.Some? then offset.value else 0;
      r := MessagesPage(prisma.messages, prisma.reactions, prisma.receipts, conversationId, take, skip);
    }

    /** `sendMessage`: one new message, formatted with no reactions and no
        readers, and one `message-received` broadcast. */
    method SendMessage(dto: SendMessageDto) returns (r: Result<MessageView>)
      requires prisma.Valid()
      modifies prisma`messages, prisma`nextId, prisma`clock, chatGateway`events
      ensures prisma.Valid()
      ensures r.Err? <==> dto.conversationId !in ConversationIds(prisma.conversations)
                          || dto.senderId !in UserIds(prisma.users)
      ensures r.Err? ==> && r.error == ForeignKeyViolation
                         && prisma.messages == old(prisma.messages)
                         && prisma.nextId == old(prisma.nextId) && prisma.clock == old(prisma.clock)
                         && chatGateway.events == old(chatGateway.events)
      ensures r.Ok? ==>
        var m := NewMessage(MessageDataOf(dto), old(prisma.nextId), old(prisma.clock));
        && prisma.messages == old(prisma.messages) + [m]
        && prisma.nextId == old(prisma.nextId) + 1 && prisma.clock == old(prisma.clock) + 1
        && m.messageType == DefaultType(dto.messageType) && !m.isEdited && !m.isPinned
        && r.value == View(m, [], [])
        && r.value == FormatMessage(m, prisma.reactions, prisma.receipts)
        && chatGateway.events == old(chatGateway.events)
             + [Emit(Everyone, "message-received", Some(dto.conversationId), MessageBody(r.value))]
    {
      var created := prisma.CreateMessage(MessageDataOf(dto));
      if created.Err? {
        return Err(created.error);
      }
      var m := created.value;
      forall x | x in prisma.reactions ensures x.messageId != m.id {
        var y :| y in old(prisma.messages) && y.id == x.messageId;
      }
      forall t | t in prisma.receipts ensures t.messageId != m.id {
        var y :| y in old(prisma.messages) && y.id == t.messageId;
      }
      UnreferencedFormatsEmpty(m, prisma.reactions, prisma.receipts);
      var view := View(m, [], []);
      chatGateway.EmitToConversation(dto.conversationId, "message-received", MessageBody(view));
      r := Ok(view);
    }

    /** `addReaction`: one reaction per user per message, then the updated
        message is broadcast as `reaction-added`. */
    method AddReaction(dto: AddReactionDto) returns (r: Result<MessageView>)
      requires prisma.Valid()
      modifies prisma`reactions, chatGateway`events
      ensures prisma.Valid()
      ensures r.Err? <==> dto.messageId !in MessageIds(prisma.messages)
      ensures r.Err? ==> && r.error == ForeignKeyViolation
                         && prisma.reactions == old(prisma.reactions)
                         && chatGateway.events == old(chatGateway.events)
      ensures r.Ok? ==>
        && prisma.reactions == ReplaceReaction(old(prisma.reactions), Reaction(dto.messageId, dto.userId, dto.emoji))
        && r == MessageDetails(prisma.messages, prisma.reactions, prisma.receipts, dto.messageId)
        && chatGateway.events == old(chatGateway.events)
             + [Emit(Everyone, "reaction-added", Some(dto.conversationId), MessageBody(r.value))]
    {
      var row := Reaction(dto.messageId, dto.userId, dto.emoji);
      var w := ByUser(dto.messageId, dto.userId);
      var _ := prisma.DeleteManyReactions(w);
      assert row !in prisma.reactions;
      var created := prisma.CreateReaction(row);
      if created.Err? {
        forall x | x in old(prisma.reactions) ensures ReactionKept(w)(x) {
          var y :| y in prisma.messages && y.id == x.messageId;
        }
        FilterAll(old(prisma.reactions), ReactionKept(w));
        return Err(created.error);
      }
      r := MessageDetails(prisma.messages, prisma.reactions, prisma.receipts, dto.messageId);
      chatGateway.EmitToConversation(dto.conversationId, "reaction-added", MessageBody(r.value));
    }

    /** `removeReaction`: deletes the exact row, if any, then broadcasts the
        updated message as `reaction-removed` to the conversation the stored
        message belongs to. */
    method RemoveReaction(dto: RemoveReactionDto) returns (r: Result<MessageView>)
      requires prisma.Valid()
      modifies prisma`reactions, chatGateway`events
      ensures prisma.Valid()
      ensures prisma.reactions == Filter(old(prisma.reactions), ReactionKept(Exactly(Reaction(dto.messageId, dto.userId, dto.emoji))))
      ensures r.Err? <==> dto.messageId !in MessageIds(prisma.messages)
      ensures r.Err? ==> && r.error == NotFound
                         && prisma.reactions == old(prisma.reactions)
                         && chatGateway.events == old(chatGateway.events)
      ensures r.Ok? ==>
        && r == MessageDetails(prisma.messages, prisma.reactions, prisma.receipts, dto.messageId)
        && exists m :: m in prisma.messages && m.id == dto.messageId
             && chatGateway.events == old(chatGateway.events)
                  + [Emit(Everyone, "reaction-removed", Some(m.conversationId), MessageBody(r.value))]
    {
      var row := Reaction(dto.messageId, dto.userId, dto.emoji);
      var _ := prisma.DeleteManyReactions(Exactly(row));
      var details := MessageDetails(prisma.messages, prisma.reactions, prisma.receipts, dto.messageId);
      if details.Err? {
        assert row !in old(prisma.reactions);
        RemoveAbsentReaction(old(prisma.reactions), row);
        return Err(NotFound);
      }
      var k := FindMessage(prisma.messages, dto.messageId).value;
      assert prisma.messages[k] in prisma.messages;
      chatGateway.EmitToConversation(prisma.messages[k].conversationId, "reaction-removed", MessageBody(details.value));
      r := details;
    }

    /** `editMessage`: only `content` changes, and the message is marked edited;
        broadcast as `message-edited` under the client's conversation id. */
    method EditMessage(messageId: MessageId, dto: UpdateMessageDto) returns (r: Result<MessageView>)
      requires prisma.Valid()
      modifies prisma`messages, chatGateway`events
      ensures prisma.Valid()
      ensures r.Err? <==> messageId !in MessageIds(old(prisma.messages))
      ensures r.Err? ==> && r.error == NotFound
                         && prisma.messages == old(prisma.messages)
                         && chatGateway.events == old(chatGateway.events)
      ensures r.Ok? ==>
        var k := FindMessage(old(prisma.messages), messageId).value;
        && prisma.messages == old(prisma.messages)[k := old(prisma.messages)[k].(content := dto.content, isEdited := true)]
        && r.value == FormatMessage(prisma.messages[k], prisma.reactions, prisma.receipts)
        && chatGateway.events == old(chatGateway.events)
             + [Emit(Everyone, "message-edited", Some(dto.conversationId), MessageBody(r.value))]
    {
      var updated := prisma.UpdateMessage(messageId, SetContent(dto.content));
      if updated.Err? {
        return Err(updated.error);
      }
      ghost var k := FindMessage(old(prisma.messages), messageId).value;
      assert prisma.messages[k] == updated.value == old(prisma.messages)[k].(content := dto.content, isEdited := true);
      var view := FormatMessage(updated.value, prisma.reactions, prisma.receipts);
      chatGateway.EmitToConversation(dto.conversationId, "message-edited", MessageBody(view));
      r := Ok(view);
    }

    /** `deleteMessage`: NotFound leaves everything as it was; otherwise the
        uploaded file, if any, is removed (its failure is only logged), the
        message goes with its reactions and receipts, and `message-deleted`
        is broadcast. `unlinkFails` is the outcome of the file removal. */
    method DeleteMessage(messageId: MessageId, conversationId: ConversationId, unlinkFails: bool)
      returns (r: Result<DeleteResponse>, removal: FileRemoval)
      requires prisma.Valid()
      modifies prisma`messages, prisma`reactions, prisma`receipts, chatGateway`events
      ensures prisma.Valid()
      ensures r.Err? <==> messageId !in MessageIds(old(prisma.messages))
      ensures r.Err? ==> && r.error == NotFound && removal == NoFile
                         && prisma.messages == old(prisma.messages)
                         && prisma.reactions == old(prisma.reactions)
                         && prisma.receipts == old(prisma.receipts)
                         && chatGateway.events == old(chatGateway.events)
      ensures r.Ok? ==>
        var m := old(prisma.messages)[FindMessage(old(prisma.messages), messageId).value];
        && removal == (if !HasUpload(m) then NoFile
                       else if unlinkFails then RemovalFailed(m.fileName.value)
                       else Removed(m.fileName.value))
        && prisma.messages == Filter(old(prisma.messages), OtherMessage(messageId))
        && prisma.reactions == Filter(old(prisma.reactions), ReactionNotOn(messageId))
        && prisma.receipts == Filter(old(prisma.receipts), ReceiptNotOn(messageId))
        && r.value == DeleteResponse(true, "Message supprimer")
        && chatGateway.events == old(chatGateway.events)
             + [Emit(Everyone, "message-deleted", Some(conversationId), DeletedBody(messageId))]
    {
      var k := FindMessage(prisma.messages, messageId);
      if k.None? {
        return Err(NotFound), NoFile;
      }
      var m := prisma.messages[k.value];
      removal := NoFile;
      if HasUpload(m) {
        removal := if unlinkFails then RemovalFailed(m.fileName.value) else Removed(m.fileName.value);
      }
      var _ := prisma.DeleteMessage(messageId);
      chatGateway.EmitToConversation(conversationId, "message-deleted", DeletedBody(messageId));
      r := Ok(DeleteResponse(true, "Message supprimer"));
    }

    /** `togglePin`: only `isPinned` changes, to `dto.isPinned`; broadcast as
        `message-pinned` under the client's conversation id. */
    method TogglePin(messageId: MessageId, dto: TogglePinDto) returns (r: Result<MessageView>)
      requires prisma.Valid()
      modifies prisma`messages, chatGateway`events
      ensures prisma.Valid()
      ensures r.Err? <==> messageId !in MessageIds(old(prisma.messages))
      ensures r.Err? ==> && r.error == NotFound
                         && prisma.messages == old(prisma.messages)
                         && chatGateway.events == old(chatGateway.events)
      ensures r.Ok? ==>
        var k := FindMessage(old(prisma.messages), messageId).value;
        && prisma.messages == old(prisma.messages)[k := old(prisma.messages)[k].(isPinned := dto.isPinned)]
        && r.value == FormatMessage(prisma.messages[k], prisma.reactions, prisma.receipts)
        && chatGateway.events == old(chatGateway.events)
             + [Emit(Everyone, "message-pinned", Some(dto.conversationId), MessageBody(r.value))]
    {
      var updated := prisma.UpdateMessage(messageId, SetPinned(dto.isPinned));
      if updated.Err? {
        return Err(updated.error);
      }
      ghost var k := FindMessage(old(prisma.messages), messageId).value;
      assert prisma.messages[k] == updated.value == old(prisma.messages)[k].(isPinned := dto.isPinned);
      var view := FormatMessage(updated.value, prisma.reactions, prisma.receipts);
      chatGateway.EmitToConversation(dto.conversationId, "message-pinned", MessageBody(view));
      r := Ok(view);
    }

    /** `markAsRead`: a receipt for `userId` on every message of the
        conversation, then one `messages-read` broadcast. */
    method MarkAsRead(conversationId: ConversationId, userId: UserId)
      requires prisma.Valid()
      modifies prisma`receipts, chatGateway`events
      ensures prisma.Valid()
      ensures prisma.receipts == MarkRead(old(prisma.receipts), Filter(prisma.messages, InConversation(conversationId)), userId)
      ensures chatGateway.events == old(chatGateway.events)
                + [Emit(Everyone, "messages-read", Some(conversationId), UserBody(userId))]
    {
      MarkConversationRead(prisma, conversationId, userId);
      chatGateway.EmitToConversation(conversationId, "messages-read", UserBody(userId));
    }

    /** `searchMessages(conversationId, query)`. */
    method SearchMessages(conversationId: ConversationId, query: string) returns (r: seq<MessageView>)
      ensures r == SearchResults(prisma.messages, prisma.reactions, prisma.receipts, conversationId, query)
    {
      r := SearchResults(prisma.messages, prisma.reactions, prisma.receipts, conversationId, query);
    }
  }
}
