/** The request shapes the services accept. Optional TypeScript properties
    (`type?`, `fileName?`, ...) are `Option`s. */
module Dto {
  import opened Common
  import opened Tables

  /** A reply preview the client may attach to a message; no service reads it. */
  datatype ReplyTo = ReplyTo(id: string, senderId: string, content: string)

  datatype SendMessageDto = SendMessageDto(
    conversationId: ConversationId,
    senderId: UserId,
    content: string,
    messageType: Option<string>,
    fileName: Option<string>,
    fileSize: Option<string>,
    replyTo: Option<ReplyTo>)

  /** The older `CreateMessageDto` declares the same properties. */
  type CreateMessageDto = SendMessageDto

  datatype AddReactionDto = AddReactionDto(messageId: MessageId, conversationId: ConversationId,
                                           userId: UserId, emoji: string)

  datatype RemoveReactionDto = RemoveReactionDto(messageId: MessageId, userId: UserId, emoji: string)

  datatype UpdateMessageDto = UpdateMessageDto(conversationId: ConversationId, content: string)

  datatype TogglePinDto = TogglePinDto(conversationId: ConversationId, isPinned: bool)

  datatype ConversationParticipantDto = ConversationParticipantDto(
    id: UserId,
    name: string,
    avatarUrl: Option<string>,
    status: Option<string>)

  datatype CreateConversationDto = CreateConversationDto(
    participants: seq<ConversationParticipantDto>,
    isGroup: bool,
    groupName: Option<string>,
    groupAvatar: Option<string>)

  /** The older conversation service receives the participants as bare user ids. */
  datatype LegacyCreateConversationDto = LegacyCreateConversationDto(
    participants: seq<UserId>,
    isGroup: bool,
    groupName: Option<string>,
    groupAvatar: Option<string>)

  /** `dto.type || 'text'`: a missing or empty type is stored as 'text', so the
      stored type is never empty. */
  function DefaultType(t: Option<string>): (r: string)
    ensures r != ""
    ensures Truthy(t) ==> r == t.value
    ensures !Truthy(t) ==> r == "text"
  {
    if Truthy(t) then t.value else "text"
  }

  /** The `data` of the `message.create` both message services issue. */
  function MessageDataOf(dto: SendMessageDto): MessageData {
    MessageData(dto.conversationId, dto.senderId, dto.content, DefaultType(dto.messageType),
                dto.fileName, dto.fileSize)
  }
}
