# Chat backend core, modelled in Dafny

This project models the state transitions of a NestJS chat backend. The
relational store is a `Store` object with one sequence per table:

- users, conversations and participant rows;
- messages, with a monotone `createdAt` clock and store-generated ids;
- reaction rows `(messageId, userId, emoji)` and read receipts `(messageId, userId)`.

The rest of the model is built on that store:

- **Services.** Each service is a class holding the store (and the gateway). Its methods issue the same store calls as the TypeScript service, in the same order.
- **WebSocket gateway.** This is a class with the `connectedUsers` registry and an `events` log. Every `server.emit`, `server.to(..).emit` and `client.broadcast.emit` appends one entry to that log.
- **Queries.** The read-only queries are pure functions over the tables. Lemmas state what each one returns.

Files:

- `common.dfy`: `Option`/`Result`, store errors, JavaScript truthiness, filters, orderings, paging, ASCII case-insensitive `contains`.
- `tables.dfy`: rows, table invariants (unique user ids, creation order, foreign keys, unique reaction and receipt rows), and the `Store` operations.
- `reactions.dfy`: `groupReactions`, plus an independent characterisation of its result.
- `queries.dfy`: message formatting, `getMessages`, `searchMessages`, `getMessageWithDetails`, and the mark-as-read upsert loop.
- `gateway.dfy`: the chat gateway.
- `dto.dfy`: the request shapes.
- `messages.dfy`, `conversations.dfy`, `users.dfy`: the services under `src/modules`.
- `legacy_messages.dfy`, `legacy_conversations.dfy`: the older services under `src/messages` and `src/conversations`. Lemmas relate them to the newer ones.

## Model

| member | source | states |
|---|---|---|
| Reactions.GroupReactionsCorrect | src/modules/messages/messages.service.ts:409-420 | The groups satisfy the following. There is one group per distinct emoji, and every row's emoji has a group. Groups appear in order of first appearance. Each group's users are exactly that emoji's rows' userIds, in row order, and no group is empty. The group sizes sum to the number of rows, so each row is in exactly one group. |
| Reactions.GroupReactionsEmojis | src/modules/messages/messages.service.ts:409-420 | An emoji has a group iff some row carries it. |
| Reactions.GroupedUsersUnique | src/modules/messages/messages.service.ts:409-420 | When each user has at most one row, no user appears in two groups. |
| Reactions.AddToGroupsKeepsGroupsOf | src/modules/messages/messages.service.ts:410-418 | One step of the reduce turns the groups of a prefix into the groups of the prefix extended by one row. |
| Queries.ReadersOf | src/modules/messages/messages.service.ts:46 | `readBy` holds a user iff there is a receipt for that user on the message. |
| Queries.FormatMessage | src/modules/messages/messages.service.ts:35-47 | A formatted message keeps the id and `createdAt` as timestamp. Its reactions are the grouping of that message's rows. Its `readBy` is exactly its readers. |
| Queries.UnreferencedFormatsEmpty | src/modules/messages/messages.service.ts:68-80 | A message that no reaction or receipt refers to is formatted with empty reactions and `readBy`. |
| Queries.NewestFirstCorrect | src/modules/messages/messages.service.ts:22-33 | The conversation's messages are exactly those with its id, in strictly decreasing `createdAt`. |
| Queries.MessagesPageCorrect | src/modules/messages/messages.service.ts:22-47 | A page has at most `limit` entries. It is the window starting at `offset` of the newest-first list, and its timestamps strictly decrease. |
| Queries.SearchResultsCorrect | src/modules/messages/messages.service.ts:346-376 | The results are exactly the conversation's messages whose content contains the query ignoring ASCII case, newest first. |
| Common.SearchIgnoresQueryCase | src/modules/messages/messages.service.ts:351-353 | Upper-casing the query does not change whether a content matches. |
| Common.EmptyQueryMatches | src/modules/messages/messages.service.ts:351-353 | The empty query matches every content. |
| Queries.MessageDetails | src/modules/messages/messages.service.ts:379-406 | The result is NotFound iff no message has the id. Otherwise it is the formatted stored message. |
| Queries.MarkReadContents | src/modules/messages/messages.service.ts:318-337 | After the upsert loop the table holds exactly the old receipts plus one for the user on each message. Old rows keep their places. |
| Queries.MarkReadIdempotent | src/modules/messages/messages.service.ts:318-337 | Running the upsert loop a second time leaves the receipts table unchanged. |
| Queries.MarkConversationRead | src/modules/messages/messages.service.ts:319-337 | The loop of upserts yields the `MarkRead` table of the conversation's messages. |
| Messages.ReplaceReactionCorrect | src/modules/messages/messages.service.ts:116-130 | After a replace, the user has exactly one row on the message and it is the new one. Rows of other users or messages are kept, in order. |
| Messages.RemoveAbsentReaction | src/modules/messages/messages.service.ts:144-150 | Removing a row that is absent leaves the table unchanged. |
| Messages.MessagesService.GetMessages | src/modules/messages/messages.service.ts:22-47 | Defaults `limit` to 50 and `offset` to 0, and returns the newest-first page. |
| Messages.MessagesService.SendMessage | src/modules/messages/messages.service.ts:51-90 | Appends one message: `type` defaults to 'text', it is neither edited nor pinned, and it has no reactions or readers. Appends one `message-received` event with the conversation id. A missing conversation or sender is an error that changes nothing, including the id and clock counters. |
| Messages.MessagesService.AddReaction | src/modules/messages/messages.service.ts:93-140 | The reactions table becomes the replace of the user's rows by the new row, and the updated message is broadcast as `reaction-added`. A missing message fails and changes nothing. |
| Messages.MessagesService.RemoveReaction | src/modules/messages/messages.service.ts:143-166 | Only rows equal to the triple are deleted. The `reaction-removed` event carries the stored message's conversation id. A missing message is NotFound, with no table change and no event. |
| Messages.MessagesService.EditMessage | src/modules/messages/messages.service.ts:169-207 | Only `content` changes, and `isEdited` becomes true; reactions and receipts are untouched. Broadcasts `message-edited`. A missing id is NotFound and changes nothing. |
| Messages.MessagesService.TogglePin | src/modules/messages/messages.service.ts:280-315 | Only `isPinned` changes, and it becomes `dto.isPinned`. Broadcasts `message-pinned`. A missing id is NotFound and changes nothing. |
| Messages.MessagesService.DeleteMessage | src/modules/messages/messages.service.ts:221-277 | A missing id is NotFound, with no change and no event. Otherwise the message, its reactions and its receipts are gone, whether or not the file removal failed. One `message-deleted {messageId}` event is appended. |
| Messages.MessagesService.MarkAsRead | src/modules/messages/messages.service.ts:318-343 | The receipts become `MarkRead` of the conversation's messages, and one `messages-read` event is appended. |
| Messages.MessagesService.SearchMessages | src/modules/messages/messages.service.ts:346-376 | Returns the search results over the current tables. |
| Dto.DefaultType | src/modules/messages/messages.service.ts:56 | The stored type is the DTO's type when truthy, 'text' otherwise, and never empty. |
| Gateway.FindSlot | src/websocket/chat/chat.gateway.ts:22 | Finds the registry entry of a user, or reports that the user has none. |
| Gateway.SocketOwner | src/websocket/chat/chat.gateway.ts:39-41 | None iff no entry holds the socket. Otherwise the owner is a user whose entry holds the socket. |
| Gateway.LookupAfterSet | src/websocket/chat/chat.gateway.ts:27 | After `set(u, sid)`, `u` maps to `sid` and every other user keeps its socket; keys stay unique. |
| Gateway.LookupAfterDelete | src/websocket/chat/chat.gateway.ts:44 | After `delete(u)`, `u` is unmapped and every other user keeps its socket. |
| Gateway.SupersededSocketUnowned | src/websocket/chat/chat.gateway.ts:22-44 | After a reconnect with a new socket, the old socket has no owner. Closing it removes nothing and emits nothing. |
| Gateway.CloseLatestUnmaps | src/websocket/chat/chat.gateway.ts:22-44 | There is no reference counting: after connecting twice, closing the latest socket unmaps the user. |
| Gateway.ChatGateway.HandleConnection | src/websocket/chat/chat.gateway.ts:24-36 | A truthy user id is set to the client id and one `user-status online` event is emitted. Otherwise nothing changes. |
| Gateway.ChatGateway.HandleDisconnect | src/websocket/chat/chat.gateway.ts:38-53 | The first user whose socket is the closing one is removed and one `user-status offline` event is emitted. With no such user nothing changes. |
| Gateway.ChatGateway.HandleNewMessage | src/websocket/chat/chat.gateway.ts:56-66 | One `message-received` event to everyone except the sender, carrying the conversation id and the message. |
| Gateway.ChatGateway.HandleTyping | src/websocket/chat/chat.gateway.ts:69-79 | One `user-typing` event to everyone except the sender, with user id and name. |
| Gateway.ChatGateway.HandleStopTyping | src/websocket/chat/chat.gateway.ts:82-91 | One `user-stop-typing` event to everyone except the sender, with no name. |
| Gateway.ChatGateway.EmitToConversation | src/websocket/chat/chat.gateway.ts:94-96 | One broadcast to everyone of the data plus the conversation id. |
| Gateway.ChatGateway.EmitToUser | src/websocket/chat/chat.gateway.ts:99-104 | One event to the user's socket when it has a truthy socket, otherwise nothing. |
| Conversations.UserConversationsCorrect | src/modules/conversations/conversations.service.ts:11-30 | Exactly the conversations having the user as participant, in strictly decreasing `createdAt`. |
| Conversations.LastMessageCorrect | src/modules/conversations/conversations.service.ts:24-27 | None iff the conversation has no message. Otherwise it is a message of the conversation that no other of its messages postdates. |
| Conversations.Summaries | src/modules/conversations/conversations.service.ts:32-47 | One summary per user conversation, in order, with its view and its last message. |
| Conversations.Profiles | src/modules/conversations/conversations.service.ts:34-39 | One profile per participant row, carrying that row's user id and taken from a stored user. |
| Conversations.ViewOf | src/modules/conversations/conversations.service.ts:41 | `unreadCount` is 0. |
| Conversations.UpsertAllKeys | src/modules/conversations/conversations.service.ts:82-97 | After the upserts, user ids stay unique, old ids are kept, and every participant's id exists. |
| Conversations.UpsertAllNames | src/modules/conversations/conversations.service.ts:82-97 | Each participant's id ends up with the name of its last DTO entry. |
| Conversations.UpsertAllNoAvatar | src/modules/conversations/conversations.service.ts:82-97 | The upserts never write the `avatar` column. A table with no avatar set still has none afterwards. |
| Conversations.UpsertAllKeepsOthers | src/modules/conversations/conversations.service.ts:82-97 | A user no participant names keeps its record. |
| Conversations.ConversationsService.UpsertParticipants | src/modules/conversations/conversations.service.ts:82-97 | The users table becomes the upsert of every participant in turn, and each participant's id exists. |
| Conversations.ConversationsService.Create | src/modules/conversations/conversations.service.ts:80-133 | The users are upserted. Then one conversation is added, with `isGroup`, `groupName` and `groupAvatar` copied and the flags false. It gets one participant row per DTO participant. The view lists those participants in order, with `unreadCount` 0. |
| Conversations.ConversationsService.Archive | src/modules/conversations/conversations.service.ts:136-166 | Only `archived` changes. A missing conversation is NotFound and changes nothing. |
| Conversations.ConversationsService.Mute | src/modules/conversations/conversations.service.ts:169-199 | Only `muted` changes. A missing conversation is NotFound and changes nothing. |
| Conversations.ConversationsService.MarkAsRead | src/modules/conversations/conversations.service.ts:202-222 | The same receipts as the message service's `markAsRead`, and no event is emitted. |
| Conversations.ConversationsService.GetMessages | src/modules/conversations/conversations.service.ts:51-77 | The same page as the message service's `getMessages`. |
| Conversations.ConversationsService.SearchMessages | src/modules/conversations/conversations.service.ts:225-255 | The same results as the message service's `searchMessages`. |
| Conversations.ConversationsService.GetUserConversations | src/modules/conversations/conversations.service.ts:11-48 | Returns the summaries of the user's conversations. |
| LegacyMessages.WithRelations | src/messages/messages.service.ts:18 | The included reactions and receipts are exactly the message's rows. |
| LegacyMessages.OldestFirstPageCorrect | src/messages/messages.service.ts:12-20 | At most `limit` rows. They are the window starting at `offset` of the conversation's messages, with strictly increasing `createdAt`. |
| LegacyMessages.OldestFirstReversesNewest | src/messages/messages.service.ts:17 | The ascending order is the newer service's newest-first order reversed. |
| LegacyMessages.LegacyMessagesService.GetMessages | src/messages/messages.service.ts:12-20 | The oldest-first page, with defaults 50 and 0. |
| LegacyMessages.LegacyMessagesService.Create | src/messages/messages.service.ts:23-36 | One new message: `type` defaults to 'text', the other fields are copied, and it has empty relations. Fails on a missing conversation or sender, changing nothing, including the counters. |
| LegacyMessages.LegacyMessagesService.Update | src/messages/messages.service.ts:39-47 | Only `content` changes, and `isEdited` becomes true. A missing id is NotFound. |
| LegacyMessages.LegacyMessagesService.Delete | src/messages/messages.service.ts:50-54 | Deletes the message, with its reactions and receipts, only when both id and conversation match. Otherwise nothing changes. |
| LegacyMessages.LegacyMessagesService.AddReaction | src/messages/messages.service.ts:57-61 | Succeeds iff the message exists and the triple is new. It then only appends the row and never removes the user's other reactions. A repeated triple or a missing message fails with no change. |
| LegacyMessages.AdditiveReactionsAccumulate | src/messages/messages.service.ts:57-61 | Two `addReaction` calls by one user on a stored message, with two different new emojis, both succeed. They leave both rows, so the user has two reactions on that message. |
| LegacyMessages.LegacyMessagesService.RemoveReaction | src/messages/messages.service.ts:64-68 | Deletes only the exactly matching rows and returns how many went. |
| LegacyMessages.Unread | src/messages/messages.service.ts:72-79 | Exactly the conversation's messages with no receipt for the user. |
| LegacyMessages.CreateReceipts | src/messages/messages.service.ts:81-85 | Each create succeeds, and the receipts grow by one row per unread message, in order. |
| LegacyMessages.LegacyMessagesService.MarkAsRead | src/messages/messages.service.ts:71-86 | The receipts become the old ones plus one per unread message. |
| LegacyMessages.MarkUnreadCovers | src/messages/messages.service.ts:71-86 | Afterwards every message of the conversation has a receipt for the user. Old rows keep their places, and no receipt appears twice. |
| LegacyMessages.MarkUnreadRepeat | src/messages/messages.service.ts:71-86 | A second call finds nothing unread and leaves the table unchanged. |
| LegacyMessages.MarkUnreadMatchesMarkRead | src/messages/messages.service.ts:71-86 | It gives the same table as the newer services' upsert loop. |
| LegacyConversations.LegacySummaries | src/conversations/conversations.service.ts:11-39 | One summary per user conversation, newest first, with participants `{id: userId}` from the rows. `lastMessage` is the newest message and `unreadCount` is 0; the flags are copied. |
| LegacyConversations.LegacySummariesMatchNewer | src/conversations/conversations.service.ts:28-38 | Same conversations, participant ids and last messages as the newer summaries. |
| LegacyConversations.LegacyConversationsService.Create | src/conversations/conversations.service.ts:42-55 | One conversation, with one participant row per given user id. The returned rows are the conversation's rows, and no user record changes. A missing user fails with no change, including the counters. |
| LegacyConversations.LegacyConversationsService.Archive | src/conversations/conversations.service.ts:58-66 | Only `archived` changes; it returns the row and its participants. A missing conversation is NotFound. |
| LegacyConversations.LegacyConversationsService.Mute | src/conversations/conversations.service.ts:69-77 | Only `muted` changes; it returns the row and its participants. A missing conversation is NotFound. |
| LegacyConversations.LegacyConversationsService.GetUserConversations | src/conversations/conversations.service.ts:11-39 | Returns the legacy summaries. |
| Users.AvailableUsersCorrect | src/modules/users/users.service.ts:9-22 | With a truthy `excludeId`, exactly the users of another id are listed. Otherwise every user is listed, in store order, as `{id, name, avatar, status}`. |
| Users.AvailableUsersExclude | src/modules/users/users.service.ts:11-13 | With a truthy `excludeId`, that id never appears. |
| Users.AvailableUsersAvatar | src/modules/users/users.service.ts:15-20 | `avatar` is read from the `avatar` column. Over users with no stored avatar (all users `create` writes), every entry has none, whatever `avatarUrl` holds. |
| Users.UsersService.GetAvailableUsers | src/modules/users/users.service.ts:9-22 | Returns the listing and changes nothing. |
| Tables.Store.CreateMessage | src/modules/messages/messages.service.ts:52-66 | Appends the new message with the next id and clock. It fails, changing nothing, when the conversation or sender is missing. |
| Tables.Store.DeleteMessage | src/modules/messages/messages.service.ts:246-251 | Removes the message with its reactions and receipts (cascade). A missing id is NotFound. |
| Tables.Store.UpsertUser | src/modules/conversations/conversations.service.ts:84-96 | Creates the user or updates its name. Optional fields the DTO leaves out keep their values, and ids stay unique. |
| Tables.Store.CreateConversation | src/modules/conversations/conversations.service.ts:100-116 | Adds the conversation and one participant row per member. It fails, creating nothing, iff some member is not a user. |
| Tables.Store.UpdateMessage | src/modules/messages/messages.service.ts:170-174 | `message.update` by id (also at :281-283 and src/messages/messages.service.ts:40-43). A missing id is NotFound with no change. Otherwise only the patched message changes: its content with `isEdited` set, or `isPinned`. |
| Tables.Store.DeleteManyMessages | src/messages/messages.service.ts:51-53 | `message.deleteMany` on `(id, conversationId)`. When both match, the message is removed with its reactions and receipts and the count is 1. Otherwise nothing changes and the count is 0. |
| Tables.Store.DeleteManyReactions | src/modules/messages/messages.service.ts:116-121 | `reaction.deleteMany` (also at :144-150 and src/messages/messages.service.ts:65-67). Exactly the rows the `where` selects go, the others stay in order, and the count is the number removed. |
| Tables.Store.CreateReaction | src/messages/messages.service.ts:58-60 | `reaction.create` (also at src/modules/messages/messages.service.ts:124-130). Succeeds iff the message exists and the triple is new, and then appends the row. It fails on a missing message or a repeated triple, changing nothing. |
| Tables.Store.UpsertReadReceipt | src/modules/messages/messages.service.ts:324-333 | `readReceipt.upsert` with an empty `update` (also at src/modules/conversations/conversations.service.ts:208-217). The row is added unless it exists. It fails only on a missing message. |
| Tables.Store.CreateReadReceipt | src/messages/messages.service.ts:83 | `readReceipt.create`. Succeeds iff the message exists and the row is new, and then appends it. It fails on a missing message or a repeated pair, changing nothing. |
| Tables.Store.UpdateConversation | src/modules/conversations/conversations.service.ts:137-139 | `conversation.update` by id (also at :170-172 and src/conversations/conversations.service.ts:59-61, 70-72). A missing id is NotFound with no change. Otherwise only that conversation's `archived` or `muted` flag changes. |

## Left out

- Persistence, Prisma's query engine and database transactions are not modelled. The store is a set of in-memory sequences, and each service call is atomic.
- Socket.io transport, handshake parsing and logging are not modelled. The handshake `userId` is a parameter, and each emit is one entry in the `events` log.
- Concurrency is not modelled. The legacy `markAsRead` issues its creates together with `Promise.all`; the model runs them one after another. That gives the same rows, because the unread messages have distinct ids and so no create fails. The order in which the rows land in the table is not modelled: the model appends them in message order.
- The filesystem `unlink` of `deleteMessage`, and the `process.cwd()` path, are not modelled. Whether the removal fails is the parameter `unlinkFails`, and it never affects the deletion.
- Ids are not cuid strings: message and conversation ids are naturals from a store counter. `createdAt` is a counter too, so store order is `createdAt` order. Orderings by `createdAt` are therefore read off the table order.
- The Prisma schema is not part of this model. The model assumes these constraints:
  - foreign keys from messages to their conversation and sender, and from participants to their conversation and user;
  - foreign keys from reactions and receipts to their message, with cascade delete;
  - uniqueness of the reaction triple and of the receipt pair.
  - a user `avatar` column beside `avatarUrl`. No operation here writes it, so a user created by `create` has none.
- Included relation rows (reactions, receipts, participants) come in table order.
- `undefined` and `null` are one `None`. A DTO field left `undefined` in an update keeps its stored value.
- Negative, non-integer or `NaN` values of `limit`/`offset` (from `parseInt` in the controllers) are not modelled; paging takes naturals.
- Case-insensitive search folds ASCII letters only. Unicode case folding is not modelled.
- The `if (!message)` and `if (!conversation)` checks after an update are not modelled: the store reports a missing record as NotFound before they run.
- `removeReaction` reads the stored message again with `findUnique` and uses it through a non-null assertion (`message!`). The model takes the message from the table, where `getMessageWithDetails` has just found it.
- The newer `create` upserts users and then creates the conversation in two steps. A failure in between is not modelled, because all the users exist by then.
- Duplicate user ids among one conversation's participants give duplicate participant rows, as in the source. No uniqueness of participants is enforced.
- The service enforces no rule that a non-group conversation has two participants, so the model enforces none.
- Reference-counted presence and per-conversation rooms do not exist in the gateway: a user holds one socket slot, and every broadcast is global. The model follows that code.
- `src/messages/dto/update-message.dto.ts` and `src/conversations/dto/create-conversation.dto.ts` are not part of this model. The legacy `update` takes only the `content` it reads, and the legacy `create` takes the participants as the user-id strings it maps.
- `Conversations.ConversationsService.Create` does not state each participant's stored name in its own contract. `Conversations.UpsertAllNames` states it about the same `UpsertAll` table.
