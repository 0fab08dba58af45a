/** The older conversation service. Participants are only user ids: a
    summary lists `{ id: userId }` per participant row, `create` takes the
    member ids as they are and touches no user record, and `archive`/`mute`
    return the conversation row with its participant rows. */
module LegacyConversations {
  import opened Common
  import opened Tables
  import opened Queries
  import opened Dto
  import opened Conversations

  /** A participant as `p => ({ id: p.userId })` returns it. */
  datatype ParticipantRef = ParticipantRef(id: UserId)

  datatype LegacySummary = LegacySummary(
    id: ConversationId,
    participants: seq<ParticipantRef>,
    lastMessage: Option<Message>,
    unreadCount: nat,
    isGroup: bool,
    groupName: Option<string>,
    groupAvatar: Option<string>,
    muted: bool,
    archived: bool)

  /** A conversation row with `include: { participants: true }`. */
  datatype ConversationRecord = ConversationRecord(conversation: Conversation, participants: seq<Participant>)

  function Refs(rows: seq<Participant>): (r: seq<ParticipantRef>)
    ensures |r| == |rows|
    ensures forall i :: 0 <= i < |rows| ==> r[i].id == rows[i].userId
  {
    seq(|rows|, i requires 0 <= i < |rows| => ParticipantRef(rows[i].userId))
  }

  function Summary(ps: seq<Participant>, ms: seq<Message>, c: Conversation): LegacySummary {
    LegacySummary(c.id, Refs(Filter(ps, ParticipantOf(c.id))), LastMessage(ms, c.id), 0,
                  c.isGroup, c.groupName, c.groupAvatar, c.muted, c.archived)
  }

  /** `getUserConversations(userId)`: the user's conversations, newest first,
      with their participant ids and newest message. */
  function LegacySummaries(cs: seq<Conversation>, ps: seq<Participant>, ms: seq<Message>, u: UserId)
    : (r: seq<LegacySummary>)
    ensures |r| == |UserConversations(cs, ps, u)|
    ensures forall i :: 0 <= i < |r| ==>
      var c := UserConversations(cs, ps, u)[i];
      && r[i].id == c.id && r[i].unreadCount == 0
      && r[i].lastMessage == LastMessage(ms, c.id)
      && r[i].isGroup == c.isGroup && r[i].groupName == c.groupName && r[i].groupAvatar == c.groupAvatar
      && r[i].muted == c.muted && r[i].archived == c.archived
      && |r[i].participants| == |Filter(ps, ParticipantOf(c.id))|
      && forall j :: 0 <= j < |r[i].participants| ==>
           r[i].participants[j].id == Filter(ps, ParticipantOf(c.id))[j].userId
  {
    var convs := UserConversations(cs, ps, u);
    seq(|convs|, i requires 0 <= i < |convs| => Summary(ps, ms, convs[i]))
  }

  /** The legacy summaries name the same conversations, in the same order,
      with the same participant ids and newest message as the newer service's. */
  lemma LegacySummariesMatchNewer(us: seq<User>, cs: seq<Conversation>, ps: seq<Participant>,
                                  ms: seq<Message>, u: UserId)
    requires UsersExist(us, ps)
    ensures var legacy := LegacySummaries(cs, ps, ms, u);
      var newer := Summaries(us, cs, ps, ms, u);
      && |legacy| == |newer|
      && forall i :: 0 <= i < |legacy| ==>
           && legacy[i].id == newer[i].view.id
           && legacy[i].lastMessage == newer[i].lastMessage
           && |legacy[i].participants| == |newer[i].view.participants|
           && forall j :: 0 <= j < |legacy[i].participants| ==>
                legacy[i].participants[j].id == newer[i].view.participants[j].id
  {
  }

  class LegacyConversationsService {
    const prisma: Store

    constructor (prisma: Store)
      ensures this.prisma == prisma
    {
      this.prisma := prisma;
    }

    method GetUserConversations(userId: UserId) returns (r: seq<LegacySummary>)
      ensures r == LegacySummaries(prisma.conversations, prisma.participants, prisma.messages, userId)
    {
      r := LegacySummaries(prisma.conversations, prisma.participants, prisma.messages, userId);
    }

    /** `create(dto)`: one conversation and one participant row per given
        user id; a missing user fails the whole create. */
    method Create(dto: LegacyCreateConversationDto) returns (r: Result<ConversationRecord>)
      requires prisma.Valid()
      modifies prisma`conversations, prisma`participants, prisma`nextId, prisma`clock
      ensures prisma.Valid()
      ensures prisma.users == old(prisma.users)
      ensures r.Err? <==> exists u :: u in dto.participants && u !in UserIds(prisma.users)
      ensures r.Err? ==> && r.error == ForeignKeyViolation
                         && prisma.conversations == old(prisma.conversations)
                         && prisma.participants == old(prisma.participants)
                         && prisma.nextId == old(prisma.nextId) && prisma.clock == old(prisma.clock)
      ensures r.Ok? ==>
        var c := Conversation(old(prisma.nextId), dto.isGroup, dto.groupName, dto.groupAvatar,
                              false, false, old(prisma.clock));
        && prisma.conversations == old(prisma.conversations) + [c]
        && prisma.participants == old(prisma.participants) + ParticipantRows(c.id, dto.participants)
        && prisma.nextId == old(prisma.nextId) + 1 && prisma.clock == old(prisma.clock) + 1
        && r.value == ConversationRecord(c, ParticipantRows(c.id, dto.participants))
        && r.value.participants == Filter(prisma.participants, ParticipantOf(c.id))
    {
      forall p | p in prisma.participants ensures p.conversationId != prisma.nextId {
        var c :| c in prisma.conversations && c.id == p.conversationId;
      }
      var created := prisma.CreateConversation(dto.isGroup, dto.groupName, dto.groupAvatar, dto.participants);
      if created.Err? {
        return Err(created.error);
      }
      var c := created.value;
      FreshParticipants(old(prisma.participants), c.id, dto.participants);
      r := Ok(ConversationRecord(c, ParticipantRows(c.id, dto.participants)));
    }

    /** `archive(conversationId, archived)`: only `archived` changes. */
    method Archive(conversationId: ConversationId, archived: bool) returns (r: Result<ConversationRecord>)
      requires prisma.Valid()
      modifies prisma`conversations
      ensures prisma.Valid()
      ensures r.Err? <==> conversationId !in ConversationIds(old(prisma.conversations))
      ensures r.Err? ==> r.error == NotFound && prisma.conversations == old(prisma.conversations)
      ensures r.Ok? ==>
        var k := FindConversation(old(prisma.conversations), conversationId).value;
        && prisma.conversations == old(prisma.conversations)[k := old(prisma.conversations)[k].(archived := archived)]
        && r.value == ConversationRecord(prisma.conversations[k], Filter(prisma.participants, ParticipantOf(conversationId)))
    {
      ghost var found := FindConversation(prisma.conversations, conversationId);
      var updated := prisma.UpdateConversation(conversationId, SetArchived(archived));
      if updated.Err? {
        return Err(updated.error);
      }
      r := Ok(ConversationRecord(updated.value, Filter(prisma.participants, ParticipantOf(conversationId))));
    }

    /** `mute(conversationId, muted)`: only `muted` changes. */
    method Mute(conversationId: ConversationId, muted: bool) returns (r: Result<ConversationRecord>)
      requires prisma.Valid()
      modifies prisma`conversations
      ensures prisma.Valid()
      ensures r.Err? <==> conversationId !in ConversationIds(old(prisma.conversations))
      ensures r.Err? ==> r.error == NotFound && prisma.conversations == old(prisma.conversations)
      ensures r.Ok? ==>
        var k := FindConversation(old(prisma.conversations), conversationId).value;
        && prisma.conversations == old(prisma.conversations)[k := old(prisma.conversations)[k].(muted := muted)]
        && r.value == ConversationRecord(prisma.conversations[k], Filter(prisma.participants, ParticipantOf(conversationId)))
    {
      ghost var found := FindConversation(prisma.conversations, conversationId);
      var updated := prisma.UpdateConversation(conversationId, SetMuted(muted));
      if updated.Err? {
        return Err(updated.error);
      }
      r := Ok(ConversationRecord(updated.value, Filter(prisma.participants, ParticipantOf(conversationId))));
    }
  }
}
