/** The conversation directory: a user's conversations with their
    participants' profiles and newest message, conversation creation (which
    first upserts every participant's user record), the archive and mute
    flags, and this service's copies of the message queries and of
    mark-as-read, which notifies nobody. */
module Conversations {
  import opened Common
  import opened Tables
  import opened Queries
  import opened Dto

  /** A participant as `p.user` is returned: `{ id, name, avatarUrl, status }`. */
  datatype ParticipantView = ParticipantView(id: UserId, name: string, avatarUrl: Option<string>,
                                             status: Option<string>)

  /** What `create`, `archive` and `mute` return. */
  datatype ConversationView = ConversationView(
    id: ConversationId,
    participants: seq<ParticipantView>,
    unreadCount: nat,
    isGroup: bool,
    groupName: Option<string>,
    groupAvatar: Option<string>,
    muted: bool,
    archived: bool)

  /** An entry of `getUserConversations`: the view plus the newest message. */
  datatype ConversationSummary = ConversationSummary(view: ConversationView, lastMessage: Option<Message>)

  function Profile(u: User): ParticipantView {
    ParticipantView(u.id, u.name, u.avatarUrl, u.status)
  }

  /** Every participant row refers to a stored user (its foreign key). */
  ghost predicate UsersExist(us: seq<User>, ps: seq<Participant>) {
    forall p :: p in ps ==> p.userId in UserIds(us)
  }

  /** The user record of each participant row, in row order. */
  function Profiles(us: seq<User>, rows: seq<Participant>): (r: seq<ParticipantView>)
    requires UsersExist(us, rows)
    ensures |r| == |rows|
    ensures forall i :: 0 <= i < |rows| ==> r[i].id == rows[i].userId
    ensures forall i :: 0 <= i < |rows| ==> exists u :: u in us && r[i] == Profile(u)
  {
    if rows == [] then []
    else
      var k := FindUser(us, rows[0].userId).value;
      assert us[k] in us;
      [Profile(us[k])] + Profiles(us, rows[1..])
  }

  /** The conversation's participant rows, joined with their users. */
  function ParticipantsOf(us: seq<User>, ps: seq<Participant>, c: ConversationId): seq<ParticipantView>
    requires UsersExist(us, ps)
  {
    Profiles(us, Filter(ps, ParticipantOf(c)))
  }

  function ViewOf(us: seq<User>, ps: seq<Participant>, c: Conversation): (r: ConversationView)
    requires UsersExist(us, ps)
    ensures r.unreadCount == 0
  {
    ConversationView(c.id, ParticipantsOf(us, ps, c.id), 0, c.isGroup, c.groupName, c.groupAvatar,
                     c.muted, c.archived)
  }

  // ---------------------------------------------------------------------
  // getUserConversations

  /** `participants: { some: { userId: u } }`. */
  function HasMember(ps: seq<Participant>, u: UserId): Conversation -> bool {
    (c: Conversation) => Participant(c.id, u) in ps
  }

  /** The user's conversations, newest `createdAt` first. */
  function UserConversations(cs: seq<Conversation>, ps: seq<Participant>, u: UserId): seq<Conversation> {
    Reverse(Filter(cs, HasMember(ps, u)))
  }

  lemma UserConversationsCorrect(cs: seq<Conversation>, ps: seq<Participant>, u: UserId)
    requires StrictlyIncreasing(cs, ConversationTime)
    ensures forall c :: c in UserConversations(cs, ps, u) <==> c in cs && Participant(c.id, u) in ps
    ensures StrictlyDecreasing(UserConversations(cs, ps, u), ConversationTime)
  {
    FilterIncreasing(cs, HasMember(ps, u), ConversationTime);
    ReverseMembers(Filter(cs, HasMember(ps, u)));
    ReverseDecreasing(Filter(cs, HasMember(ps, u)), ConversationTime);
  }

  /** `messages: { orderBy: { createdAt: 'desc' }, take: 1 }` then `[0] ?? null`. */
  function LastMessage(ms: seq<Message>, c: ConversationId): Option<Message> {
    var newest := NewestFirst(ms, c);
    if newest == [] then None else Some(newest[0])
  }

  /** The last message is the conversation's newest one, and there is none
      only when the conversation has no messages. */
  lemma LastMessageCorrect(ms: seq<Message>, c: ConversationId)
    requires StrictlyIncreasing(ms, MessageTime)
    ensures LastMessage(ms, c).None? <==> forall m :: m in ms ==> m.conversationId != c
    ensures LastMessage(ms, c).Some? ==>
      var last := LastMessage(ms, c).value;
      && last in ms && last.conversationId == c
      && forall m :: m in ms && m.conversationId == c ==> m.createdAt <= last.createdAt
  {
    NewestFirstCorrect(ms, c);
    var newest := NewestFirst(ms, c);
    if newest != [] {
      assert newest[0] in newest;
      forall m | m in ms && m.conversationId == c ensures m.createdAt <= newest[0].createdAt {
        var i :| 0 <= i < |newest| && newest[i] == m;
        if i > 0 {
          assert MessageTime(newest[0]) > MessageTime(newest[i]);
        }
      }
    }
  }

  function Summaries(us: seq<User>, cs: seq<Conversation>, ps: seq<Participant>, ms: seq<Message>,
                     u: UserId): (r: seq<ConversationSummary>)
    requires UsersExist(us, ps)
    ensures |r| == |UserConversations(cs, ps, u)|
    ensures forall i :: 0 <= i < |r| ==>
      var c := UserConversations(cs, ps, u)[i];
      r[i] == ConversationSummary(ViewOf(us, ps, c), LastMessage(ms, c.id))
  {
    var convs := UserConversations(cs, ps, u);
    seq(|convs|, i requires 0 <= i < |convs| =>
      ConversationSummary(ViewOf(us, ps, convs[i]), LastMessage(ms, convs[i].id)))
  }

  // ---------------------------------------------------------------------
  // create

  function Ids(ps: seq<ConversationParticipantDto>): (r: seq<UserId>)
    ensures |r| == |ps|
    ensures forall i :: 0 <= i < |ps| ==> r[i] == ps[i].id
  {
    seq(|ps|, i requires 0 <= i < |ps| => ps[i].id)
  }

  /** The users table after upserting each DTO participant in turn. */
  function UpsertAll(us: seq<User>, ps: seq<ConversationParticipantDto>): seq<User> {
    if ps == [] then us
    else
      var p := ps[|ps| - 1];
      UpsertUserRow(UpsertAll(us, ps[..|ps| - 1]), p.id, p.name, p.avatarUrl, p.status)
  }

  lemma UpsertAllStep(us: seq<User>, ps: seq<ConversationParticipantDto>, i: nat)
    requires i < |ps|
    ensures UpsertAll(us, ps[..i + 1]) == UpsertUserRow(UpsertAll(us, ps[..i]), ps[i].id, ps[i].name, ps[i].avatarUrl, ps[i].status)
  {
    assert ps[..i + 1][..i] == ps[..i];
  }

  /** Upserting keeps user ids unique, keeps every existing id and adds each
      participant's id. */
  lemma {:induction false} UpsertAllKeys(us: seq<User>, ps: seq<ConversationParticipantDto>)
    requires UniqueUserIds(us)
    ensures UniqueUserIds(UpsertAll(us, ps))
    ensures UserIds(us) <= UserIds(UpsertAll(us, ps))
    ensures forall j :: 0 <= j < |ps| ==> ps[j].id in UserIds(UpsertAll(us, ps))
  {
    if ps != [] {
      var n := |ps| - 1;
      var before := UpsertAll(us, ps[..n]);
      UpsertAllKeys(us, ps[..n]);
      UpsertUserRowKeys(before, ps[n].id, ps[n].name, ps[n].avatarUrl, ps[n].status);
      assert UserIds(UpsertAll(us, ps)) == UserIds(before) + {ps[n].id};
      forall j | 0 <= j < |ps| ensures ps[j].id in UserIds(UpsertAll(us, ps)) {
        if j < n {
          assert ps[..n][j] == ps[j];
        }
      }
    }
  }

  /** One upsert stores a record with the id and the name, and keeps every
      record of another id. */
  lemma UpsertUserRowEntries(us: seq<User>, id: UserId, name: string,
                             avatarUrl: Option<string>, status: Option<string>)
    ensures exists x :: x in UpsertUserRow(us, id, name, avatarUrl, status) && x.id == id && x.name == name
    ensures forall x :: x in us && x.id != id ==> x in UpsertUserRow(us, id, name, avatarUrl, status)
  {
    var r := UpsertUserRow(us, id, name, avatarUrl, status);
    match FindUser(us, id)
    case Some(k) =>
      assert r[k] in r;
      forall x | x in us && x.id != id ensures x in r {
        var i :| 0 <= i < |us| && us[i] == x;
        assert r[i] == x;
      }
    case None =>
      assert r[|us|] in r;
  }

  /** Each participant's id ends up with the name of its last DTO entry. */
  lemma {:induction false} UpsertAllNames(us: seq<User>, ps: seq<ConversationParticipantDto>, i: nat)
    requires i < |ps|
    requires forall j :: i < j < |ps| ==> ps[j].id != ps[i].id
    ensures exists x :: x in UpsertAll(us, ps) && x.id == ps[i].id && x.name == ps[i].name
  {
    var n := |ps| - 1;
    var p := ps[n];
    var before := UpsertAll(us, ps[..n]);
    UpsertUserRowEntries(before, p.id, p.name, p.avatarUrl, p.status);
    if i < n {
      UpsertAllNames(us, ps[..n], i);
      var x :| x in before && x.id == ps[i].id && x.name == ps[i].name;
      assert x in UpsertAll(us, ps);
    }
  }

  /** `create` never writes the `avatar` column: a table with no avatar set
      has none after the upserts. */
  lemma {:induction false} UpsertAllNoAvatar(us: seq<User>, ps: seq<ConversationParticipantDto>)
    requires forall x :: x in us ==> x.avatar.None?
    ensures forall x :: x in UpsertAll(us, ps) ==> x.avatar.None?
  {
    if ps != [] {
      var n := |ps| - 1;
      var before := UpsertAll(us, ps[..n]);
      UpsertAllNoAvatar(us, ps[..n]);
      var after := UpsertUserRow(before, ps[n].id, ps[n].name, ps[n].avatarUrl, ps[n].status);
      forall x | x in after ensures x.avatar.None? {
        match FindUser(before, ps[n].id)
        case Some(k) =>
          var i :| 0 <= i < |after| && after[i] == x;
          assert before[i] in before;
        case None =>
          if x != after[|before|] {
            var i :| 0 <= i < |after| && after[i] == x;
            assert before[i] in before;
          }
      }
    }
  }

  /** A user no DTO participant names keeps its record. */
  lemma {:induction false} UpsertAllKeepsOthers(us: seq<User>, ps: seq<ConversationParticipantDto>, x: User)
    requires x in us && forall j :: 0 <= j < |ps| ==> ps[j].id != x.id
    ensures x in UpsertAll(us, ps)
  {
    if ps != [] {
      var n := |ps| - 1;
      UpsertAllKeepsOthers(us, ps[..n], x);
      UpsertUserRowEntries(UpsertAll(us, ps[..n]), ps[n].id, ps[n].name, ps[n].avatarUrl, ps[n].status);
    }
  }

  /** A conversation id no row refers to yet gets exactly the rows just created. */
  lemma {:induction false} FreshParticipants(ps: seq<Participant>, c: ConversationId, members: seq<UserId>)
    requires forall p :: p in ps ==> p.conversationId != c
    ensures Filter(ps + ParticipantRows(c, members), ParticipantOf(c)) == ParticipantRows(c, members)
  {
    FilterAppend(ps, ParticipantRows(c, members), ParticipantOf(c));
    FilterNone(ps, ParticipantOf(c));
    FilterAll(ParticipantRows(c, members), ParticipantOf(c));
  }

  /** The view of a just-created conversation lists the DTO participants in order. */
  lemma CreatedView(us: seq<User>, ps: seq<Participant>, c: Conversation, dps: seq<ConversationParticipantDto>)
    requires forall p :: p in ps ==> p.conversationId != c.id
    requires UsersExist(us, ps + ParticipantRows(c.id, Ids(dps)))
    ensures var v := ViewOf(us, ps + ParticipantRows(c.id, Ids(dps)), c);
      && |v.participants| == |dps|
      && forall i :: 0 <= i < |dps| ==> v.participants[i].id == dps[i].id
  {
    FreshParticipants(ps, c.id, Ids(dps));
  }

  class ConversationsService {
    const prisma: Store

    constructor (prisma: Store)
      ensures this.prisma == prisma
    {
      this.prisma := prisma;
    }

    /** `getUserConversations(userId)`. */
    method GetUserConversations(userId: UserId) returns (r: seq<ConversationSummary>)
      requires prisma.Valid()
      ensures r == Summaries(prisma.users, prisma.conversations, prisma.participants, prisma.messages, userId)
    {
      r := Summaries(prisma.users, prisma.conversations, prisma.participants, prisma.messages, userId);
    }

    /** `getMessages(conversationId, limit = 50, offset = 0)`: the same query
        as the message service's. */
    method GetMessages(conversationId: ConversationId, limit: Option<nat>, offset: Option<nat>)
      returns (r: seq<MessageView>)
      ensures r == MessagesPage(prisma.messages, prisma.reactions, prisma.receipts, conversationId,
                                if limit.Some? then limit.value else 50,
                                if offset.Some? then offset.value else 0)
    {
      var take := if limit.Some? then limit.value else 50;
      var skip := if offset.Some? then offset.value else 0;
      r := MessagesPage(prisma.messages, prisma.reactions, prisma.receipts, conversationId, take, skip);
    }

    /** `create(dto)`: upsert every participant's user, in order, then create
        the conversation with one participant row per DTO participant. */
    method Create(dto: CreateConversationDto) returns (r: ConversationView)
      requires prisma.Valid()
      modifies prisma`users, prisma`conversations, prisma`participants, prisma`nextId, prisma`clock
      ensures prisma.Valid()
      ensures prisma.users == UpsertAll(old(prisma.users), dto.participants)
      ensures var c := Conversation(old(prisma.nextId), dto.isGroup, dto.groupName, dto.groupAvatar,
                                    false, false, old(prisma.clock));
        && prisma.conversations == old(prisma.conversations) + [c]
        && prisma.participants == old(prisma.participants) + ParticipantRows(c.id, Ids(dto.participants))
        && prisma.nextId == old(prisma.nextId) + 1 && prisma.clock == old(prisma.clock) + 1
        && r == ViewOf(prisma.users, prisma.participants, c)
      ensures |r.participants| == |dto.participants|
      ensures forall i :: 0 <= i < |dto.participants| ==> r.participants[i].id == dto.participants[i].id
    {
      UpsertParticipants(dto.participants);
      var members := Ids(dto.participants);
      forall p | p in old(prisma.participants) ensures p.conversationId != prisma.nextId {
        var c :| c in prisma.conversations && c.id == p.conversationId;
      }
      var created := prisma.CreateConversation(dto.isGroup, dto.groupName, dto.groupAvatar, members);
      var c := created.value;
      CreatedView(prisma.users, old(prisma.participants), c, dto.participants);
      r := ViewOf(prisma.users, prisma.participants, c);
    }

    /** The loop of `create`: one user upsert per DTO participant, in order. */
    method UpsertParticipants(ps: seq<ConversationParticipantDto>)
      requires prisma.Valid()
      modifies prisma`users
      ensures prisma.Valid()
      ensures prisma.users == UpsertAll(old(prisma.users), ps)
      ensures forall j :: 0 <= j < |ps| ==> ps[j].id in UserIds(prisma.users)
    {
      var i := 0;
      while i < |ps|
        invariant 0 <= i <= |ps|
        invariant prisma.Valid()
        invariant prisma.users == UpsertAll(old(prisma.users), ps[..i])
      {
        UpsertAllStep(old(prisma.users), ps, i);
        prisma.UpsertUser(ps[i].id, ps[i].name, ps[i].avatarUrl, ps[i].status);
        i := i + 1;
      }
      assert ps[..|ps|] == ps;
      UpsertAllKeys(old(prisma.users), ps);
    }

    /** `archive(conversationId, archived)`: only the `archived` flag changes. */
    method Archive(conversationId: ConversationId, archived: bool) returns (r: Result<ConversationView>)
      requires prisma.Valid()
      modifies prisma`conversations
      ensures prisma.Valid()
      ensures r.Err? <==> conversationId !in ConversationIds(old(prisma.conversations))
      ensures r.Err? ==> r.error == NotFound && prisma.conversations == old(prisma.conversations)
      ensures r.Ok? ==>
        var k := FindConversation(old(prisma.conversations), conversationId).value;
        && prisma.conversations == old(prisma.conversations)[k := old(prisma.conversations)[k].(archived := archived)]
        && r.value == ViewOf(prisma.users, prisma.participants, prisma.conversations[k])
    {
      ghost var found := FindConversation(prisma.conversations, conversationId);
      var updated := prisma.UpdateConversation(conversationId, SetArchived(archived));
      if updated.Err? {
        return Err(updated.error);
      }
      r := Ok(ViewOf(prisma.users, prisma.participants, updated.value));
    }

    /** `mute(conversationId, muted)`: only the `muted` flag changes. */
    method Mute(conversationId: ConversationId, muted: bool) returns (r: Result<ConversationView>)
      requires prisma.Valid()
      modifies prisma`conversations
      ensures prisma.Valid()
      ensures r.Err? <==> conversationId !in ConversationIds(old(prisma.conversations))
      ensures r.Err? ==> r.error == NotFound && prisma.conversations == old(prisma.conversations)
      ensures r.Ok? ==>
        var k := FindConversation(old(prisma.conversations), conversationId).value;
        && prisma.conversations == old(prisma.conversations)[k := old(prisma.conversations)[k].(muted := muted)]
        && r.value == ViewOf(prisma.users, prisma.participants, prisma.conversations[k])
    {
      ghost var found := FindConversation(prisma.conversations, conversationId);
      var updated := prisma.UpdateConversation(conversationId, SetMuted(muted));
      if updated.Err? {
        return Err(updated.error);
      }
      r := Ok(ViewOf(prisma.users, prisma.participants, updated.value));
    }

    /** `markAsRead(conversationId, userId)`: the same upsert loop as the
        message service's, with no notification. */
    method MarkAsRead(conversationId: ConversationId, userId: UserId)
      requires prisma.Valid()
      modifies prisma`receipts
      ensures prisma.Valid()
      ensures prisma.receipts == MarkRead(old(prisma.receipts), Filter(prisma.messages, InConversation(conversationId)), userId)
    {
      MarkConversationRead(prisma, conversationId, userId);
    }

    /** `searchMessages(conversationId, query)`: the same query as the message service's. */
    method SearchMessages(conversationId: ConversationId, query: string) returns (r: seq<MessageView>)
      ensures r == SearchResults(prisma.messages, prisma.reactions, prisma.receipts, conversationId, query)
    {
      r := SearchResults(prisma.messages, prisma.reactions, prisma.receipts, conversationId, query);
    }
  }
}
