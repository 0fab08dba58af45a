/** The WebSocket gateway: the registry `connectedUsers` mapping each user to
    the one socket it last connected with, the presence notices sent on
    connect and disconnect, the client relays (new message, typing), and the
    two emit helpers the services call. Every emit is appended to `events`;
    broadcasts go to every connected socket, as there are no rooms. */
module Gateway {
  import opened Common
  import opened Tables
  import opened Queries

  type SocketId = string

  /** One entry of `connectedUsers`: userId -> socketId. */
  datatype Slot = Slot(userId: UserId, socketId: SocketId)

  /** A socket as the gateway sees it: its id and the `userId` its handshake
      query carries, if any. */
  datatype Client = Client(id: SocketId, queryUserId: Option<string>)

  /** `server.emit` (everyone), `server.to(socket).emit`, `client.broadcast.emit`
      (everyone but the sender). */
  datatype Target = Everyone | ToSocket(socketId: SocketId) | AllExcept(socketId: SocketId)

  datatype Status = Online | Offline

  /** The data an event carries, besides its `conversationId`. */
  datatype Body =
    | StatusBody(userId: UserId, status: Status)       // { userId, status }
    | MessageBody(message: MessageView)                // { message }
    | RelayedBody(raw: string)                         // { message } as the client sent it
    | DeletedBody(messageId: MessageId)                // { messageId }
    | UserBody(userId: UserId)                         // { userId }
    | TypingBody(userId: UserId, userName: Option<string>)  // { userId, userName }

  /** One emitted event; `conversationId` is present when the payload has one. */
  datatype Emit = Emit(target: Target, event: string, conversationId: Option<ConversationId>, body: Body)

  // ---------------------------------------------------------------------
  // The registry as a JavaScript Map: entries in insertion order, one per key

  ghost predicate UniqueKeys(slots: seq<Slot>) {
    forall i, j :: 0 <= i < j < |slots| ==> slots[i].userId != slots[j].userId
  }

  /** Position of the entry for `u`. */
  function FindSlot(slots: seq<Slot>, u: UserId): (r: Option<nat>)
    ensures r.Some? ==> r.value < |slots| && slots[r.value].userId == u
    ensures r.None? ==> forall i :: 0 <= i < |slots| ==> slots[i].userId != u
  {
    if slots == [] then None
    else if slots[0].userId == u then Some(0)
    else match FindSlot(slots[1..], u)
      case None => None
      case Some(k) => Some(k + 1)
  }

  /** `connectedUsers.get(u)`. */
  function Lookup(slots: seq<Slot>, u: UserId): Option<SocketId> {
    match FindSlot(slots, u)
    case None => None
    case Some(k) => Some(slots[k].socketId)
  }

  /** `connectedUsers.set(u, sid)`: an existing entry keeps its place. */
  function SetSlot(slots: seq<Slot>, u: UserId, sid: SocketId): seq<Slot> {
    match FindSlot(slots, u)
    case None => slots + [Slot(u, sid)]
    case Some(k) => slots[k := Slot(u, sid)]
  }

  /** `connectedUsers.delete(u)`. */
  function DeleteSlot(slots: seq<Slot>, u: UserId): (r: seq<Slot>)
    ensures forall s :: s in r <==> s in slots && s.userId != u
  {
    Filter(slots, (s: Slot) => s.userId != u)
  }

  /** `Array.from(connectedUsers.entries()).find(([_, s]) => s === sid)?.[0]`:
      the key of the first entry holding the socket. */
  function SocketOwner(slots: seq<Slot>, sid: SocketId): (r: Option<UserId>)
    ensures r.None? <==> forall i :: 0 <= i < |slots| ==> slots[i].socketId != sid
    ensures r.Some? ==> exists i :: 0 <= i < |slots| && slots[i] == Slot(r.value, sid)
                                    && forall j :: 0 <= j < i ==> slots[j].socketId != sid
  {
    if slots == [] then None
    else if slots[0].socketId == sid then Some(slots[0].userId)
    else
      var r := SocketOwner(slots[1..], sid);
      assert r.Some? ==> exists i :: 0 <= i < |slots[1..]| && slots[1..][i] == Slot(r.value, sid)
                                     && forall j :: 0 <= j < i ==> slots[1..][j].socketId != sid;
      if r.Some? then
        var i :| 0 <= i < |slots[1..]| && slots[1..][i] == Slot(r.value, sid)
                 && forall j :: 0 <= j < i ==> slots[1..][j].socketId != sid;
        assert slots[i + 1] == Slot(r.value, sid);
        r
      else r
  }

  // ---------------------------------------------------------------------
  // Registry lemmas

  lemma {:induction false} LookupOfSlot(slots: seq<Slot>, k: nat)
    requires UniqueKeys(slots) && k < |slots|
    ensures Lookup(slots, slots[k].userId) == Some(slots[k].socketId)
  {
  }

  /** The entries of `set(u, sid)`: the new one, and every other user's old one. */
  lemma {:induction false} SetSlotEntries(slots: seq<Slot>, u: UserId, sid: SocketId)
    requires UniqueKeys(slots)
    ensures forall s :: s in SetSlot(slots, u, sid) <==> s == Slot(u, sid) || (s in slots && s.userId != u)
  {
    var r := SetSlot(slots, u, sid);
    match FindSlot(slots, u)
    case None =>
    case Some(k) =>
      assert r[k] == Slot(u, sid);
      forall s | s in slots && s.userId != u ensures s in r {
        var j :| 0 <= j < |slots| && slots[j] == s;
        assert r[j] == s;
      }
      forall s | s in r && s != Slot(u, sid) ensures s in slots && s.userId != u {
        var j :| 0 <= j < |r| && r[j] == s;
        assert slots[j] == s;
      }
  }

  /** `set` keeps one entry per user. */
  lemma {:induction false} SetSlotUnique(slots: seq<Slot>, u: UserId, sid: SocketId)
    requires UniqueKeys(slots)
    ensures UniqueKeys(SetSlot(slots, u, sid))
  {
    var r := SetSlot(slots, u, sid);
    match FindSlot(slots, u)
    case None =>
      forall i, j | 0 <= i < j < |r| ensures r[i].userId != r[j].userId {
        if j == |slots| { assert r[i] == slots[i]; }
      }
    case Some(k) =>
      forall i, j | 0 <= i < j < |r| ensures r[i].userId != r[j].userId {
        assert slots[i].userId != slots[j].userId;
      }
  }

  /** After `set(u, sid)`, `u` maps to `sid` and every other user keeps its socket. */
  lemma {:induction false} LookupAfterSet(slots: seq<Slot>, u: UserId, sid: SocketId, v: UserId)
    requires UniqueKeys(slots)
    ensures UniqueKeys(SetSlot(slots, u, sid))
    ensures Lookup(SetSlot(slots, u, sid), v) == if v == u then Some(sid) else Lookup(slots, v)
  {
    var r := SetSlot(slots, u, sid);
    SetSlotUnique(slots, u, sid);
    var i: nat := match FindSlot(slots, u) case None => |slots| case Some(k) => k;
    assert r[i] == Slot(u, sid);
    LookupOfSlot(r, i);
    if v != u {
      match FindSlot(slots, v)
      case Some(j) =>
        assert r[j] == slots[j];
        LookupOfSlot(r, j);
      case None =>
        forall k | 0 <= k < |r| ensures r[k].userId != v {
          if k != i { assert r[k] == slots[k]; }
        }
    }
  }

  /** After `delete(u)`, `u` is unmapped and every other user keeps its socket. */
  /** `delete` keeps one entry per user. */
  lemma DeleteSlotUnique(slots: seq<Slot>, u: UserId)
    requires UniqueKeys(slots)
    ensures UniqueKeys(DeleteSlot(slots, u))
  {
    var r := DeleteSlot(slots, u);
    FilterDistinct(slots, (s: Slot) => s.userId != u);
    forall i, j | 0 <= i < j < |r| ensures r[i].userId != r[j].userId {
      var a :| 0 <= a < |slots| && slots[a] == r[i];
      var b :| 0 <= b < |slots| && slots[b] == r[j];
      assert r[i] != r[j];
    }
  }

  /** No entry of `delete(u)` is for a user `v` that is `u` or had no entry. */
  lemma DeleteSlotAbsent(slots: seq<Slot>, u: UserId, v: UserId)
    requires v == u || FindSlot(slots, v).None?
    ensures forall k :: 0 <= k < |DeleteSlot(slots, u)| ==> DeleteSlot(slots, u)[k].userId != v
  {
    var r := DeleteSlot(slots, u);
    forall k | 0 <= k < |r| ensures r[k].userId != v {
      assert r[k] in r;
      var a :| 0 <= a < |slots| && slots[a] == r[k];
    }
  }

  lemma {:induction false} LookupAfterDelete(slots: seq<Slot>, u: UserId, v: UserId)
    requires UniqueKeys(slots)
    ensures UniqueKeys(DeleteSlot(slots, u))
    ensures Lookup(DeleteSlot(slots, u), v) == if v == u then None else Lookup(slots, v)
  {
    var r := DeleteSlot(slots, u);
    DeleteSlotUnique(slots, u);
    if v != u && FindSlot(slots, v).Some? {
      var j := FindSlot(slots, v).value;
      assert slots[j] in r;
      var k :| 0 <= k < |r| && r[k] == slots[j];
      LookupOfSlot(r, k);
    } else {
      DeleteSlotAbsent(slots, u, v);
    }
  }

  /** A user holds one slot: once it reconnects with `s2`, its earlier socket
      `s1` (held by nobody else) has no owner, so disconnecting `s1` does nothing. */
  lemma {:induction false} SupersededSocketUnowned(slots: seq<Slot>, u: UserId, s1: SocketId, s2: SocketId)
    requires UniqueKeys(slots) && s1 != s2
    requires forall i :: 0 <= i < |slots| && slots[i].userId != u ==> slots[i].socketId != s1
    ensures SocketOwner(SetSlot(slots, u, s2), s1).None?
    ensures Lookup(SetSlot(slots, u, s2), u) == Some(s2)
  {
    LookupAfterSet(slots, u, s2, u);
  }

  /** No reference counting: connecting with `s1` and then `s2` and closing
      `s2` leaves the user unmapped, although `s1` may still be open. */
  lemma {:induction false} CloseLatestUnmaps(slots: seq<Slot>, u: UserId, s1: SocketId, s2: SocketId)
    requires UniqueKeys(slots)
    requires forall i :: 0 <= i < |slots| ==> slots[i].socketId != s2
    ensures var after := SetSlot(SetSlot(slots, u, s1), u, s2);
      && SocketOwner(after, s2) == Some(u)
      && Lookup(DeleteSlot(after, u), u).None?
  {
    var mid := SetSlot(slots, u, s1);
    var after := SetSlot(mid, u, s2);
    LookupAfterSet(slots, u, s1, u);
    LookupAfterSet(mid, u, s2, u);
    var k := FindSlot(after, u).value;
    assert after[k] == Slot(u, s2);
    SetSlotEntries(slots, u, s1);
    SetSlotEntries(mid, u, s2);
    forall i | 0 <= i < |after| && after[i].userId != u ensures after[i].socketId != s2 {
      assert after[i] in after;
      var j :| 0 <= j < |slots| && slots[j] == after[i];
    }
    LookupAfterDelete(after, u, u);
  }

  // ---------------------------------------------------------------------
  // The gateway object

  class ChatGateway {
    var connectedUsers: seq<Slot>
    var events: seq<Emit>

    /** One entry per user, and only truthy user ids are ever stored. */
    ghost predicate Valid()
      reads this
    {
      UniqueKeys(connectedUsers) && forall i :: 0 <= i < |connectedUsers| ==> connectedUsers[i].userId != ""
    }

    constructor ()
      ensures Valid() && connectedUsers == [] && events == []
    {
      connectedUsers, events := [], [];
    }

    /** `handleConnection`: a truthy handshake `userId` takes (or retakes) the
        user's slot and announces it online; otherwise nothing happens. */
    method HandleConnection(client: Client)
      requires Valid()
      modifies this
      ensures Valid()
      ensures !Truthy(client.queryUserId) ==> connectedUsers == old(connectedUsers) && events == old(events)
      ensures Truthy(client.queryUserId) ==>
        var u := client.queryUserId.value;
        && connectedUsers == SetSlot(old(connectedUsers), u, client.id)
        && events == old(events) + [Emit(Everyone, "user-status", None, StatusBody(u, Online))]
    {
      if Truthy(client.queryUserId) {
        var u := client.queryUserId.value;
        LookupAfterSet(connectedUsers, u, client.id, u);
        connectedUsers := SetSlot(connectedUsers, u, client.id);
        events := events + [Emit(Everyone, "user-status", None, StatusBody(u, Online))];
      }
    }

    /** `handleDisconnect`: the user whose stored socket is the closing one
        loses its slot and is announced offline; if none, nothing happens. */
    method HandleDisconnect(client: Client)
      requires Valid()
      modifies this
      ensures Valid()
      ensures var owner := SocketOwner(old(connectedUsers), client.id);
        if owner.Some? && owner.value != "" then
          && connectedUsers == DeleteSlot(old(connectedUsers), owner.value)
          && events == old(events) + [Emit(Everyone, "user-status", None, StatusBody(owner.value, Offline))]
        else
          connectedUsers == old(connectedUsers) && events == old(events)
    {
      var owner := SocketOwner(connectedUsers, client.id);
      if owner.Some? && owner.value != "" {
        LookupAfterDelete(connectedUsers, owner.value, owner.value);
        connectedUsers := DeleteSlot(connectedUsers, owner.value);
        events := events + [Emit(Everyone, "user-status", None, StatusBody(owner.value, Offline))];
      }
    }

    /** `new-message`: relayed to everyone but the sender. */
    method HandleNewMessage(client: Client, conversationId: ConversationId, message: string)
      modifies this`events
      ensures events == old(events) + [Emit(AllExcept(client.id), "message-received", Some(conversationId),
                                            RelayedBody(message))]
    {
      events := events + [Emit(AllExcept(client.id), "message-received", Some(conversationId), RelayedBody(message))];
    }

    /** `typing`: relayed to everyone but the sender, with the user's name. */
    method HandleTyping(client: Client, conversationId: ConversationId, userId: UserId, userName: Option<string>)
      modifies this`events
      ensures events == old(events) + [Emit(AllExcept(client.id), "user-typing", Some(conversationId),
                                            TypingBody(userId, userName))]
    {
      events := events + [Emit(AllExcept(client.id), "user-typing", Some(conversationId), TypingBody(userId, userName))];
    }

    /** `stop-typing`: relayed to everyone but the sender, without a name. */
    method HandleStopTyping(client: Client, conversationId: ConversationId, userId: UserId)
      modifies this`events
      ensures events == old(events) + [Emit(AllExcept(client.id), "user-stop-typing", Some(conversationId),
                                            UserBody(userId))]
    {
      events := events + [Emit(AllExcept(client.id), "user-stop-typing", Some(conversationId), UserBody(userId))];
    }

    /** `emitToConversation`: one broadcast to everyone of `data` plus the
        conversation id. */
    method EmitToConversation(conversationId: ConversationId, event: string, data: Body)
      modifies this`events
      ensures events == old(events) + [Emit(Everyone, event, Some(conversationId), data)]
    {
      events := events + [Emit(Everyone, event, Some(conversationId), data)];
    }

    /** `emitToUser`: sent to the user's socket when it has a (truthy) one. */
    method EmitToUser(userId: UserId, event: string, data: Body)
      modifies this`events
      ensures var sid := Lookup(connectedUsers, userId);
        events == if Truthy(sid) then old(events) + [Emit(ToSocket(sid.value), event, None, data)] else old(events)
    {
      var sid := Lookup(connectedUsers, userId);
      if Truthy(sid) {
        events := events + [Emit(ToSocket(sid.value), event, None, data)];
      }
    }
  }
}
