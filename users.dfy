/** The user listing: every stored user, except one when an id to exclude
    is given, projected to the public fields. */
module Users {
  import opened Common
  import opened Tables

  /** An entry of `getAvailableUsers`: `{ id, name, avatar, status }`, read
      from the `avatar` column (not `avatarUrl`). */
  datatype UserSummary = UserSummary(id: UserId, name: string, avatar: Option<string>, status: Option<string>)

  function Summary(u: User): UserSummary {
    UserSummary(u.id, u.name, u.avatar, u.status)
  }

  function NotId(id: UserId): User -> bool {
    (u: User) => u.id != id
  }

  /** `where: excludeId ? { id: { not: excludeId } } : undefined`. */
  function Listed(us: seq<User>, excludeId: Option<string>): seq<User> {
    if Truthy(excludeId) then Filter(us, NotId(excludeId.value)) else us
  }

  /** `getAvailableUsers(excludeId)`. */
  function AvailableUsers(us: seq<User>, excludeId: Option<string>): (r: seq<UserSummary>)
    ensures |r| == |Listed(us, excludeId)|
    ensures forall i :: 0 <= i < |r| ==> r[i] == Summary(Listed(us, excludeId)[i])
  {
    var listed := Listed(us, excludeId);
    seq(|listed|, i requires 0 <= i < |listed| => Summary(listed[i]))
  }

  /** With a truthy `excludeId`, exactly the users of another id are listed;
      without one, or with an empty one, every user is listed, in store order. */
  lemma AvailableUsersCorrect(us: seq<User>, excludeId: Option<string>)
    ensures Truthy(excludeId) ==>
      forall s :: s in AvailableUsers(us, excludeId) <==>
        exists u :: u in us && u.id != excludeId.value && s == Summary(u)
    ensures !Truthy(excludeId) ==>
      |AvailableUsers(us, excludeId)| == |us|
      && forall i :: 0 <= i < |us| ==> AvailableUsers(us, excludeId)[i] == Summary(us[i])
  {
    var r := AvailableUsers(us, excludeId);
    var listed := Listed(us, excludeId);
    if Truthy(excludeId) {
      forall s | s in r ensures exists u :: u in us && u.id != excludeId.value && s == Summary(u) {
        var i :| 0 <= i < |r| && r[i] == s;
        assert listed[i] in listed;
      }
      forall s | exists u :: u in us && u.id != excludeId.value && s == Summary(u) ensures s in r {
        var u :| u in us && u.id != excludeId.value && s == Summary(u);
        var i :| 0 <= i < |listed| && listed[i] == u;
        assert r[i] == s;
      }
    }
  }

  /** The excluded id never appears, and nobody is listed twice over. */
  lemma AvailableUsersExclude(us: seq<User>, excludeId: Option<string>)
    requires Truthy(excludeId)
    ensures forall s :: s in AvailableUsers(us, excludeId) ==> s.id != excludeId.value
    ensures |AvailableUsers(us, excludeId)| <= |us|
  {
    var r := AvailableUsers(us, excludeId);
    var listed := Listed(us, excludeId);
    forall s | s in r ensures s.id != excludeId.value {
      var i :| 0 <= i < |r| && r[i] == s;
      assert listed[i] in listed;
    }
  }

  /** The listing reads `avatar`, not `avatarUrl`: over users whose `avatar`
      column is empty (every user `create` writes) each entry has no avatar,
      whatever avatar URL is stored. */
  lemma AvailableUsersAvatar(us: seq<User>, excludeId: Option<string>)
    requires forall x :: x in us ==> x.avatar.None?
    ensures forall s :: s in AvailableUsers(us, excludeId) ==> s.avatar.None?
  {
    var r := AvailableUsers(us, excludeId);
    var listed := Listed(us, excludeId);
    forall s | s in r ensures s.avatar.None? {
      var i :| 0 <= i < |r| && r[i] == s;
      assert listed[i] in listed;
    }
  }

  class UsersService {
    const prisma: Store

    constructor (prisma: Store)
      ensures this.prisma == prisma
    {
      this.prisma := prisma;
    }

    /** Reads the users table and changes nothing. */
    method GetAvailableUsers(excludeId: Option<string>) returns (r: seq<UserSummary>)
      ensures r == AvailableUsers(prisma.users, excludeId)
    {
      r := AvailableUsers(prisma.users, excludeId);
    }
  }
}
