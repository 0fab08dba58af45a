/** The grouping of a message's reaction rows by emoji, as the services reduce
    them into `{ emoji, users }` entries, and its characterisation. */
module Reactions {
  import opened Common
  import opened Tables

  datatype ReactionGroup = ReactionGroup(emoji: string, users: seq<UserId>)

  /** The accumulator's `find`: the first group carrying `emoji`. */
  function FindGroup(gs: seq<ReactionGroup>, emoji: string): (r: Option<nat>)
    ensures r.Some? ==> r.value < |gs| && gs[r.value].emoji == emoji
    ensures r.None? ==> forall i :: 0 <= i < |gs| ==> gs[i].emoji != emoji
  {
    if gs == [] then None
    else if gs[0].emoji == emoji then Some(0)
    else match FindGroup(gs[1..], emoji)
      case None => None
      case Some(k) => Some(k + 1)
  }

  /** One step of the reduce: push the user onto the emoji's group, or open a
      new group at the end. */
  function AddToGroups(gs: seq<ReactionGroup>, r: Reaction): seq<ReactionGroup> {
    match FindGroup(gs, r.emoji)
    case Some(k) => gs[k := gs[k].(users := gs[k].users + [r.userId])]
    case None => gs + [ReactionGroup(r.emoji, [r.userId])]
  }

  /** `reactions.reduce(step, [])`. */
  function GroupReactions(rs: seq<Reaction>): seq<ReactionGroup> {
    if rs == [] then [] else AddToGroups(GroupReactions(rs[..|rs| - 1]), rs[|rs| - 1])
  }

  // ---------------------------------------------------------------------
  // Reference definitions, independent of the accumulator

  /** The userIds of the rows carrying `emoji`, in row order. */
  function UsersWith(rs: seq<Reaction>, emoji: string): seq<UserId> {
    if rs == [] then []
    else UsersWith(rs[..|rs| - 1], emoji)
         + (if rs[|rs| - 1].emoji == emoji then [rs[|rs| - 1].userId] else [])
  }

  /** The position of the first row carrying `emoji`; `|rs|` when there is none. */
  function FirstIndex(rs: seq<Reaction>, emoji: string): (r: nat)
    ensures r <= |rs|
    ensures r < |rs| ==> rs[r].emoji == emoji
    ensures forall k :: 0 <= k < r ==> rs[k].emoji != emoji
  {
    if rs == [] then 0
    else if FirstIndex(rs[..|rs| - 1], emoji) < |rs| - 1 then FirstIndex(rs[..|rs| - 1], emoji)
    else if rs[|rs| - 1].emoji == emoji then |rs| - 1
    else |rs|
  }

  function TotalUsers(gs: seq<ReactionGroup>): nat {
    if gs == [] then 0 else TotalUsers(gs[..|gs| - 1]) + |gs[|gs| - 1].users|
  }

  /** The positions at which each group's emoji first occurs. */
  function FirstIndices(rs: seq<Reaction>, gs: seq<ReactionGroup>): (r: seq<nat>)
    ensures |r| == |gs|
    ensures forall i :: 0 <= i < |gs| ==> r[i] == FirstIndex(rs, gs[i].emoji)
  {
    seq(|gs|, i requires 0 <= i < |gs| => FirstIndex(rs, gs[i].emoji))
  }

  /** One group per distinct emoji. */
  ghost predicate DistinctEmojis(gs: seq<ReactionGroup>) {
    forall i, j :: 0 <= i < j < |gs| ==> gs[i].emoji != gs[j].emoji
  }

  /** Every row's emoji has a group. */
  ghost predicate CoversRows(rs: seq<Reaction>, gs: seq<ReactionGroup>) {
    forall r :: r in rs ==> exists i :: 0 <= i < |gs| && gs[i].emoji == r.emoji
  }

  /** Every group's emoji occurs in the rows, and the groups stand in order of
      first appearance. */
  ghost predicate FirstSeenOrder(rs: seq<Reaction>, gs: seq<ReactionGroup>) {
    var first := FirstIndices(rs, gs);
    && (forall i :: 0 <= i < |first| ==> first[i] < |rs|)
    && (forall i, j :: 0 <= i < j < |first| ==> first[i] < first[j])
  }

  /** A group's users are exactly its emoji's rows, in row order, and never none. */
  ghost predicate ExactUsers(rs: seq<Reaction>, gs: seq<ReactionGroup>) {
    && (forall i :: 0 <= i < |gs| ==> gs[i].users == UsersWith(rs, gs[i].emoji))
    && (forall i :: 0 <= i < |gs| ==> gs[i].users != [])
  }

  /** What the grouping promises of `gs` for the rows `rs`; with the total,
      every row lands in exactly one group. */
  ghost predicate GroupsOf(rs: seq<Reaction>, gs: seq<ReactionGroup>) {
    && DistinctEmojis(gs)
    && CoversRows(rs, gs)
    && FirstSeenOrder(rs, gs)
    && ExactUsers(rs, gs)
    && TotalUsers(gs) == |rs|
  }

  // ---------------------------------------------------------------------
  // Lemmas

  lemma {:induction false} UsersWithSnoc(rs: seq<Reaction>, r: Reaction, emoji: string)
    ensures UsersWith(rs + [r], emoji) == UsersWith(rs, emoji) + (if r.emoji == emoji then [r.userId] else [])
  {
    assert (rs + [r])[..|rs|] == rs;
  }

  lemma {:induction false} UsersWithAbsent(rs: seq<Reaction>, emoji: string)
    requires forall r :: r in rs ==> r.emoji != emoji
    ensures UsersWith(rs, emoji) == []
  {
    if rs != [] {
      assert forall r :: r in rs[..|rs| - 1] ==> r in rs;
      UsersWithAbsent(rs[..|rs| - 1], emoji);
    }
  }

  lemma {:induction false} UsersWithMembers(rs: seq<Reaction>, emoji: string, u: UserId)
    requires u in UsersWith(rs, emoji)
    ensures exists r :: r in rs && r.emoji == emoji && r.userId == u
  {
    if rs != [] {
      var p := rs[..|rs| - 1];
      if u in UsersWith(p, emoji) {
        UsersWithMembers(p, emoji, u);
        var r :| r in p && r.emoji == emoji && r.userId == u;
        assert r in rs;
      } else {
        assert rs[|rs| - 1] in rs;
      }
    }
  }

  lemma {:induction false} FirstIndexSnoc(rs: seq<Reaction>, r: Reaction, emoji: string)
    ensures FirstIndex(rs, emoji) < |rs| ==> FirstIndex(rs + [r], emoji) == FirstIndex(rs, emoji)
    ensures FirstIndex(rs, emoji) == |rs| && r.emoji == emoji ==> FirstIndex(rs + [r], emoji) == |rs|
  {
    assert (rs + [r])[..|rs|] == rs;
  }

  lemma {:induction false} TotalUsersSnoc(gs: seq<ReactionGroup>, g: ReactionGroup)
    ensures TotalUsers(gs + [g]) == TotalUsers(gs) + |g.users|
  {
    assert (gs + [g])[..|gs|] == gs;
  }

  lemma {:induction false} TotalUsersUpdate(gs: seq<ReactionGroup>, k: nat, g: ReactionGroup)
    requires k < |gs|
    ensures TotalUsers(gs[k := g]) == TotalUsers(gs) - |gs[k].users| + |g.users|
  {
    var n := |gs| - 1;
    assert gs[k := g][..n] == if k == n then gs[..n] else gs[..n][k := g];
    if k < n {
      TotalUsersUpdate(gs[..n], k, g);
    }
  }

  // One step of the reduce keeps each part of the characterisation.

  lemma {:induction false} StepKeepsDistinct(gs: seq<ReactionGroup>, r: Reaction)
    requires DistinctEmojis(gs)
    ensures DistinctEmojis(AddToGroups(gs, r))
  {
    var gs' := AddToGroups(gs, r);
    forall i, j | 0 <= i < j < |gs'| ensures gs'[i].emoji != gs'[j].emoji {
      if j < |gs| {
        assert gs'[i].emoji == gs[i].emoji && gs'[j].emoji == gs[j].emoji;
      }
    }
  }

  lemma {:induction false} StepKeepsCovers(rs: seq<Reaction>, gs: seq<ReactionGroup>, r: Reaction)
    requires CoversRows(rs, gs)
    ensures CoversRows(rs + [r], AddToGroups(gs, r))
  {
    var gs' := AddToGroups(gs, r);
    assert forall i :: 0 <= i < |gs| ==> gs'[i].emoji == gs[i].emoji;
    forall x | x in rs + [r] ensures exists i :: 0 <= i < |gs'| && gs'[i].emoji == x.emoji {
      if x == r {
        match FindGroup(gs, r.emoji)
        case Some(k) => assert gs'[k].emoji == x.emoji;
        case None => assert gs'[|gs|].emoji == x.emoji;
      } else {
        assert x in rs;
        var i :| 0 <= i < |gs| && gs[i].emoji == x.emoji;
        assert gs'[i].emoji == x.emoji;
      }
    }
  }

  lemma {:induction false} FirstIndexKept(rs: seq<Reaction>, gs: seq<ReactionGroup>, r: Reaction)
    requires FirstSeenOrder(rs, gs)
    ensures forall i :: 0 <= i < |gs| ==> FirstIndex(rs + [r], gs[i].emoji) == FirstIndex(rs, gs[i].emoji)
  {
    forall i | 0 <= i < |gs| ensures FirstIndex(rs + [r], gs[i].emoji) == FirstIndex(rs, gs[i].emoji) {
      assert FirstIndices(rs, gs)[i] < |rs|;
      FirstIndexSnoc(rs, r, gs[i].emoji);
    }
  }

  lemma FirstIndexAbsent(rs: seq<Reaction>, emoji: string)
    requires forall k :: 0 <= k < |rs| ==> rs[k].emoji != emoji
    ensures FirstIndex(rs, emoji) == |rs|
  {
  }

  /** A row whose emoji has no group yet is that emoji's first row. */
  lemma {:induction false} NewEmojiFirstSeen(rs: seq<Reaction>, gs: seq<ReactionGroup>, r: Reaction)
    requires CoversRows(rs, gs) && FindGroup(gs, r.emoji).None?
    ensures FirstIndex(rs + [r], r.emoji) == |rs|
  {
    forall k | 0 <= k < |rs| ensures rs[k].emoji != r.emoji {
      assert rs[k] in rs;
      var i :| 0 <= i < |gs| && gs[i].emoji == rs[k].emoji;
    }
    FirstIndexAbsent(rs, r.emoji);
    FirstIndexSnoc(rs, r, r.emoji);
  }

  lemma {:induction false} StepKeepsOrderFound(rs: seq<Reaction>, gs: seq<ReactionGroup>, r: Reaction, k: nat)
    requires FirstSeenOrder(rs, gs) && k < |gs| && gs[k].emoji == r.emoji
    ensures FirstSeenOrder(rs + [r], gs[k := gs[k].(users := gs[k].users + [r.userId])])
  {
    FirstIndexKept(rs, gs, r);
    var gs' := gs[k := gs[k].(users := gs[k].users + [r.userId])];
    assert FirstIndices(rs + [r], gs') == FirstIndices(rs, gs);
  }

  /** Appending a position beyond all others keeps positions increasing. */
  lemma AppendBeyond(a: seq<nat>, x: nat)
    requires forall i :: 0 <= i < |a| ==> a[i] < x
    requires forall i, j :: 0 <= i < j < |a| ==> a[i] < a[j]
    ensures forall i, j :: 0 <= i < j < |a + [x]| ==> (a + [x])[i] < (a + [x])[j]
  {
    forall i, j | 0 <= i < j < |a + [x]| ensures (a + [x])[i] < (a + [x])[j] {
      if j < |a| {
        assert (a + [x])[i] == a[i] && (a + [x])[j] == a[j];
      }
    }
  }

  lemma {:induction false} StepKeepsOrderNew(rs: seq<Reaction>, gs: seq<ReactionGroup>, r: Reaction)
    requires FirstSeenOrder(rs, gs) && FirstIndex(rs + [r], r.emoji) == |rs|
    ensures FirstSeenOrder(rs + [r], gs + [ReactionGroup(r.emoji, [r.userId])])
  {
    FirstIndexKept(rs, gs, r);
    var gs' := gs + [ReactionGroup(r.emoji, [r.userId])];
    var a := FirstIndices(rs, gs);
    assert FirstIndices(rs + [r], gs') == a + [|rs|] by {
      forall i | 0 <= i < |gs'| ensures FirstIndices(rs + [r], gs')[i] == (a + [|rs|])[i] {
        if i < |gs| {
          assert gs'[i] == gs[i];
        }
      }
    }
    AppendBeyond(a, |rs|);
  }

  lemma {:induction false} StepKeepsOrder(rs: seq<Reaction>, gs: seq<ReactionGroup>, r: Reaction)
    requires CoversRows(rs, gs) && FirstSeenOrder(rs, gs)
    ensures FirstSeenOrder(rs + [r], AddToGroups(gs, r))
  {
    match FindGroup(gs, r.emoji)
    case Some(k) => StepKeepsOrderFound(rs, gs, r, k);
    case None =>
      NewEmojiFirstSeen(rs, gs, r);
      StepKeepsOrderNew(rs, gs, r);
  }

  lemma {:induction false} StepKeepsUsersFound(rs: seq<Reaction>, gs: seq<ReactionGroup>, r: Reaction, k: nat)
    requires DistinctEmojis(gs) && ExactUsers(rs, gs) && k < |gs| && gs[k].emoji == r.emoji
    ensures ExactUsers(rs + [r], gs[k := gs[k].(users := gs[k].users + [r.userId])])
  {
    var gs' := gs[k := gs[k].(users := gs[k].users + [r.userId])];
    forall i | 0 <= i < |gs'| ensures gs'[i].users == UsersWith(rs + [r], gs'[i].emoji) {
      UsersWithSnoc(rs, r, gs[i].emoji);
      if i != k {
        assert gs[i].emoji != r.emoji;
      }
    }
  }

  /** An emoji no group carries has no rows. */
  lemma NoGroupNoUsers(rs: seq<Reaction>, gs: seq<ReactionGroup>, emoji: string)
    requires CoversRows(rs, gs)
    requires forall i :: 0 <= i < |gs| ==> gs[i].emoji != emoji
    ensures UsersWith(rs, emoji) == []
  {
    forall x | x in rs ensures x.emoji != emoji {
      var i :| 0 <= i < |gs| && gs[i].emoji == x.emoji;
    }
    UsersWithAbsent(rs, emoji);
  }

  lemma {:induction false} StepKeepsUsersNew(rs: seq<Reaction>, gs: seq<ReactionGroup>, r: Reaction)
    requires ExactUsers(rs, gs) && UsersWith(rs, r.emoji) == []
    requires forall i :: 0 <= i < |gs| ==> gs[i].emoji != r.emoji
    ensures ExactUsers(rs + [r], gs + [ReactionGroup(r.emoji, [r.userId])])
  {
    var gs' := gs + [ReactionGroup(r.emoji, [r.userId])];
    UsersWithSnoc(rs, r, r.emoji);
    forall i | 0 <= i < |gs'| ensures gs'[i].users == UsersWith(rs + [r], gs'[i].emoji) {
      if i < |gs| {
        UsersWithSnoc(rs, r, gs[i].emoji);
        assert gs'[i] == gs[i];
      }
    }
  }

  lemma {:induction false} StepKeepsUsers(rs: seq<Reaction>, gs: seq<ReactionGroup>, r: Reaction)
    requires DistinctEmojis(gs) && CoversRows(rs, gs) && ExactUsers(rs, gs)
    ensures ExactUsers(rs + [r], AddToGroups(gs, r))
  {
    match FindGroup(gs, r.emoji)
    case Some(k) => StepKeepsUsersFound(rs, gs, r, k);
    case None =>
      NoGroupNoUsers(rs, gs, r.emoji);
      StepKeepsUsersNew(rs, gs, r);
  }

  lemma {:induction false} StepKeepsTotal(gs: seq<ReactionGroup>, r: Reaction)
    ensures TotalUsers(AddToGroups(gs, r)) == TotalUsers(gs) + 1
  {
    match FindGroup(gs, r.emoji)
    case Some(k) => TotalUsersUpdate(gs, k, gs[k].(users := gs[k].users + [r.userId]));
    case None => TotalUsersSnoc(gs, ReactionGroup(r.emoji, [r.userId]));
  }

  lemma {:induction false} AddToGroupsKeepsGroupsOf(rs: seq<Reaction>, gs: seq<ReactionGroup>)
    requires rs != [] && GroupsOf(rs[..|rs| - 1], gs)
    ensures GroupsOf(rs, AddToGroups(gs, rs[|rs| - 1]))
  {
    var p, r := rs[..|rs| - 1], rs[|rs| - 1];
    assert rs == p + [r];
    StepKeepsDistinct(gs, r);
    StepKeepsCovers(p, gs, r);
    StepKeepsOrder(p, gs, r);
    StepKeepsUsers(p, gs, r);
    StepKeepsTotal(gs, r);
  }

  /** The groups `groupReactions` builds: one per distinct emoji, in order of
      first appearance, each holding exactly its rows' userIds in row order,
      none empty, and every row in exactly one group. */
  lemma {:induction false} GroupReactionsCorrect(rs: seq<Reaction>)
    ensures GroupsOf(rs, GroupReactions(rs))
  {
    if rs != [] {
      GroupReactionsCorrect(rs[..|rs| - 1]);
      AddToGroupsKeepsGroupsOf(rs, GroupReactions(rs[..|rs| - 1]));
    }
  }

  /** Every group's emoji is carried by a row: its first one. */
  lemma {:induction false} GroupHasRow(rs: seq<Reaction>, i: nat)
    requires i < |GroupReactions(rs)|
    ensures FirstIndex(rs, GroupReactions(rs)[i].emoji) < |rs|
  {
    GroupReactionsCorrect(rs);
    assert FirstIndices(rs, GroupReactions(rs))[i] < |rs|;
  }

  /** Every row's emoji has a group. */
  lemma {:induction false} RowHasGroup(rs: seq<Reaction>, x: Reaction)
    requires x in rs
    ensures exists i :: 0 <= i < |GroupReactions(rs)| && GroupReactions(rs)[i].emoji == x.emoji
  {
    GroupReactionsCorrect(rs);
    assert CoversRows(rs, GroupReactions(rs));
  }

  /** The emojis of the groups are exactly the emojis of the rows. */
  lemma {:induction false} GroupReactionsEmojis(rs: seq<Reaction>, emoji: string)
    ensures (exists i :: 0 <= i < |GroupReactions(rs)| && GroupReactions(rs)[i].emoji == emoji)
            <==> (exists r :: r in rs && r.emoji == emoji)
  {
    var gs := GroupReactions(rs);
    if i :| 0 <= i < |gs| && gs[i].emoji == emoji {
      GroupHasRow(rs, i);
      var k := FirstIndex(rs, emoji);
      assert rs[k] in rs;
    }
    if r :| r in rs && r.emoji == emoji {
      RowHasGroup(rs, r);
    }
  }

  /** A user with at most one row appears in at most one group, once. */
  ghost predicate OneRowPerUser(rs: seq<Reaction>) {
    forall i, j :: 0 <= i < j < |rs| ==> rs[i].userId != rs[j].userId
  }

  lemma {:induction false} GroupedUsersUnique(rs: seq<Reaction>, i: nat, j: nat, u: UserId)
    requires OneRowPerUser(rs)
    requires i < |GroupReactions(rs)| && j < |GroupReactions(rs)|
    requires u in GroupReactions(rs)[i].users && u in GroupReactions(rs)[j].users
    ensures i == j
  {
    GroupReactionsCorrect(rs);
    var gs := GroupReactions(rs);
    UsersWithMembers(rs, gs[i].emoji, u);
    UsersWithMembers(rs, gs[j].emoji, u);
    var a :| a in rs && a.emoji == gs[i].emoji && a.userId == u;
    var b :| b in rs && b.emoji == gs[j].emoji && b.userId == u;
    var ia :| 0 <= ia < |rs| && rs[ia] == a;
    var ib :| 0 <= ib < |rs| && rs[ib] == b;
    assert ia == ib;
  }
}
