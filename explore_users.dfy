/** The user search page: the search effect that fills `results`, and each result's card,
    whose follow flag changes only after a guarded write that the store accepted. */
module ExploreUsers {
  import opened Wrappers
  import opened Text
  import opened Follows

  /** A `profiles` row as selected by the search: id, username, avatar path. */
  datatype UserRow = UserRow(id: Id, username: string, avatarUrl: Option<string>)

  /** Replaces each stored avatar path by its signed URL; `sign` stands for the storage
      call and answers null when signing fails, and an empty URL also becomes null. */
  function SignAvatars(users: seq<UserRow>, sign: string -> Option<string>): (r: seq<UserRow>)
  {
    seq(|users|, i requires 0 <= i < |users| =>
      if Truthy(users[i].avatarUrl) then
        var s := sign(users[i].avatarUrl.value);
        users[i].(avatarUrl := if Truthy(s) then s else None)
      else users[i])
  }

  /** Signing keeps the results' length, order, ids and usernames, and leaves users
      without an avatar as they were. */
  lemma SignKeepsUsers(users: seq<UserRow>, sign: string -> Option<string>)
    ensures var r := SignAvatars(users, sign);
      && |r| == |users|
      && (forall i :: 0 <= i < |users| ==> r[i].id == users[i].id && r[i].username == users[i].username)
      && (forall i :: 0 <= i < |users| && !Truthy(users[i].avatarUrl) ==> r[i] == users[i])
  {
  }

  /** The results after the search effect and whether it queried the store: a search that is
      blank after trimming clears the results without a query; otherwise a failed query
      (null data) clears them and an answer is shown with signed avatars. */
  function AfterSearch(search: string, reply: Option<seq<UserRow>>, sign: string -> Option<string>)
    : (r: (seq<UserRow>, bool))
    ensures r.1 <==> Trim(search) != ""
    ensures !r.1 || reply.None? ==> r.0 == []
    ensures r.1 && reply.Some? ==> |r.0| == |reply.value|
  {
    if Trim(search) == "" then ([], false)
    else if reply.None? then ([], true)
    else (SignAvatars(reply.value, sign), true)
  }

  /** A search of only white space never reaches the store and shows nothing. */
  lemma BlankSearchIssuesNoQuery(search: string, reply: Option<seq<UserRow>>, sign: string -> Option<string>)
    requires forall i :: 0 <= i < |search| ==> IsSpace(search[i])
    ensures AfterSearch(search, reply, sign) == ([], false)
  {
    TrimEmptyIff(search);
  }

  /** A search with any visible character queries the store and shows one card per answered row. */
  lemma VisibleSearchQueries(search: string, rows: seq<UserRow>, sign: string -> Option<string>, k: nat)
    requires k < |search| && !IsSpace(search[k])
    ensures AfterSearch(search, Some(rows), sign).1
    ensures |AfterSearch(search, Some(rows), sign).0| == |rows|
  {
    TrimEmptyIff(search);
    SignKeepsUsers(rows, sign);
  }

  // ---------------------------------------------------------------------------------------
  // UserCard

  /** A card's follow flag and the `follows` rows. */
  datatype CardView = CardView(isFollowing: bool, rows: set<Follow>)

  /** `check`: without a signed-in id nothing is read; otherwise the flag is whether the
      (current user, card user) row exists (a failed read gives null, so false). */
  function AfterCheck(v: CardView, currentUserId: Id, userId: Id, ok: bool): CardView
  {
    if currentUserId == "" then v
    else v.(isFollowing := ok && Follow(currentUserId, userId) in v.rows)
  }

  /** `follow`: refused for one's own card; otherwise the pair is inserted and the flag is
      set only if the store accepted the insert. */
  function AfterCardFollow(v: CardView, currentUserId: Id, userId: Id, ok: bool): CardView
  {
    if userId == currentUserId || !ok then v
    else CardView(true, v.rows + {Follow(currentUserId, userId)})
  }

  /** `unfollow`: the pair is deleted and the flag cleared only if the store accepted it. */
  function AfterCardUnfollow(v: CardView, currentUserId: Id, userId: Id, ok: bool): CardView
  {
    if !ok then v
    else CardView(false, v.rows - {Follow(currentUserId, userId)})
  }

  /** The follow button is rendered only on another user's card. */
  predicate ShowsFollowButton(currentUserId: Id, userId: Id)
  {
    userId != currentUserId
  }

  /** The card's flag agrees with the rows. */
  ghost predicate Agrees(v: CardView, currentUserId: Id, userId: Id)
  {
    v.isFollowing <==> Follow(currentUserId, userId) in v.rows
  }

  /** A successful check makes the card agree with the rows. */
  lemma CheckAgrees(v: CardView, currentUserId: Id, userId: Id)
    requires currentUserId != ""
    ensures Agrees(AfterCheck(v, currentUserId, userId, true), currentUserId, userId)
  {
  }

  /** Following one's own card changes nothing, whatever the store would answer. */
  lemma SelfFollowIsNoOp(v: CardView, currentUserId: Id, ok: bool)
    ensures AfterCardFollow(v, currentUserId, currentUserId, ok) == v
  {
  }

  /** The button is hidden exactly where the follow handler's guard would make a click do
      nothing: on one's own card no answer of the store changes anything, and on any other
      card an accepted follow stores the pair and sets the flag. */
  lemma FollowButtonMatchesGuard(v: CardView, currentUserId: Id, userId: Id)
    ensures !ShowsFollowButton(currentUserId, userId) ==>
      forall ok :: AfterCardFollow(v, currentUserId, userId, ok) == v
    ensures ShowsFollowButton(currentUserId, userId) ==>
      AfterCardFollow(v, currentUserId, userId, true) == CardView(true, v.rows + {Follow(currentUserId, userId)})
  {
  }

  /** A refused write changes neither the flag nor the rows. */
  lemma RefusedWritesChangeNothing(v: CardView, currentUserId: Id, userId: Id)
    ensures AfterCardFollow(v, currentUserId, userId, false) == v
    ensures AfterCardUnfollow(v, currentUserId, userId, false) == v
  {
  }

  /** Whatever the store answers, follow and unfollow keep an agreeing card agreeing on
      another user's card, and follow keeps it on one's own card too. */
  lemma CardWritesKeepAgreement(v: CardView, currentUserId: Id, userId: Id, ok: bool)
    requires Agrees(v, currentUserId, userId)
    ensures Agrees(AfterCardFollow(v, currentUserId, userId, ok), currentUserId, userId)
    ensures Agrees(AfterCardUnfollow(v, currentUserId, userId, ok), currentUserId, userId)
  {
  }

  /** An accepted follow followed by an accepted unfollow restores the rows of a user who
      was not followed, and the flag. */
  lemma CardFollowUnfollowRoundTrip(v: CardView, currentUserId: Id, userId: Id)
    requires ShowsFollowButton(currentUserId, userId) && Agrees(v, currentUserId, userId) && !v.isFollowing
    ensures AfterCardUnfollow(AfterCardFollow(v, currentUserId, userId, true), currentUserId, userId, true) == v
  {
  }

  /** The search page's `results`, and how many profile queries it has sent. */
  class ExploreUsersPage {
    var results: seq<UserRow>
    var queriesSent: nat

    constructor ()
      ensures results == [] && queriesSent == 0
    {
      results, queriesSent := [], 0;
    }

    method OnSearch(search: string, reply: Option<seq<UserRow>>, sign: string -> Option<string>)
      modifies this
      ensures results == AfterSearch(search, reply, sign).0
      ensures queriesSent == old(queriesSent) + (if AfterSearch(search, reply, sign).1 then 1 else 0)
    {
      if Trim(search) == "" {
        results := [];
        return;
      }
      queriesSent := queriesSent + 1;
      if reply.None? {
        results := [];
        return;
      }
      results := SignAvatars(reply.value, sign);
    }
  }

  /** One result card over the shared `follows` table. */
  class UserCard {
    const user: UserRow
    const currentUserId: Id
    const table: FollowTable
    var isFollowing: bool

    function Snapshot(): CardView
      reads this, table
    {
      CardView(isFollowing, table.rows)
    }

    constructor (user: UserRow, currentUserId: Id, table: FollowTable)
      ensures this.user == user && this.currentUserId == currentUserId && this.table == table
      ensures !isFollowing
    {
      this.user, this.currentUserId, this.table := user, currentUserId, table;
      isFollowing := false;
    }

    method Check(ok: bool)
      modifies this
      ensures Snapshot() == AfterCheck(old(Snapshot()), currentUserId, user.id, ok)
    {
      if currentUserId == "" {
        return;
      }
      isFollowing := ok && Follow(currentUserId, user.id) in table.rows;
    }

    method FollowUser(ok: bool)
      modifies this, table
      ensures Snapshot() == AfterCardFollow(old(Snapshot()), currentUserId, user.id, ok)
    {
      if user.id == currentUserId {
        return;
      }
      table.Insert(Follow(currentUserId, user.id), ok);
      if !ok {
        return;
      }
      isFollowing := true;
    }

    method UnfollowUser(ok: bool)
      modifies this, table
      ensures Snapshot() == AfterCardUnfollow(old(Snapshot()), currentUserId, user.id, ok)
    {
      table.Delete(currentUserId, user.id, ok);
      if !ok {
        return;
      }
      isFollowing := false;
    }
  }
}
