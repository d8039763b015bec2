/** A user's public profile page: which profile the route names, whether the signed-in user
    follows it, its follower and following counters, and the follow/unfollow buttons, which
    update the counters optimistically by one. */
module PublicProfile {
  import opened Wrappers
  import opened Follows

  /** The view state of the page and the `follows` rows. */
  datatype ProfileView = ProfileView(
    currentUserId: Id,
    profileId: Option<Id>,
    isFollowing: bool,
    followersCount: int,
    followingCount: int,
    rows: set<Follow>)

  /** Which of the three `follows` reads of the profile effect returned data. */
  datatype CountReplies = CountReplies(followOk: bool, followersOk: bool, followingOk: bool)

  /** `profileId` from the route: `"me"` stands for the signed-in user, any other non-empty
      id is taken as is, and a missing or empty one gives null. */
  function ResolveProfileId(routeId: Option<Id>, uid: Id): (pid: Option<Id>)
    ensures routeId == Some("me") ==> pid == Some(uid)
    ensures routeId != Some("me") && Truthy(routeId) ==> pid == routeId
    ensures !Truthy(routeId) ==> pid == None
  {
    if routeId == Some("me") then Some(uid)
    else if Truthy(routeId) then routeId
    else None
  }

  /** `loadUser`: the signed-in id (or "" without one) and the resolved profile id. */
  function AfterLoadUser(v: ProfileView, routeId: Option<Id>, authUser: Option<Id>): ProfileView
  {
    var uid := if Truthy(authUser) then authUser.value else "";
    v.(currentUserId := uid, profileId := ResolveProfileId(routeId, uid))
  }

  /** The profile effect: `checkFollowing` (skipped without both ids) and `loadCounts`
      (a failed count reads as 0). Nothing runs without a profile id. */
  function AfterLoadProfile(v: ProfileView, r: CountReplies): ProfileView
  {
    if !Truthy(v.profileId) then v
    else
      var pid := v.profileId.value;
      var following := if v.currentUserId == "" then v.isFollowing
                       else r.followOk && Follow(v.currentUserId, pid) in v.rows;
      v.(isFollowing := following,
         followersCount := if r.followersOk then FollowersOf(v.rows, pid) else 0,
         followingCount := if r.followingOk then FollowingOf(v.rows, pid) else 0)
  }

  /** `isMyProfile`: the signed-in user is looking at their own profile. */
  predicate IsMyProfile(v: ProfileView)
  {
    v.profileId == Some(v.currentUserId)
  }

  /** The follow control is hidden on `/user/me` and shown on any other user's non-empty id. */
  lemma ControlShownOnlyForOthers(v: ProfileView, routeId: Option<Id>, authUser: Option<Id>)
    ensures routeId == Some("me") ==> IsMyProfile(AfterLoadUser(v, routeId, authUser))
    ensures var w := AfterLoadUser(v, routeId, authUser);
      routeId != Some("me") && Truthy(routeId) ==> (IsMyProfile(w) <==> routeId.value == w.currentUserId)
    ensures !Truthy(routeId) ==> !IsMyProfile(AfterLoadUser(v, routeId, authUser))
  {
  }

  /** `follow`: the insert's result is not checked; the flag is set and the follower counter
      goes up by one either way. */
  function AfterFollow(v: ProfileView, ok: bool): ProfileView
    requires v.profileId.Some?
  {
    var f := Follow(v.currentUserId, v.profileId.value);
    v.(rows := if ok then v.rows + {f} else v.rows,
       isFollowing := true,
       followersCount := v.followersCount + 1)
  }

  /** `unfollow`: deletes the pair, clears the flag and lowers the counter by one, without
      checking the result and without a floor at zero. */
  function AfterUnfollow(v: ProfileView, ok: bool): ProfileView
    requires v.profileId.Some?
  {
    var f := Follow(v.currentUserId, v.profileId.value);
    v.(rows := if ok then v.rows - {f} else v.rows,
       isFollowing := false,
       followersCount := v.followersCount - 1)
  }

  /** The counters and the flag agree with the rows. */
  ghost predicate Counted(v: ProfileView)
    requires v.profileId.Some?
  {
    && v.followersCount == FollowersOf(v.rows, v.profileId.value)
    && v.followingCount == FollowingOf(v.rows, v.profileId.value)
    && (v.isFollowing <==> Follow(v.currentUserId, v.profileId.value) in v.rows)
  }

  /** A load whose reads all answered, for a signed-in user, leaves the view counted. */
  lemma LoadCountsRows(v: ProfileView)
    requires Truthy(v.profileId) && v.currentUserId != ""
    ensures var w := AfterLoadProfile(v, CountReplies(true, true, true));
      w.profileId == v.profileId && w.rows == v.rows && Counted(w)
  {
  }

  /** A failed count read shows 0, whatever the rows hold. */
  lemma FailedCountReadsZero(v: ProfileView, r: CountReplies)
    requires Truthy(v.profileId) && !r.followersOk && !r.followingOk
    ensures AfterLoadProfile(v, r).followersCount == 0 && AfterLoadProfile(v, r).followingCount == 0
  {
  }

  /** On someone else's profile (the only place the button is offered), a successful follow
      of a not-followed user keeps the counters equal to the rows; `followingCount` is not
      touched and stays right because the new pair's follower is not the profile owner. */
  lemma FollowKeepsCounted(v: ProfileView)
    requires v.profileId.Some? && !IsMyProfile(v) && Counted(v) && !v.isFollowing
    ensures Counted(AfterFollow(v, true))
    ensures AfterFollow(v, true).followingCount == v.followingCount
  {
    InsertCounts(v.rows, Follow(v.currentUserId, v.profileId.value), v.profileId.value);
  }

  /** Likewise a successful unfollow of a followed user. */
  lemma UnfollowKeepsCounted(v: ProfileView)
    requires v.profileId.Some? && !IsMyProfile(v) && Counted(v) && v.isFollowing
    ensures Counted(AfterUnfollow(v, true))
    ensures AfterUnfollow(v, true).followingCount == v.followingCount
  {
    DeleteCounts(v.rows, Follow(v.currentUserId, v.profileId.value), v.profileId.value);
  }

  /** Follow then unfollow restores the counters and the flag; when the pair was absent and
      both writes went through it also restores the rows. */
  lemma FollowUnfollowRoundTrip(v: ProfileView, ok1: bool, ok2: bool)
    requires v.profileId.Some? && !v.isFollowing
    ensures var w := AfterUnfollow(AfterFollow(v, ok1), ok2);
      && w.followersCount == v.followersCount
      && w.followingCount == v.followingCount
      && w.isFollowing == v.isFollowing
      && (ok2 && Follow(v.currentUserId, v.profileId.value) !in v.rows ==> w.rows == v.rows)
  {
  }

  /** Because the insert's error is ignored, a refused follow still moves the counter, and
      a counted view stops being counted. */
  lemma RefusedFollowDrifts(v: ProfileView)
    requires v.profileId.Some? && Counted(v)
    ensures var w := AfterFollow(v, false);
      w.rows == v.rows && w.followersCount == FollowersOf(v.rows, v.profileId.value) + 1 && !Counted(w)
  {
  }

  /** With no floor, unfollowing at a zero counter shows -1. */
  lemma UnfollowHasNoFloor(v: ProfileView, ok: bool)
    requires v.profileId.Some? && v.followersCount == 0
    ensures AfterUnfollow(v, ok).followersCount == -1
  {
  }

  /** The page component over a shared `follows` table. */
  class PublicProfilePage {
    const table: FollowTable
    var currentUserId: Id
    var profileId: Option<Id>
    var isFollowing: bool
    var followersCount: int
    var followingCount: int

    function Snapshot(): ProfileView
      reads this, table
    {
      ProfileView(currentUserId, profileId, isFollowing, followersCount, followingCount, table.rows)
    }

    constructor (table: FollowTable)
      ensures this.table == table
      ensures Snapshot() == ProfileView("", None, false, 0, 0, table.rows)
    {
      this.table := table;
      currentUserId, profileId := "", None;
      isFollowing, followersCount, followingCount := false, 0, 0;
    }

    method LoadUser(routeId: Option<Id>, authUser: Option<Id>)
      modifies this
      ensures Snapshot() == AfterLoadUser(old(Snapshot()), routeId, authUser)
    {
      var uid := if Truthy(authUser) then authUser.value else "";
      currentUserId := uid;
      if routeId == Some("me") {
        profileId := Some(uid);
      } else {
        profileId := if Truthy(routeId) then routeId else None;
      }
    }

    method LoadProfile(r: CountReplies)
      modifies this
      ensures Snapshot() == AfterLoadProfile(old(Snapshot()), r)
    {
      if !Truthy(profileId) {
        return;
      }
      var pid := profileId.value;
      if currentUserId != "" {
        isFollowing := r.followOk && Follow(currentUserId, pid) in table.rows;
      }
      followersCount := if r.followersOk then FollowersOf(table.rows, pid) else 0;
      followingCount := if r.followingOk then FollowingOf(table.rows, pid) else 0;
    }

    method FollowProfile(ok: bool)
      requires profileId.Some?
      modifies this, table
      ensures Snapshot() == AfterFollow(old(Snapshot()), ok)
    {
      table.Insert(Follow(currentUserId, profileId.value), ok);
      isFollowing := true;
      followersCount := followersCount + 1;
    }

    method UnfollowProfile(ok: bool)
      requires profileId.Some?
      modifies this, table
      ensures Snapshot() == AfterUnfollow(old(Snapshot()), ok)
    {
      table.Delete(currentUserId, profileId.value, ok);
      isFollowing := false;
      followersCount := followersCount - 1;
    }
  }
}
