/**
 * Application/Activities/FollowingResolver.cs: whether the current user
 * follows the attendee of an attendance row. The lookup of the current user
 * is an input (the tables); `currentUser.Followings` are the following rows
 * whose observer is the current user.
 */
module FollowingResolver {
  import opened Domain

  /** `destination` and `destMember` are what the mapper passes in; the result does not use them. */
  function Resolve<D>(users: map<UserName, AppUser>, followings: seq<UserFollowing>, currentUsername: UserName,
                      source: UserActivity, destination: D, destMember: bool): (r: Result<bool>)
    ensures currentUsername !in users <==> r == Err(Exception(NullReference))
    ensures r.Ok? ==> (r.value <==> UserFollowing(currentUsername, source.appUserId) in followings)
  {
    if currentUsername !in users then Err(Exception(NullReference))
    else
      var ownFollowings := FollowingRows(followings, currentUsername);
      Ok(exists f :: f in ownFollowings && f.targetId == source.appUserId)
  }

  /** The result depends on the current user and the attendee only. */
  lemma ResolveIgnoresDestination<D>(users: map<UserName, AppUser>, followings: seq<UserFollowing>,
                                     currentUsername: UserName, source: UserActivity, source': UserActivity,
                                     d: D, d': D, m: bool, m': bool)
    requires source.appUserId == source'.appUserId
    ensures Resolve(users, followings, currentUsername, source, d, m) == Resolve(users, followings, currentUsername, source', d', m')
  {
  }

  /**
   * Following is directed: a row in which the attendee follows the current
   * user does not change whether the current user follows the attendee.
   */
  lemma ResolveIsDirected<D>(users: map<UserName, AppUser>, followings: seq<UserFollowing>, currentUsername: UserName,
                             source: UserActivity, d: D, m: bool)
    requires currentUsername != source.appUserId
    ensures Resolve(users, followings + [UserFollowing(source.appUserId, currentUsername)], currentUsername, source, d, m)
            == Resolve(users, followings, currentUsername, source, d, m)
  {
  }
}
