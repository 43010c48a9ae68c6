/**
 * Application/Followers/List.cs: the profiles of a user's followers, or of
 * the users they follow, one per matching following row and in row order.
 * `readProfile` is the profile reader the handler calls for each row.
 */
module FollowersList {
  import opened Domain
  import opened Persistence
  import Seqs

  /** The source's `foreach` loop: one profile per row, in row order, of the endpoint `endpoint` picks. */
  method ReadProfiles(rows: seq<UserFollowing>, endpoint: UserFollowing -> UserName, readProfile: UserName -> Profile)
    returns (profiles: seq<Profile>)
    ensures |profiles| == |rows|
    ensures forall k :: 0 <= k < |rows| ==> profiles[k] == readProfile(endpoint(rows[k]))
  {
    profiles := [];
    var i := 0;
    while i < |rows|
      invariant 0 <= i <= |rows|
      invariant |profiles| == i
      invariant forall k :: 0 <= k < i ==> profiles[k] == readProfile(endpoint(rows[k]))
    {
      profiles := profiles + [readProfile(endpoint(rows[i]))];
      i := i + 1;
    }
  }

  function Observer(x: UserFollowing): UserName { x.observerId }
  function Target(x: UserFollowing): UserName { x.targetId }

  method Handle(context: DataContext, username: UserName, predicateName: string, readProfile: UserName -> Profile)
    returns (profiles: seq<Profile>)
    ensures predicateName == "followers" ==>
              var rows := FollowerRows(context.followings, username);
              |profiles| == |rows| && forall k :: 0 <= k < |rows| ==> profiles[k] == readProfile(rows[k].observerId)
    ensures predicateName == "following" ==>
              var rows := FollowingRows(context.followings, username);
              |profiles| == |rows| && forall k :: 0 <= k < |rows| ==> profiles[k] == readProfile(rows[k].targetId)
    ensures predicateName != "followers" && predicateName != "following" ==> profiles == []
  {
    var userFollowings: seq<UserFollowing> := [];
    profiles := [];
    if predicateName == "followers" {
      userFollowings := FollowerRows(context.followings, username);
      profiles := ReadProfiles(userFollowings, Observer, readProfile);
    } else if predicateName == "following" {
      userFollowings := FollowingRows(context.followings, username);
      profiles := ReadProfiles(userFollowings, Target, readProfile);
    }
  }

  /**
   * The rows listed are exactly the store's rows with that target (resp.
   * observer), each as many times as it occurs in the store.
   */
  lemma ListedRows(followings: seq<UserFollowing>, username: UserName, row: UserFollowing)
    ensures row in FollowerRows(followings, username) <==> row in followings && row.targetId == username
    ensures row.targetId == username ==> multiset(FollowerRows(followings, username))[row] == multiset(followings)[row]
    ensures row in FollowingRows(followings, username) <==> row in followings && row.observerId == username
    ensures row.observerId == username ==> multiset(FollowingRows(followings, username))[row] == multiset(followings)[row]
  {
    Seqs.FilterCount(followings, (f: UserFollowing) => f.targetId == username, row);
    Seqs.FilterCount(followings, (f: UserFollowing) => f.observerId == username, row);
  }

  /** Once `a` follows `b`, `a` is among `b`'s followers and `b` among those `a` follows. */
  lemma FollowListedBothWays(followings: seq<UserFollowing>, a: UserName, b: UserName)
    ensures UserFollowing(a, b) in FollowerRows(followings + [UserFollowing(a, b)], b)
    ensures UserFollowing(a, b) in FollowingRows(followings + [UserFollowing(a, b)], a)
  {
  }
}
