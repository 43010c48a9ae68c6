/**
 * Application/Followers/Add.cs: the current user starts following `username`.
 * Nothing rejects following oneself.
 */
module FollowersAdd {
  import opened Domain
  import opened Persistence

  const NotFoundMessage := "Not found"
  const AlreadyFollowing := "Already following"
  const ProblemSaving := "Problem saving following"

  method Handle(context: DataContext, username: UserName, currentUsername: UserName, saved: bool)
    returns (r: Result<()>)
    modifies context
    ensures username !in old(context.users) ==> r == Err(NotFound(NotFoundMessage))
    ensures username in old(context.users) && currentUsername !in old(context.users) ==>
              r == Err(Exception(NullReference))
    ensures username in old(context.users) && currentUsername in old(context.users) ==>
              var count := multiset(old(context.followings))[UserFollowing(currentUsername, username)];
              && (count == 1 ==> r == Err(BadRequest(AlreadyFollowing)))
              && (count > 1 ==> r == Err(Exception(MoreThanOneElement)))
              && (count == 0 ==> r == if saved then Ok(()) else Err(Exception(ProblemSaving)))
    // exactly the pair (observer, target) is appended; the reverse pair is not
    ensures r.Ok? ==> context.followings == old(context.followings) + [UserFollowing(currentUsername, username)]
    ensures r.Ok? && currentUsername != username ==>
              multiset(context.followings)[UserFollowing(username, currentUsername)]
                == multiset(old(context.followings))[UserFollowing(username, currentUsername)]
    ensures r.Err? ==> context.followings == old(context.followings)
    ensures context.users == old(context.users) && context.activities == old(context.activities)
    ensures context.userActivities == old(context.userActivities)
    ensures old(context.Valid()) ==> context.Valid()
  {
    if username !in context.users {
      return Err(NotFound(NotFoundMessage));
    }
    if currentUsername !in context.users {
      // `observer.Id` in the following query dereferences the missing observer
      return Err(Exception(NullReference));
    }
    var following := UserFollowing(currentUsername, username);
    var count := multiset(context.followings)[following];
    if count > 1 {
      return Err(Exception(MoreThanOneElement));
    }
    if count == 1 {
      return Err(BadRequest(AlreadyFollowing));
    }
    if !saved {
      return Err(Exception(ProblemSaving));
    }
    assert following !in context.followings;
    context.followings := context.followings + [following];
    return Ok(());
  }
}
