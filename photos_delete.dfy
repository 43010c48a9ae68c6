/**
 * Application/Photos/Delete.cs: removes one of the current user's photos.
 * The main photo cannot be removed. The photo store is asked first; its
 * answer is `deleteResult`, absent when it failed, and then the database is
 * left alone.
 */
module PhotosDelete {
  import opened Wrappers
  import opened Domain
  import opened Persistence

  const NotFoundMessage := "Not found"
  const CannotDeleteMain := "Cannot delete main photo"
  const ProblemDeleting := "Problem deleting photo"
  const ProblemSaving := "Problem saving activity"

  method Handle(context: DataContext, currentUsername: UserName, id: PhotoId, deleteResult: Option<string>, saved: bool)
    returns (r: Result<()>)
    modifies context
    ensures currentUsername !in old(context.users) ==> r == Err(Exception(NullReference))
    ensures currentUsername in old(context.users) ==>
              var photos := old(context.users)[currentUsername].photos;
              match FindPhoto(photos, id)
              case None => r == Err(NotFound(NotFoundMessage))
              case Some(i) =>
                if photos[i].isMain then r == Err(BadRequest(CannotDeleteMain))
                else if deleteResult.None? then r == Err(Exception(ProblemDeleting))
                else r == if saved then Ok(()) else Err(Exception(ProblemSaving))
    // exactly the first photo with that id, a non-main one, is removed; the rest keep order and flags
    ensures r.Ok? ==>
              var photos := old(context.users)[currentUsername].photos;
              var i := FindPhoto(photos, id).value;
              && !photos[i].isMain
              && context.users == old(context.users)[currentUsername := old(context.users)[currentUsername].(photos := photos[..i] + photos[i + 1..])]
    ensures r.Err? ==> context.users == old(context.users)
    ensures context.activities == old(context.activities) && context.userActivities == old(context.userActivities)
    ensures context.followings == old(context.followings)
    ensures old(context.Valid()) ==> context.Valid()
  {
    if currentUsername !in context.users {
      return Err(Exception(NullReference));
    }
    var user := context.users[currentUsername];
    var found := FindPhoto(user.photos, id);
    if found.None? {
      return Err(NotFound(NotFoundMessage));
    }
    var i := found.value;
    if user.photos[i].isMain {
      return Err(BadRequest(CannotDeleteMain));
    }
    if deleteResult.None? {
      return Err(Exception(ProblemDeleting));
    }
    if !saved {
      return Err(Exception(ProblemSaving));
    }
    CountMainRemove(user.photos, i);
    context.users := context.users[currentUsername := user.(photos := user.photos[..i] + user.photos[i + 1..])];
    return Ok(());
  }
}
