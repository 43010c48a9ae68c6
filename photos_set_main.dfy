/**
 * Application/Photos/SetMain.cs: makes one of the current user's photos the
 * main one. The handler clears the flag of the first main photo and then
 * sets the flag of the chosen photo; the two are positions of the photo
 * sequence, updated in that order, so choosing the main photo itself is the
 * case where both assignments hit the same photo. With no main photo at all
 * the handler dereferences null.
 */
module PhotosSetMain {
  import opened Domain
  import opened Persistence

  const NotFoundMessage := "Not found"
  const ProblemSaving := "Problem saving activity"

  method Handle(context: DataContext, currentUsername: UserName, id: PhotoId, saved: bool)
    returns (r: Result<()>)
    modifies context
    ensures currentUsername !in old(context.users) ==> r == Err(Exception(NullReference))
    ensures currentUsername in old(context.users) ==>
              var photos := old(context.users)[currentUsername].photos;
              if FindPhoto(photos, id).None? then r == Err(NotFound(NotFoundMessage))
              else if FindMain(photos).None? then r == Err(Exception(NullReference))
              else r == if saved then Ok(()) else Err(Exception(ProblemSaving))
    // under the invariant a found photo always has a main photo beside it
    ensures (old(context.Valid()) && currentUsername in old(context.users) &&
             FindPhoto(old(context.users)[currentUsername].photos, id).Some?) ==> r.Ok? == saved
    ensures r.Ok? ==>
              var before := old(context.users)[currentUsername].photos;
              var i := FindPhoto(before, id).value;
              var m := FindMain(before).value;
              && currentUsername in context.users
              && context.users == old(context.users)[currentUsername := old(context.users)[currentUsername].(photos := context.users[currentUsername].photos)]
              && var after := context.users[currentUsername].photos;
              && |after| == |before|
              && (forall k :: 0 <= k < |before| ==> after[k].id == before[k].id && after[k].url == before[k].url)
              && after[i].isMain
              && (m != i ==> !after[m].isMain)
              && (forall k :: 0 <= k < |before| && k != i && k != m ==> after[k] == before[k])
              && (ExactlyOneMain(before) ==> ExactlyOneMain(after))
              && (ExactlyOneMain(before) && before[i].isMain ==> after == before)
    ensures r.Err? ==> context.users == old(context.users)
    ensures context.activities == old(context.activities) && context.userActivities == old(context.userActivities)
    ensures context.followings == old(context.followings)
    ensures old(context.Valid()) ==> context.Valid()
  {
    if currentUsername !in context.users {
      return Err(Exception(NullReference));
    }
    var user := context.users[currentUsername];
    var found := FindPhoto(user.photos, id);
    if found.None? {
      return Err(NotFound(NotFoundMessage));
    }
    var i := found.value;
    var currentMain := FindMain(user.photos);
    if currentMain.None? {
      if old(context.Valid()) {
        MainExists(user.photos);
      }
      return Err(Exception(NullReference));
    }
    var m := currentMain.value;
    var photos := user.photos;
    photos := photos[m := photos[m].(isMain := false)];
    photos := photos[i := photos[i].(isMain := true)];
    if !saved {
      return Err(Exception(ProblemSaving));
    }
    MainPreserved(user.photos, i, m);
    context.users := context.users[currentUsername := user.(photos := photos)];
    return Ok(());
  }

  /** The two flag assignments keep exactly one main photo, and change nothing when the chosen photo is main. */
  lemma MainPreserved(before: seq<Photo>, i: nat, m: nat)
    requires i < |before| && m < |before| && before[m].isMain
    ensures var after := before[m := before[m].(isMain := false)][i := before[m := before[m].(isMain := false)][i].(isMain := true)];
            && (ExactlyOneMain(before) ==> ExactlyOneMain(after))
            && (ExactlyOneMain(before) && before[i].isMain ==> after == before)
  {
    var mid := before[m := before[m].(isMain := false)];
    var after := mid[i := mid[i].(isMain := true)];
    CountMainUpdate(before, m, mid[m]);
    CountMainUpdate(mid, i, after[i]);
    if ExactlyOneMain(before) {
      OnlyMain(before, m);
      if before[i].isMain {
        assert i == m;
        assert after == before;
      }
    }
  }
}
