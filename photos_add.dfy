/**
 * Application/Photos/Add.cs: stores an uploaded photo for the current user.
 * The upload has already happened; `upload` is what the photo store
 * returned. The new photo becomes main when the user has no main photo.
 */
module PhotosAdd {
  import opened Domain
  import opened Persistence

  const ProblemSaving := "Problem saving activity"

  method Handle(context: DataContext, currentUsername: UserName, upload: PhotoUploadResult, saved: bool)
    returns (r: Result<Photo>)
    modifies context
    ensures currentUsername !in old(context.users) ==> r == Err(Exception(NullReference))
    ensures currentUsername in old(context.users) ==> r.Ok? == saved
    ensures currentUsername in old(context.users) && !saved ==> r == Err(Exception(ProblemSaving))
    ensures r.Err? ==> context.users == old(context.users)
    ensures r.Ok? ==>
              var before := old(context.users)[currentUsername].photos;
              && r.value.id == upload.publicId && r.value.url == upload.url
              && (r.value.isMain <==> forall j :: 0 <= j < |before| ==> !before[j].isMain)
              && context.users == old(context.users)[currentUsername := old(context.users)[currentUsername].(photos := before + [r.value])]
    ensures !saved ==> r.Err?
    ensures context.activities == old(context.activities) && context.userActivities == old(context.userActivities)
    ensures context.followings == old(context.followings)
    ensures old(context.Valid()) ==> context.Valid()
  {
    if currentUsername !in context.users {
      return Err(Exception(NullReference));
    }
    var user := context.users[currentUsername];
    var photo := Photo(upload.publicId, upload.url, false);
    if FindMain(user.photos).None? {
      photo := photo.(isMain := true);
    }
    var photos := user.photos + [photo];
    if !saved {
      return Err(Exception(ProblemSaving));
    }
    CountMainAppend(user.photos, photo);
    CountMainZero(user.photos);
    context.users := context.users[currentUsername := user.(photos := photos)];
    return Ok(photo);
  }
}
