/**
 * Application/Profiles/Details.cs: the profile projection of a user. The
 * image is the URL of the first main photo, absent when there is none; a
 * user name that matches no user makes the projection dereference null.
 */
module ProfilesDetails {
  import opened Wrappers
  import opened Domain

  function Handle(users: map<UserName, AppUser>, username: UserName): (r: Result<Profile>)
    ensures username !in users <==> r == Err(Exception(NullReference))
    ensures r.Ok? ==>
              var user := users[username];
              && r.value.displayName == user.displayName && r.value.username == username
              && r.value.bio == user.bio && r.value.photos == user.photos
    ensures r.Ok? && r.value.image.None? ==> forall k :: 0 <= k < |users[username].photos| ==> !users[username].photos[k].isMain
    ensures r.Ok? && r.value.image.Some? ==>
              exists k :: 0 <= k < |users[username].photos| && users[username].photos[k].isMain
                          && users[username].photos[k].url == r.value.image.value
                          && forall j :: 0 <= j < k ==> !users[username].photos[j].isMain
  {
    if username !in users then Err(Exception(NullReference))
    else
      var user := users[username];
      var image := match FindMain(user.photos)
        case None => None
        case Some(k) => Some(user.photos[k].url);
      Ok(Profile(user.displayName, username, image, user.photos, user.bio))
  }

  /** With exactly one main photo per user with photos, the image is absent exactly when there are no photos. */
  lemma ImageAbsentIffNoPhotos(users: map<UserName, AppUser>, username: UserName)
    requires username in users && ExactlyOneMain(users[username].photos)
    ensures Handle(users, username).Ok?
    ensures Handle(users, username).value.image.None? <==> users[username].photos == []
  {
    if users[username].photos != [] {
      MainExists(users[username].photos);
    }
  }
}
